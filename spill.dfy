/** The first phase of the sort: cut the input into budget-sized chunks, sort each one
    in memory and spill it to a temporary file (`sortAndWriteChunk` and
    `createSortedChunks`, record.cpp, lines 51-81). */
module Spill {
  import opened Bytes
  import opened Records
  import opened Streams
  import opened Codec
  import opened ChunkReader

  // Sorting a chunk.

  /** The records of `a[..n]` are in non-decreasing key order. */
  ghost predicate SortedPrefix(a: array<Record>, n: nat)
    requires n <= a.Length
    reads a
  {
    forall p, q :: 0 <= p < q < n ==> a[p].key <= a[q].key
  }

  /** Exchanges two elements of the array. */
  method Swap(a: array<Record>, i: nat, j: nat)
    requires i < a.Length && j < a.Length
    modifies a
    ensures a[..] == old(a[..])[i := old(a[j])][j := old(a[i])]
    ensures multiset(a[..]) == multiset(old(a[..]))
  {
    a[i], a[j] := a[j], a[i];
  }

  /** One pass of insertion: the record at `a[i]` moves down past the larger keys
      before it, so that `a[..i + 1]` becomes sorted. */
  method InsertAt(a: array<Record>, i: nat)
    requires i < a.Length && SortedPrefix(a, i)
    modifies a
    ensures SortedPrefix(a, i + 1)
    ensures multiset(a[..]) == multiset(old(a[..]))
  {
    var j := i;
    while j > 0 && a[j - 1].key > a[j].key
      invariant 0 <= j <= i
      invariant forall p, q :: 0 <= p < q <= i && q != j ==> a[p].key <= a[q].key
      invariant 0 < j < i ==> a[j - 1].key <= a[j + 1].key
      invariant multiset(a[..]) == multiset(old(a[..]))
    {
      Swap(a, j - 1, j);
      j := j - 1;
    }
  }

  /** `std::sort` with `operator<` on a chunk: afterwards the array holds the same
      records in non-decreasing key order. The order among equal keys is not fixed
      (`std::sort` is not stable), so neither is it here. */
  method SortByKey(a: array<Record>)
    modifies a
    ensures SortedByKey(a[..])
    ensures multiset(a[..]) == multiset(old(a[..]))
  {
    var i := 0;
    while i < a.Length
      invariant 0 <= i <= a.Length
      invariant SortedPrefix(a, i)
      invariant multiset(a[..]) == multiset(old(a[..]))
    {
      InsertAt(a, i);
      i := i + 1;
    }
  }

  // Writing a spill.

  /** The bytes of records written one after another grow record by record. */
  lemma {:induction false} EncodeSnoc(rs: seq<Record>, r: Record)
    ensures EncodeAll(rs + [r]) == EncodeAll(rs) + EncodeRecord(r)
  {
    EncodeAllAppend(rs, [r]);
    assert EncodeAll([r]) == EncodeRecord(r) + EncodeAll([]);
  }

  /** The three `out.write` calls for one record: its key, its length and its payload. */
  method WriteRecord(fs: FileSystem, name: string, r: Record)
    requires name in fs.files
    modifies fs
    ensures fs.files == old(fs.files)[name := old(fs.files)[name] + EncodeRecord(r)]
  {
    ghost var m := old(fs.files);
    ghost var x := m[name];
    var key, len := EncodeU64(r.key), EncodeU32(r.len);
    fs.Append(name, key);
    fs.Append(name, len);
    UpdateTwice(m, name, x + key, x + key + len);
    fs.Append(name, r.payload);
    UpdateTwice(m, name, x + key + len, x + key + len + r.payload);
    AppendAssoc(x, key + len, r.payload);
    AppendAssoc(x, key, len);
  }

  /** The copy `std::vector<Record> sorted_records = records`, sorted in place. */
  method SortedCopy(records: seq<Record>) returns (sorted: seq<Record>)
    ensures SortedByKey(sorted) && multiset(sorted) == multiset(records)
  {
    var a := new Record[|records|](k requires 0 <= k < |records| => records[k]);
    assert a[..] == records;
    SortByKey(a);
    sorted := a[..];
  }

  /** The loop that writes every record, in order, to an open output file. */
  method WriteRecords(fs: FileSystem, name: string, rs: seq<Record>)
    requires name in fs.files
    modifies fs
    ensures fs.files == old(fs.files)[name := old(fs.files)[name] + EncodeAll(rs)]
  {
    ghost var start := fs.files[name];
    var i := 0;
    assert start + EncodeAll(rs[..0]) == start;
    while i < |rs|
      invariant 0 <= i <= |rs|
      invariant fs.files == old(fs.files)[name := start + EncodeAll(rs[..i])]
    {
      WriteRecord(fs, name, rs[i]);
      UpdateTwice(old(fs.files), name, start + EncodeAll(rs[..i]), start + EncodeAll(rs[..i]) + EncodeRecord(rs[i]));
      EncodeSnoc(rs[..i], rs[i]);
      assert rs[..i + 1] == rs[..i] + [rs[i]];
      AppendAssoc(start, EncodeAll(rs[..i]), EncodeRecord(rs[i]));
      i := i + 1;
    }
    assert rs[..i] == rs;
  }

  /** `sortAndWriteChunk(records, name)`: sorts a copy of the chunk and writes the copy
      to the file `name`, created or truncated first. The caller's records are passed
      by value and stay as they were; the sorted copy is returned so that the caller
      can name what was written. */
  method SortAndWriteChunk(fs: FileSystem, records: seq<Record>, name: string) returns (sorted: seq<Record>)
    modifies fs
    ensures SortedByKey(sorted) && multiset(sorted) == multiset(records)
    ensures fs.files == old(fs.files)[name := EncodeAll(sorted)]
  {
    sorted := SortedCopy(records);
    fs.Create(name);
    WriteRecords(fs, name, sorted);
    assert [] + EncodeAll(sorted) == EncodeAll(sorted);
    UpdateTwice(old(fs.files), name, [], EncodeAll(sorted));
  }

  /** Rearranging records keeps every one of them valid. */
  lemma {:induction false} PermutationValid(a: seq<Record>, b: seq<Record>)
    requires multiset(a) == multiset(b) && AllValid(a)
    ensures AllValid(b)
  {
    forall i | 0 <= i < |b| ensures ValidRecord(b[i]) {
      assert b[i] in multiset(a);
      var j :| 0 <= j < |a| && a[j] == b[i];
    }
  }

  /** Taking the element at `j` out of a sequence takes one copy of it out of its multiset. */
  lemma {:induction false} RemoveAt<T>(b: seq<T>, j: nat)
    requires j < |b|
    ensures b == b[..j] + ([b[j]] + b[j + 1..])
    ensures multiset(b[..j] + b[j + 1..]) == multiset(b) - multiset{b[j]}
  {
    assert b == b[..j] + ([b[j]] + b[j + 1..]);
  }

  /** Size of a sequence with one record taken out at `j`. */
  lemma {:induction false} RemoveAtSize(b: seq<Record>, j: nat)
    requires j < |b|
    ensures TotalSize(b) == Size(b[j]) + TotalSize(b[..j] + b[j + 1..])
  {
    RemoveAt(b, j);
    TotalSizeAppend(b[..j], [b[j]] + b[j + 1..]);
    TotalSizeAppend(b[..j], b[j + 1..]);
    ConsSize(b[j], b[j + 1..]);
  }

  /** Rearranging records keeps their total size. */
  lemma {:induction false} PermutationSize(a: seq<Record>, b: seq<Record>)
    requires multiset(a) == multiset(b)
    ensures TotalSize(a) == TotalSize(b)
    decreases |a|
  {
    if a == [] {
      assert |multiset(b)| == 0;
    } else {
      assert a[0] in multiset(b);
      var j :| 0 <= j < |b| && b[j] == a[0];
      RemoveAt(b, j);
      RemoveAt(a, 0);
      assert a[..0] + a[1..] == a[1..];
      PermutationSize(a[1..], b[..j] + b[j + 1..]);
      RemoveAtSize(b, j);
    }
  }

  /** What `sortAndWriteChunk` writes for a chunk within the budget reads back as the
      sorted copy, both through `readChunk` and through the merge's reads. */
  lemma {:induction false} SpillReadsBack(records: seq<Record>, sorted: seq<Record>, maxBytes: nat)
    requires AllValid(records) && TotalSize(records) <= maxBytes
    requires multiset(sorted) == multiset(records)
    ensures ChunkRecords(EncodeAll(sorted), Start, maxBytes) == sorted
    ensures ReadAll(EncodeAll(sorted), Start) == sorted
  {
    PermutationValid(records, sorted);
    PermutationSize(records, sorted);
    ReadChunkRoundTrip(sorted, maxBytes);
    ReadAllOfEncoding(sorted);
  }

  // Names of the spill files.

  predicate IsDigit(c: char) {
    '0' <= c <= '9'
  }

  predicate AllDigits(str: string) {
    forall i :: 0 <= i < |str| ==> IsDigit(str[i])
  }

  /** `std::to_string` of a non-negative number: its decimal digits, without sign or
      leading zeros. */
  function NatToString(n: nat): (str: string)
    ensures |str| > 0 && AllDigits(str)
    ensures |str| > 1 ==> str[0] != '0'
  {
    if n < 10 then ["0123456789"[n]] else NatToString(n / 10) + ["0123456789"[n % 10]]
  }

  /** The number a string of decimal digits denotes. */
  function ParseDecimal(str: string): nat
    requires AllDigits(str)
  {
    if str == [] then 0
    else 10 * ParseDecimal(str[..|str| - 1]) + (str[|str| - 1] as int - '0' as int)
  }

  /** Reading back the decimal digits of a number gives the number. */
  lemma {:induction false} DecimalRoundTrip(n: nat)
    ensures ParseDecimal(NatToString(n)) == n
  {
    var str := NatToString(n);
    if n >= 10 {
      DecimalRoundTrip(n / 10);
      assert str[..|str| - 1] == NatToString(n / 10);
    }
  }

  /** The path of the spill numbered `n` in the directory `dir`. */
  function ChunkName(dir: string, n: nat): string {
    dir + "/chunk_" + NatToString(n) + ".bin"
  }

  /** The number of a spill can be read back from its path, so different numbers give
      different paths. */
  lemma {:induction false} ChunkNameInjective(dir: string, n: nat, m: nat)
    ensures ChunkName(dir, n) == ChunkName(dir, m) <==> n == m
  {
    if ChunkName(dir, n) == ChunkName(dir, m) {
      var p := |dir + "/chunk_"|;
      var a := ChunkName(dir, n);
      var b := ChunkName(dir, m);
      assert a[p..|a| - 4] == NatToString(n);
      assert b[p..|b| - 4] == NatToString(m);
      DecimalRoundTrip(n);
      DecimalRoundTrip(m);
    }
  }

  /** The paths of the first `k` spills. */
  ghost function ChunkNames(dir: string, k: nat): set<string> {
    set i | 0 <= i < k :: ChunkName(dir, i)
  }

  // The chunks `createSortedChunks` reads.

  /** The chunks read from a stream at `s` with the budget `maxBytes`: while the stream
      is good, read a chunk and stop at the first empty one. */
  function Chunks(d: seq<byte>, s: Cursor, maxBytes: nat): (cs: seq<seq<Record>>)
    requires s.pos <= |d|
    decreases |d| - s.pos
  {
    if !s.good then []
    else
      var c := ChunkRecords(d, s, maxBytes);
      if c == [] then []
      else
        ReadChunkAdvances(d, s, maxBytes);
        TotalSizeLowerBound(c);
        [c] + Chunks(d, ChunkEnd(d, s, maxBytes), maxBytes)
  }

  /** A turn that reads a non-empty chunk moves the stream on and is followed by the
      chunks read from there. */
  lemma {:induction false} ChunksCons(d: seq<byte>, s: Cursor, maxBytes: nat)
    requires s.pos <= |d| && s.good && ChunkRecords(d, s, maxBytes) != []
    ensures var e := ChunkEnd(d, s, maxBytes);
      && s.pos < e.pos <= |d|
      && Chunks(d, s, maxBytes) == [ChunkRecords(d, s, maxBytes)] + Chunks(d, e, maxBytes)
  {
    ReadChunkAdvances(d, s, maxBytes);
    TotalSizeLowerBound(ChunkRecords(d, s, maxBytes));
  }

  /** The records of the chunks, in order. */
  function Flatten(cs: seq<seq<Record>>): seq<Record> {
    if cs == [] then [] else cs[0] + Flatten(cs[1..])
  }

  /** Every chunk is non-empty, holds valid records only, and overshoots the budget by
      less than one maximal record. */
  lemma {:induction false} ChunksWellFormed(d: seq<byte>, s: Cursor, maxBytes: nat)
    requires s.pos <= |d|
    ensures var cs := Chunks(d, s, maxBytes);
      forall i :: 0 <= i < |cs| ==>
        && cs[i] != [] && AllValid(cs[i])
        && TotalSize(cs[i]) < maxBytes + HEADER_SIZE + PAYLOAD_MAX
    decreases |d| - s.pos
  {
    var cs := Chunks(d, s, maxBytes);
    if cs != [] {
      var c := ChunkRecords(d, s, maxBytes);
      var e := ChunkEnd(d, s, maxBytes);
      ReadChunkAdvances(d, s, maxBytes);
      TotalSizeLowerBound(c);
      ReadChunkValid(d, s, maxBytes);
      ReadChunkBound(d, s, maxBytes);
      ChunksWellFormed(d, e, maxBytes);
      assert cs == [c] + Chunks(d, e, maxBytes);
      forall i | 0 <= i < |cs|
        ensures cs[i] != [] && AllValid(cs[i]) && TotalSize(cs[i]) < maxBytes + HEADER_SIZE + PAYLOAD_MAX
      {
        if i > 0 {
          assert cs[i] == Chunks(d, e, maxBytes)[i - 1];
        }
      }
    }
  }

  /** A chunk taken from encoded valid records is a prefix of them; it is all of them,
      and the stream ends failed, unless the budget was reached, in which case the
      stream stays good just past the chunk. */
  lemma {:induction false} ChunkOfEncoding(d: seq<byte>, s: Cursor, rs: seq<Record>, maxBytes: nat)
    requires s.good && s.pos <= |d| && d[s.pos..] == EncodeAll(rs) && AllValid(rs)
    ensures var c := ChunkRecords(d, s, maxBytes);
      && c <= rs && (rs != [] && 0 < maxBytes ==> c != [])
      && (TotalSize(c) < maxBytes ==> c == rs && ChunkEnd(d, s, maxBytes) == Cursor(|d|, false))
      && (TotalSize(c) >= maxBytes ==> ChunkEnd(d, s, maxBytes) == s.(pos := s.pos + TotalSize(c)))
  {
    CheckedOfEncoding(d, s, rs);
    FitPrefix(rs, maxBytes);
  }

  /** One turn of `createSortedChunks` on encoded valid records: a non-empty chunk is
      taken from the front; either it is all of them and no chunk follows, or the
      budget was reached and the rest of the records follow, still encoded. */
  lemma {:induction false} ChunkStepOfEncoding(d: seq<byte>, s: Cursor, rs: seq<Record>, maxBytes: nat)
    requires 0 < maxBytes && s.good && s.pos <= |d| && d[s.pos..] == EncodeAll(rs) && AllValid(rs)
    requires rs != []
    ensures var c := ChunkRecords(d, s, maxBytes);
      var e := ChunkEnd(d, s, maxBytes);
      && c != [] && e.pos <= |d| && c <= rs && rs == c + rs[|c|..]
      && Chunks(d, s, maxBytes) == [c] + Chunks(d, e, maxBytes)
      && (TotalSize(c) < maxBytes ==> c == rs && Chunks(d, e, maxBytes) == [])
      && (TotalSize(c) >= maxBytes ==> e.good && d[e.pos..] == EncodeAll(rs[|c|..]))
  {
    var c := ChunkRecords(d, s, maxBytes);
    ChunkOfEncoding(d, s, rs, maxBytes);
    ChunksCons(d, s, maxBytes);
    PrefixSplit(c, rs);
    if TotalSize(c) >= maxBytes {
      var rest := rs[|c|..];
      EncodeAllAppend(c, rest);
      DropPrefix(d, s.pos, EncodeAll(c), EncodeAll(rest));
    }
  }

  /** Chunking encoded valid records with a positive budget loses nothing and reorders
      nothing; every chunk but the last reaches the budget. */
  lemma {:induction false} ChunksOfEncoding(d: seq<byte>, s: Cursor, rs: seq<Record>, maxBytes: nat)
    requires 0 < maxBytes && s.good && s.pos <= |d| && d[s.pos..] == EncodeAll(rs) && AllValid(rs)
    ensures var cs := Chunks(d, s, maxBytes);
      && Flatten(cs) == rs
      && forall i :: 0 <= i < |cs| - 1 ==> TotalSize(cs[i]) >= maxBytes
    decreases |rs|
  {
    var cs := Chunks(d, s, maxBytes);
    if rs == [] {
      CheckedOfEncoding(d, s, rs);
      assert cs == [];
    } else {
      var c := ChunkRecords(d, s, maxBytes);
      var e := ChunkEnd(d, s, maxBytes);
      ChunkStepOfEncoding(d, s, rs, maxBytes);
      if TotalSize(c) < maxBytes {
        assert Flatten(cs) == c + Flatten([]);
      } else {
        var rest := rs[|c|..];
        ChunksOfEncoding(d, e, rest, maxBytes);
        assert cs[1..] == Chunks(d, e, maxBytes);
        forall i | 0 <= i < |cs| - 1 ensures TotalSize(cs[i]) >= maxBytes {
          if i > 0 {
            assert cs[i] == Chunks(d, e, maxBytes)[i - 1];
          }
        }
      }
    }
  }

  /** Records the checking decoder yields in full, below the budget, make the chunk,
      and the stream is left where the decoder stopped. */
  lemma {:induction false} ChunkOfChecked(d: seq<byte>, s: Cursor, rs: seq<Record>, maxBytes: nat)
    requires s.pos <= |d| && CheckedRecords(d, s) == rs && TotalSize(rs) < maxBytes
    ensures ChunkRecords(d, s, maxBytes) == rs && ChunkEnd(d, s, maxBytes) == CheckedStop(d, s)
  {
    FitAll(rs, maxBytes, 0);
    assert rs[..|rs|] == rs;
  }

  /** Valid records followed by a bad length field: the checking decoder yields the
      records and stops just past the rejected header, with the stream still good. */
  lemma {:induction false} CheckedBeforeBadLength(d: seq<byte>, s: Cursor, rs: seq<Record>)
    requires s.good && s.pos + TotalSize(rs) <= |d|
    requires d[s.pos..s.pos + TotalSize(rs)] == EncodeAll(rs) && AllValid(rs)
    requires BadLength(d, Cursor(s.pos + TotalSize(rs), true))
    ensures CheckedRecords(d, s) == rs
    ensures CheckedStop(d, s) == Cursor(s.pos + TotalSize(rs) + HEADER_SIZE, true)
  {
    var after := Cursor(s.pos + TotalSize(rs), true);
    CheckedOverEncoded(d, s, rs);
    assert FetchChecked(d, after) == Stopped(Cursor(after.pos + HEADER_SIZE, true));
    CheckedThenStop(d, s, after, rs);
  }

  /** A length field outside [8, PAYLOAD_MAX] just after some valid records ends the
      chunk of those records, and the next chunk is read from the 12 bytes past the
      rejected header on, that is, from inside the rejected record. */
  lemma {:induction false} BadLengthResumesMidRecord(d: seq<byte>, s: Cursor, rs: seq<Record>, maxBytes: nat)
    requires s.good && s.pos + TotalSize(rs) <= |d| && TotalSize(rs) < maxBytes
    requires d[s.pos..s.pos + TotalSize(rs)] == EncodeAll(rs) && AllValid(rs) && rs != []
    requires BadLength(d, Cursor(s.pos + TotalSize(rs), true))
    ensures Chunks(d, s, maxBytes)
      == [rs] + Chunks(d, Cursor(s.pos + TotalSize(rs) + HEADER_SIZE, true), maxBytes)
  {
    CheckedBeforeBadLength(d, s, rs);
    ChunkOfChecked(d, s, rs, maxBytes);
  }

  /** A length field outside [8, PAYLOAD_MAX] at the start of a chunk ends the whole
      phase: nothing after it is spilled. */
  lemma {:induction false} BadLengthAtChunkStartEndsAll(d: seq<byte>, s: Cursor, maxBytes: nat)
    requires s.pos <= |d| && 0 < maxBytes && BadLength(d, s)
    ensures Chunks(d, s, maxBytes) == []
  {
    BadLengthEndsChunk(d, s, maxBytes);
  }

  // Creating the spills.

  /** The spills made for the chunks `cs`: the `i`-th is named `ChunkName(dir, i)` and
      holds the records of the `i`-th chunk in non-decreasing key order. */
  ghost predicate Spilled(cs: seq<seq<Record>>, dir: string, names: seq<string>, spills: seq<seq<Record>>) {
    && |names| == |cs| && |spills| == |cs|
    && forall i :: 0 <= i < |cs| ==>
      && names[i] == ChunkName(dir, i)
      && SortedByKey(spills[i]) && multiset(spills[i]) == multiset(cs[i])
  }

  /** The directory tree after the spills were written one by one. */
  ghost function Written(files: map<string, seq<byte>>, dir: string, spills: seq<seq<Record>>): map<string, seq<byte>>
    decreases |spills|
  {
    if spills == [] then files
    else Written(files, dir, spills[..|spills| - 1])[ChunkName(dir, |spills| - 1) := EncodeAll(spills[|spills| - 1])]
  }

  /** Writing spill `k` leaves the files of the earlier spills alone. */
  lemma {:induction false} WrittenEarlier(w: map<string, seq<byte>>, dir: string, k: nat, i: nat, bs: seq<byte>)
    requires i < k && ChunkName(dir, i) in w
    ensures ChunkName(dir, i) in w[ChunkName(dir, k) := bs]
    ensures w[ChunkName(dir, k) := bs][ChunkName(dir, i)] == w[ChunkName(dir, i)]
  {
    ChunkNameInjective(dir, i, k);
    UpdateOther(w, ChunkName(dir, k), bs, ChunkName(dir, i));
  }

  /** The files after the spills were written: the files before and the spills. */
  lemma {:induction false} WrittenKeys(files: map<string, seq<byte>>, dir: string, spills: seq<seq<Record>>)
    ensures Written(files, dir, spills).Keys == files.Keys + ChunkNames(dir, |spills|)
    decreases |spills|
  {
    if spills != [] {
      var k := |spills| - 1;
      WrittenKeys(files, dir, spills[..k]);
      assert ChunkNames(dir, k + 1) == ChunkNames(dir, k) + {ChunkName(dir, k)};
    }
  }

  /** The last spill written holds the encoding of its records. */
  lemma {:induction false} WrittenLast(files: map<string, seq<byte>>, dir: string, spills: seq<seq<Record>>)
    requires spills != []
    ensures var w := Written(files, dir, spills);
      var k := |spills| - 1;
      ChunkName(dir, k) in w && w[ChunkName(dir, k)] == EncodeAll(spills[k])
  {
  }

  /** Every spill file holds the encoding of its records. */
  lemma {:induction false} WrittenSpill(files: map<string, seq<byte>>, dir: string, spills: seq<seq<Record>>, i: nat)
    requires i < |spills|
    ensures var w := Written(files, dir, spills);
      ChunkName(dir, i) in w && w[ChunkName(dir, i)] == EncodeAll(spills[i])
    decreases |spills|
  {
    var k := |spills| - 1;
    if i == k {
      WrittenLast(files, dir, spills);
    } else {
      var w' := Written(files, dir, spills[..k]);
      WrittenSpill(files, dir, spills[..k], i);
      assert spills[..k][i] == spills[i];
      WrittenEarlier(w', dir, k, i, EncodeAll(spills[k]));
      assert Written(files, dir, spills) == w'[ChunkName(dir, k) := EncodeAll(spills[k])];
    }
  }

  /** Every file that is not a spill is as it was. */
  lemma {:induction false} WrittenOthers(files: map<string, seq<byte>>, dir: string, spills: seq<seq<Record>>)
    ensures var w := Written(files, dir, spills);
      forall name :: name in files && name !in ChunkNames(dir, |spills|) ==> name in w && w[name] == files[name]
    decreases |spills|
  {
    if spills != [] {
      var k := |spills| - 1;
      WrittenOthers(files, dir, spills[..k]);
      assert ChunkNames(dir, k + 1) == ChunkNames(dir, k) + {ChunkName(dir, k)};
    }
  }

  /** One more chunk spilled under the next name. */
  lemma {:induction false} SpilledSnoc(cs: seq<seq<Record>>, dir: string, names: seq<string>, spills: seq<seq<Record>>, c: seq<Record>, spill: seq<Record>)
    requires Spilled(cs, dir, names, spills)
    requires SortedByKey(spill) && multiset(spill) == multiset(c)
    ensures Spilled(cs + [c], dir, names + [ChunkName(dir, |cs|)], spills + [spill])
  {
  }

  lemma {:induction false} WrittenSnoc(files: map<string, seq<byte>>, dir: string, spills: seq<seq<Record>>, x: seq<Record>)
    ensures Written(files, dir, spills + [x]) == Written(files, dir, spills)[ChunkName(dir, |spills|) := EncodeAll(x)]
  {
    assert (spills + [x])[..|spills|] == spills;
  }

  /** `createSortedChunks(input)`: reads the input chunk by chunk with the budget
      `CHUNK_SIZE`, and spills each chunk, sorted, to `tempDir/chunk_<n>.bin`. A missing
      input yields no spills. The names of the spills are returned in order. */
  method CreateSortedChunks(fs: FileSystem, input: string, tempDir: string)
    returns (tempFiles: seq<string>, ghost spills: seq<seq<Record>>)
    modifies fs
    ensures input !in old(fs.files) ==> tempFiles == [] && fs.files == old(fs.files)
    ensures input in old(fs.files) ==>
      && Spilled(Chunks(old(fs.files)[input], Start, CHUNK_SIZE), tempDir, tempFiles, spills)
      && fs.files == Written(old(fs.files), tempDir, spills)
  {
    tempFiles, spills := [], [];
    if input !in fs.files {
      return;
    }
    var stream := new InputStream(fs.files[input]);
    ghost var d := stream.data;
    ghost var files0 := fs.files;
    ghost var done: seq<seq<Record>> := [];
    var chunkNum := 0;
    while stream.good
      invariant stream.Valid() && stream.data == d
      invariant chunkNum == |done|
      invariant Chunks(d, Start, CHUNK_SIZE) == done + Chunks(d, stream.State(), CHUNK_SIZE)
      invariant Spilled(done, tempDir, tempFiles, spills)
      invariant fs.files == Written(files0, tempDir, spills)
      decreases |d| - stream.pos
    {
      ghost var s := stream.State();
      var records, bytesRead := ReadChunk(stream, CHUNK_SIZE);
      if records == [] {
        assert Chunks(d, s, CHUNK_SIZE) == [];
        break;
      }
      ChunksCons(d, s, CHUNK_SIZE);
      var tempFile := ChunkName(tempDir, chunkNum);
      chunkNum := chunkNum + 1;
      var sorted := SortAndWriteChunk(fs, records, tempFile);
      WrittenSnoc(files0, tempDir, spills, sorted);
      SpilledSnoc(done, tempDir, tempFiles, spills, records, sorted);
      tempFiles := tempFiles + [tempFile];
      spills := spills + [sorted];
      AppendAssoc(done, [records], Chunks(d, stream.State(), CHUNK_SIZE));
      done := done + [records];
    }
    assert done + [] == done;
  }
}
