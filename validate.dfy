/** `validateOutput` (record.cpp): walks an output file record by record, reading each
    key and length and seeking over the payload, and fails at the first key smaller
    than the one before it. */
module Validate {
  import opened Bytes
  import opened Records
  import opened Streams
  import opened Codec

  /** The keys `validateOutput` compares, from the cursor on. Each pass reads a key and
      a length and then seeks `len` bytes ahead. The length is never checked, and a
      seek past the end of the file does not fail, so the key of a last record whose
      payload is cut short is compared as well. */
  function ScanKeys(d: seq<byte>, s: Cursor): (ks: seq<u64>)
    requires s.pos <= |d|
    ensures (ks == []) == !CanRead(d, s, HEADER_SIZE)
    decreases |d| - s.pos
  {
    if !CanRead(d, s, HEADER_SIZE) then []
    else [DecodeU64At(d, s.pos)] + ScanKeys(d, Seek(d, s.(pos := s.pos + HEADER_SIZE), HeaderLen(d, s)))
  }

  /** No key is smaller than the one just before it. */
  predicate NoDescent(ks: seq<u64>) {
    forall i :: 0 < i < |ks| ==> ks[i - 1] <= ks[i]
  }

  /** The keys of a sequence of records, in order. */
  function Keys(rs: seq<Record>): (ks: seq<u64>)
    ensures |ks| == |rs|
  {
    if rs == [] then [] else [rs[0].key] + Keys(rs[1..])
  }

  /** Each key is the key of the record at the same index. */
  lemma {:induction false} KeysAt(rs: seq<Record>)
    ensures forall i :: 0 <= i < |rs| ==> Keys(rs)[i] == KeyAt(rs, i)
    decreases |rs|
  {
    if rs != [] {
      KeysAt(rs[1..]);
      forall i | 0 < i < |rs| ensures Keys(rs)[i] == KeyAt(rs, i) {
        assert Keys(rs)[i] == Keys(rs[1..])[i - 1];
        assert rs[1..][i - 1] == rs[i];
      }
    }
  }

  /** `validateOutput(output)`: false when the file cannot be opened or some key is
      smaller than its predecessor; otherwise true, with the number of records
      counted. */
  method ValidateOutput(fs: FileSystem, output: string) returns (ok: bool, count: nat)
    ensures output !in fs.files ==> !ok
    ensures output in fs.files ==> (ok <==> NoDescent(ScanKeys(fs.files[output], Start)))
    ensures ok ==> count == |ScanKeys(fs.files[output], Start)|
  {
    if output !in fs.files {
      return false, 0;
    }
    var stream := new InputStream(fs.files[output]);
    ghost var d := stream.data;
    ghost var seen: seq<u64> := [];
    var prevKey: u64 := 0;
    var first := true;
    count := 0;
    while stream.good
      invariant stream.Valid() && stream.data == d
      invariant ScanKeys(d, Start) == seen + ScanKeys(d, stream.State())
      invariant NoDescent(seen) && count == |seen|
      invariant first <==> seen == []
      invariant !first ==> prevKey == seen[|seen| - 1]
      decreases |d| - stream.pos
    {
      ghost var s := stream.State();
      var ok, key, len := ReadHeader(stream);
      if !ok {
        assert seen + ScanKeys(d, s) == seen;
        break;
      }
      stream.Skip(len);
      ScanStep(d, s, stream.State(), seen, key, ScanKeys(d, Start));
      if !stream.good {
        break;
      }
      if !first && key < prevKey {
        return false, count;
      }
      prevKey := key;
      first := false;
      count := count + 1;
      seen := seen + [key];
    }
    return true, count;
  }

  /** The two header reads of `validateOutput`'s loop: the key, then the length. Both
      succeed exactly when 12 bytes remain on a good stream. */
  method ReadHeader(stream: InputStream) returns (ok: bool, key: u64, len: u32)
    requires stream.Valid()
    modifies stream
    ensures stream.Valid()
    ensures ok == CanRead(stream.data, old(stream.State()), HEADER_SIZE)
    ensures ok ==> key == DecodeU64At(stream.data, old(stream.pos)) && len == HeaderLen(stream.data, old(stream.State()))
    ensures ok ==> stream.State() == old(stream.State()).(pos := old(stream.pos) + HEADER_SIZE)
  {
    ghost var s := stream.State();
    key, len := 0, 0;
    var okKey, keyBytes := stream.Read(8);
    if !okKey {
      return false, key, len;
    }
    var okLen, lenBytes := stream.Read(4);
    AdvanceTwice(stream.data, s, 8, 4);
    if !okLen {
      return false, key, len;
    }
    DecodeSlice(stream.data, s.pos);
    DecodeSlice(stream.data, s.pos + 8);
    key := DecodeU64(keyBytes);
    len := DecodeU32(lenBytes);
    ok := true;
  }

  /** One pass of `validateOutput`'s loop moves the key at the cursor from the keys
      still to scan to the keys seen; a key below the last one seen is a descent in
      the whole scan, and any other key extends a run without descents. */
  lemma {:induction false} ScanStep(d: seq<byte>, s: Cursor, t: Cursor, seen: seq<u64>, key: u64, all: seq<u64>)
    requires s.pos <= |d| && CanRead(d, s, HEADER_SIZE) && key == DecodeU64At(d, s.pos)
    requires t == Seek(d, s.(pos := s.pos + HEADER_SIZE), HeaderLen(d, s))
    requires all == seen + ScanKeys(d, s)
    ensures all == (seen + [key]) + ScanKeys(d, t)
    ensures seen != [] && key < seen[|seen| - 1] ==> !NoDescent(all)
    ensures NoDescent(seen) && (seen != [] ==> seen[|seen| - 1] <= key) ==> NoDescent(seen + [key])
  {
    assert ScanKeys(d, s) == [key] + ScanKeys(d, t);
    AppendAssoc(seen, [key], ScanKeys(d, t));
    if seen != [] && key < seen[|seen| - 1] {
      Descent(seen, key, ScanKeys(d, t));
    }
    if NoDescent(seen) && (seen != [] ==> seen[|seen| - 1] <= key) {
      NoDescentSnoc(seen, key);
    }
  }

  /** A key below the last one seen is a descent, whatever follows. */
  lemma {:induction false} Descent(seen: seq<u64>, key: u64, rest: seq<u64>)
    requires seen != [] && key < seen[|seen| - 1]
    ensures !NoDescent(seen + ([key] + rest))
  {
    var ks := seen + ([key] + rest);
    assert ks[|seen| - 1] == seen[|seen| - 1] && ks[|seen|] == key;
  }

  /** A key no smaller than the last one seen extends a run without descents. */
  lemma {:induction false} NoDescentSnoc(seen: seq<u64>, key: u64)
    requires NoDescent(seen) && (seen != [] ==> seen[|seen| - 1] <= key)
    ensures NoDescent(seen + [key])
  {
    var ks := seen + [key];
    forall i | 0 < i < |ks| ensures ks[i - 1] <= ks[i] {
      if i < |seen| {
        assert ks[i - 1] == seen[i - 1] && ks[i] == seen[i];
      }
    }
  }

  /** Keys of records encoded one after the other: the scan reports exactly their keys
      and goes on after them. */
  lemma {:induction false} ScanEncoded(d: seq<byte>, s: Cursor, rs: seq<Record>)
    requires s.good && s.pos + TotalSize(rs) <= |d| && d[s.pos..s.pos + TotalSize(rs)] == EncodeAll(rs)
    ensures ScanKeys(d, s) == Keys(rs) + ScanKeys(d, s.(pos := s.pos + TotalSize(rs)))
    decreases |rs|
  {
    var u := s.(pos := s.pos + TotalSize(rs));
    if rs == [] {
      calc {
        Keys(rs) + ScanKeys(d, u);
        [] + ScanKeys(d, s);
        ScanKeys(d, s);
      }
    } else {
      var t := s.(pos := s.pos + Size(rs[0]));
      ScanHead(d, s, rs);
      calc {
        ScanKeys(d, s);
        [rs[0].key] + ScanKeys(d, t);
        { ScanEncoded(d, t, rs[1..]); }
        [rs[0].key] + (Keys(rs[1..]) + ScanKeys(d, u));
        { AppendAssoc([rs[0].key], Keys(rs[1..]), ScanKeys(d, u)); }
        ([rs[0].key] + Keys(rs[1..])) + ScanKeys(d, u);
        Keys(rs) + ScanKeys(d, u);
      }
    }
  }

  /** The scan reports the key of the first of several encoded records and goes on
      with the encoding of the others. */
  lemma {:induction false} ScanHead(d: seq<byte>, s: Cursor, rs: seq<Record>)
    requires s.good && rs != [] && s.pos + TotalSize(rs) <= |d| && d[s.pos..s.pos + TotalSize(rs)] == EncodeAll(rs)
    ensures var t := s.(pos := s.pos + Size(rs[0]));
      && t.pos + TotalSize(rs[1..]) == s.pos + TotalSize(rs)
      && d[t.pos..t.pos + TotalSize(rs[1..])] == EncodeAll(rs[1..])
      && ScanKeys(d, s) == [rs[0].key] + ScanKeys(d, t)
  {
    var t := s.(pos := s.pos + Size(rs[0]));
    FetchEncodedHead(d, s, rs);
    FetchedHeader(d, s, rs[0], t);
    ScanCons(d, s, t);
  }

  /** The scan reports the key at the cursor, then goes on after the payload. */
  lemma {:induction false} ScanCons(d: seq<byte>, s: Cursor, t: Cursor)
    requires s.pos <= |d| && CanRead(d, s, HEADER_SIZE) && t == s.(pos := s.pos + HEADER_SIZE + HeaderLen(d, s))
    requires t.pos <= |d|
    ensures ScanKeys(d, s) == [DecodeU64At(d, s.pos)] + ScanKeys(d, t)
  {
    assert Seek(d, s.(pos := s.pos + HEADER_SIZE), HeaderLen(d, s)) == t;
  }

  /** Adjacent keys in order means all keys in order. */
  lemma {:induction false} NoDescentOrdered(ks: seq<u64>)
    requires NoDescent(ks)
    ensures forall i, j :: 0 <= i < j < |ks| ==> ks[i] <= ks[j]
    decreases |ks|
  {
    if |ks| > 1 {
      var init := ks[..|ks| - 1];
      assert NoDescent(init) by {
        forall i | 0 < i < |init| ensures init[i - 1] <= init[i] {
          assert init[i - 1] == ks[i - 1] && init[i] == ks[i];
        }
      }
      NoDescentOrdered(init);
      forall i, j | 0 <= i < j < |ks| ensures ks[i] <= ks[j] {
        if j < |ks| - 1 {
          assert init[i] == ks[i] && init[j] == ks[j];
        } else if i < j - 1 {
          assert init[i] == ks[i] && init[j - 1] == ks[j - 1];
        }
      }
    }
  }

  /** The keys of records are free of descents exactly when the records are sorted. */
  lemma {:induction false} NoDescentIsSorted(rs: seq<Record>)
    ensures NoDescent(Keys(rs)) <==> SortedByKey(rs)
  {
    var ks := Keys(rs);
    KeysAt(rs);
    if NoDescent(ks) {
      NoDescentOrdered(ks);
    }
  }

  /** Validating a file of encoded records succeeds exactly when they are in key order
      and counts them all; in particular it accepts what the merge writes from sorted
      spills, and an empty or one-record file. */
  lemma {:induction false} ValidateEncoding(rs: seq<Record>)
    ensures ScanKeys(EncodeAll(rs), Start) == Keys(rs)
    ensures NoDescent(ScanKeys(EncodeAll(rs), Start)) <==> SortedByKey(rs)
    ensures |rs| <= 1 ==> NoDescent(ScanKeys(EncodeAll(rs), Start))
  {
    var d := EncodeAll(rs);
    assert d[0..TotalSize(rs)] == d;
    ScanEncoded(d, Start, rs);
    assert Keys(rs) + [] == Keys(rs);
    NoDescentIsSorted(rs);
  }

  /** A file of encoded records followed by a record cut short inside its payload. */
  predicate CutShort(d: seq<byte>, rs: seq<Record>, r: Record, cut: nat) {
    && cut < r.len
    && |d| == TotalSize(rs) + HEADER_SIZE + cut
    && d[..TotalSize(rs)] == EncodeAll(rs)
    && d[TotalSize(rs)..] == EncodeRecord(r)[..HEADER_SIZE + cut]
  }

  /** The last record of such a file, though cut short, still has its key compared
      and counted. */
  lemma {:induction false} TruncatedRecordScanned(d: seq<byte>, rs: seq<Record>, r: Record, cut: nat)
    requires CutShort(d, rs, r, cut)
    ensures ScanKeys(d, Start) == Keys(rs) + [r.key]
  {
    var p := TotalSize(rs);
    assert d[0..p] == d[..p];
    assert Start.(pos := Start.pos + p) == Cursor(p, true);
    TruncatedTail(d, p, r, cut);
    ScanEncoded(d, Start, rs);
  }

  /** The merge's reader, on the same file, stops before the record cut short. */
  lemma {:induction false} TruncatedRecordUnread(d: seq<byte>, rs: seq<Record>, r: Record, cut: nat)
    requires CutShort(d, rs, r, cut)
    ensures ReadAll(d, Start) == rs
  {
    var p := TotalSize(rs);
    assert d[0..p] == d[..p];
    assert Start.(pos := Start.pos + p) == Cursor(p, true);
    TruncatedTail(d, p, r, cut);
    ReadAllPrefix(d, Start, rs);
    assert rs + [] == rs;
  }

  /** From the header of a record cut short inside its payload, the scan still reports
      its key, and the merge's reader reads nothing. */
  lemma {:induction false} TruncatedTail(d: seq<byte>, p: nat, r: Record, cut: nat)
    requires cut < r.len && p + HEADER_SIZE + cut == |d| && d[p..] == EncodeRecord(r)[..HEADER_SIZE + cut]
    ensures ScanKeys(d, Cursor(p, true)) == [r.key] && ReadAll(d, Cursor(p, true)) == []
  {
    var t := Cursor(p, true);
    TruncatedHeader(d, p, r, cut);
    assert Seek(d, t.(pos := t.pos + HEADER_SIZE), HeaderLen(d, t)) == Cursor(|d|, true);
    assert FetchUnchecked(d, t).Stopped?;
  }

  /** The header of a record cut short inside its payload is still whole. */
  lemma {:induction false} TruncatedHeader(d: seq<byte>, p: nat, r: Record, cut: nat)
    requires cut < r.len && p + HEADER_SIZE + cut == |d| && d[p..] == EncodeRecord(r)[..HEADER_SIZE + cut]
    ensures CanRead(d, Cursor(p, true), HEADER_SIZE) && !CanRead(d, Cursor(p, true), HEADER_SIZE + r.len)
    ensures DecodeU64At(d, p) == r.key && HeaderLen(d, Cursor(p, true)) == r.len
  {
    var h := EncodeRecord(r);
    forall i | 0 <= i < 8 ensures d[p..p + 8][i] == EncodeU64(r.key)[i] {
      assert d[p..p + 8][i] == d[p..][i] == h[i];
    }
    forall i | 0 <= i < 4 ensures d[p + 8..p + HEADER_SIZE][i] == EncodeU32(r.len)[i] {
      assert d[p + 8..p + HEADER_SIZE][i] == d[p..][8 + i] == h[8 + i];
    }
    DecodeSlice(d, p);
    DecodeSlice(d, p + 8);
  }
}
