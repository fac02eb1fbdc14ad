/** The second phase of the sort: the k-way merge of the spills through a min-heap
    (`MergeRecord` and `mergeChunks`, record.cpp, lines 83-137). */
module Merge {
  import opened Bytes
  import opened Records
  import opened Streams
  import opened Codec
  import opened Spill

  /** A heap entry: a record and the index of the spill it came from. */
  datatype MergeRecord = MergeRecord(rec: Record, fileIdx: int)

  /** `MergeRecord::operator>`: compares the records, so the spill index plays no part. */
  predicate MergeGreater(a: MergeRecord, b: MergeRecord) {
    Greater(a.rec, b.rec)
  }

  /** The heap's order is the key order, whatever the spills the entries came from. */
  lemma {:induction false} MergeGreaterIsKeyOrder(a: MergeRecord, b: MergeRecord)
    ensures MergeGreater(a, b) <==> a.rec.key > b.rec.key
    ensures forall i: int, j: int :: MergeGreater(MergeRecord(a.rec, i), MergeRecord(b.rec, j)) == MergeGreater(a, b)
  {
  }

  // The heap.

  /** The `std::priority_queue` ordered by `std::greater<MergeRecord>`, as a map from a
      spill index to the entry of that spill: an entry is pushed only for the spill
      whose entry was just popped, so the heap never holds two entries of one spill. */
  type Heap = map<int, Record>

  /** `i` is an entry `heap.top()` may return: no entry is smaller by `operator>`.
      Among entries with equal keys the heap may return any, and so may the model. */
  predicate IsTop(heap: Heap, i: int) {
    i in heap && forall j :: j in heap ==> !MergeGreater(MergeRecord(heap[i], i), MergeRecord(heap[j], j))
  }

  /** The spill among `i` to `n - 1` whose entry has the least key, or `-1` when none
      of them has an entry. */
  function LeastFrom(heap: Heap, i: nat, n: nat): (idx: int)
    ensures idx == -1 <==> forall j :: i <= j < n ==> j !in heap
    ensures idx != -1 ==> i <= idx < n && idx in heap
    ensures idx != -1 ==> forall j :: i <= j < n && j in heap ==> heap[idx].key <= heap[j].key
    decreases n - i
  {
    if i >= n then -1
    else
      var rest := LeastFrom(heap, i + 1, n);
      if i in heap && (rest == -1 || heap[i].key <= heap[rest].key) then i else rest
  }

  /** `heap.top()`: an entry no other entry is smaller than, which is one with the
      least key. The entries are those of spills `0` to `n - 1`. */
  function Top(heap: Heap, n: nat): (idx: int)
    requires |heap| > 0 && forall i :: i in heap ==> 0 <= i < n
    ensures IsTop(heap, idx)
    ensures forall j :: j in heap ==> heap[idx].key <= heap[j].key
  {
    var idx := LeastFrom(heap, 0, n);
    if idx == -1 then NoEntry(heap, n); assert false; 0 else idx
  }

  /** A heap with no entry for any of the spills `0` to `n - 1`, and none for any other
      spill, is empty. */
  lemma {:induction false} NoEntry(heap: Heap, n: nat)
    requires forall i :: i in heap ==> 0 <= i < n
    requires forall j :: 0 <= j < n ==> j !in heap
    ensures |heap| == 0
  {
    assert forall k :: k !in heap;
    assert heap.Keys == {};
  }

  // What the merge still has to write.

  /** The multiset union of the records of the sequences. */
  ghost function SumMs<T>(ps: seq<seq<T>>): multiset<T> {
    if ps == [] then multiset{} else multiset(ps[0]) + SumMs(ps[1..])
  }

  /** The number of records in the sequences. */
  ghost function TotalLen<T>(ps: seq<seq<T>>): nat {
    if ps == [] then 0 else |ps[0]| + TotalLen(ps[1..])
  }

  /** Taking the first element off one sequence takes it off the union and the count. */
  lemma {:induction false} SumPop<T>(ps: seq<seq<T>>, i: nat)
    requires i < |ps| && ps[i] != []
    ensures SumMs(ps[i := ps[i][1..]]) + multiset{ps[i][0]} == SumMs(ps)
    ensures TotalLen(ps[i := ps[i][1..]]) + 1 == TotalLen(ps)
    decreases |ps|
  {
    var ps' := ps[i := ps[i][1..]];
    var tail := ps[1..];
    if i > 0 {
      SumPop(tail, i - 1);
      assert ps'[1..] == tail[i - 1 := tail[i - 1][1..]];
      assert ps'[0] == ps[0] && tail[i - 1] == ps[i];
      calc {
        SumMs(ps') + multiset{ps[i][0]};
        multiset(ps[0]) + SumMs(tail[i - 1 := tail[i - 1][1..]]) + multiset{tail[i - 1][0]};
        multiset(ps[0]) + (SumMs(tail[i - 1 := tail[i - 1][1..]]) + multiset{tail[i - 1][0]});
        multiset(ps[0]) + SumMs(tail);
      }
    } else {
      assert ps'[1..] == tail;
      assert ps[0] == [ps[0][0]] + ps[0][1..];
      assert multiset(ps[0]) == multiset{ps[0][0]} + multiset(ps[0][1..]);
    }
  }

  /** The union of the sequences is the multiset of their concatenation. */
  lemma {:induction false} SumMsFlatten(ps: seq<seq<Record>>)
    ensures SumMs(ps) == multiset(Flatten(ps))
  {
    if ps != [] {
      SumMsFlatten(ps[1..]);
    }
  }

  /** The contents of the named files. */
  ghost function Contents(files: map<string, seq<byte>>, names: seq<string>): (ds: seq<seq<byte>>)
    requires forall i :: 0 <= i < |names| ==> names[i] in files
    ensures |ds| == |names| && forall i :: 0 <= i < |names| ==> ds[i] == files[names[i]]
    decreases |names|
  {
    if names == [] then [] else Contents(files, names[..|names| - 1]) + [files[names[|names| - 1]]]
  }

  /** The records the merge's reads yield from each stream, read from its start. */
  ghost function Yields(datas: seq<seq<byte>>): (ps: seq<seq<Record>>)
    ensures |ps| == |datas| && forall i :: 0 <= i < |datas| ==> ps[i] == ReadAll(datas[i], Start)
    decreases |datas|
  {
    if datas == [] then [] else Yields(datas[..|datas| - 1]) + [ReadAll(datas[|datas| - 1], Start)]
  }

  /** The state of the merge, spill by spill: `pend[i]` is what spill `i` has still to
      contribute, its heap entry if it has one followed by what its stream would still
      yield. A spill in `waiting` has not been read into the heap yet; any other spill
      without an entry is used up. */
  ghost predicate Pending(heap: Heap, datas: seq<seq<byte>>, curs: seq<Cursor>, pend: seq<seq<Record>>, waiting: set<int>) {
    && |datas| == |pend| && |curs| == |pend|
    && (forall i :: i in heap ==> 0 <= i < |pend| && i !in waiting)
    && forall i :: 0 <= i < |pend| ==>
      && curs[i].pos <= |datas[i]|
      && pend[i] == (if i in heap then [heap[i]] else []) + ReadAll(datas[i], curs[i])
      && (i !in heap && i !in waiting ==> pend[i] == [])
  }

  /** Popping the top entry of spill `idx`: it is the first record spill `idx` has to
      contribute, and spill `idx` waits to be read again. */
  lemma {:induction false} PopStep(heap: Heap, datas: seq<seq<byte>>, curs: seq<Cursor>, pend: seq<seq<Record>>, idx: int)
    requires Pending(heap, datas, curs, pend, {}) && idx in heap
    ensures idx < |pend| && pend[idx] != [] && pend[idx][0] == heap[idx]
    ensures Pending(heap - {idx}, datas, curs, pend[idx := pend[idx][1..]], {idx})
  {
    var pend': seq<seq<Record>> := pend[idx := pend[idx][1..]];
    assert pend[idx] == [heap[idx]] + ReadAll(datas[idx], curs[idx]);
    assert pend'[idx] == ReadAll(datas[idx], curs[idx]);
  }

  /** Reading the next record of a waiting spill: a record read becomes its heap entry;
      a failed read leaves the spill used up. */
  lemma {:induction false} RefillStep(heap: Heap, datas: seq<seq<byte>>, curs: seq<Cursor>, pend: seq<seq<Record>>,
                                      waiting: set<int>, left: set<int>, idx: int)
    requires Pending(heap, datas, curs, pend, waiting) && waiting == left + {idx} && idx !in left && 0 <= idx < |pend|
    ensures var f := FetchUnchecked(datas[idx], curs[idx]);
      var heap' := if f.Fetched? then heap[idx := f.rec] else heap;
      Pending(heap', datas, curs[idx := f.rest], pend, left)
  {
    var d, s := datas[idx], curs[idx];
    var f := FetchUnchecked(d, s);
    if f.Fetched? {
      assert ReadAll(d, s) == [f.rec] + ReadAll(d, f.rest);
    } else {
      FetchUncheckedStopped(d, s);
      assert ReadAll(d, f.rest) == [];
    }
  }

  /** The records written so far are in key order and none is larger than a record
      still to be written; every spill's remaining records are in key order. */
  ghost predicate Ordered(merged: seq<Record>, pend: seq<seq<Record>>) {
    && SortedByKey(merged)
    && (forall i :: 0 <= i < |pend| ==> SortedByKey(pend[i]))
    && (merged != [] ==> forall i, j :: 0 <= i < |pend| && 0 <= j < |pend[i]| ==> merged[|merged| - 1].key <= pend[i][j].key)
  }

  /** The heap holds the frontier: exactly the spills with records pending have an
      entry, and it is the first of those records. */
  ghost predicate Frontier(heap: Heap, pend: seq<seq<Record>>) {
    && (forall i :: i in heap ==> 0 <= i < |pend| && pend[i] != [] && pend[i][0] == heap[i])
    && (forall i :: 0 <= i < |pend| && pend[i] != [] ==> i in heap)
  }

  /** Between two readings of spills, the heap holds the frontier. */
  lemma {:induction false} PendingFrontier(heap: Heap, datas: seq<seq<byte>>, curs: seq<Cursor>, pend: seq<seq<Record>>)
    requires Pending(heap, datas, curs, pend, {})
    ensures Frontier(heap, pend)
  {
  }

  /** The top entry's key is at most every key still pending, when every spill's
      pending records are in key order. */
  lemma {:induction false} TopIsLeast(heap: Heap, pend: seq<seq<Record>>, idx: int)
    requires Frontier(heap, pend) && IsTop(heap, idx)
    requires forall i :: 0 <= i < |pend| ==> SortedByKey(pend[i])
    ensures forall i, j :: 0 <= i < |pend| && 0 <= j < |pend[i]| ==> heap[idx].key <= pend[i][j].key
  {
    forall i, j | 0 <= i < |pend| && 0 <= j < |pend[i]| ensures heap[idx].key <= pend[i][j].key {
      assert !MergeGreater(MergeRecord(heap[idx], idx), MergeRecord(heap[i], i));
      assert j == 0 || KeyAt(pend[i], 0) <= KeyAt(pend[i], j);
    }
  }

  /** Writing the top entry keeps the output ordered when every spill is. */
  lemma {:induction false} OrderedStep(heap: Heap, pend: seq<seq<Record>>, merged: seq<Record>, idx: int)
    requires Frontier(heap, pend) && IsTop(heap, idx) && Ordered(merged, pend)
    ensures idx < |pend| && pend[idx] != []
    ensures Ordered(merged + [heap[idx]], pend[idx := pend[idx][1..]])
  {
    var x := heap[idx];
    TopIsLeast(heap, pend, idx);
    var pend': seq<seq<Record>> := pend[idx := pend[idx][1..]];
    forall i | 0 <= i < |pend'| ensures SortedByKey(pend'[i]) {
      if i == idx {
        forall p, q | 0 <= p < q < |pend'[i]| ensures KeyAt(pend'[i], p) <= KeyAt(pend'[i], q) {
          assert KeyAt(pend[i], p + 1) <= KeyAt(pend[i], q + 1);
        }
      }
    }
    forall i, j | 0 <= i < |pend'| && 0 <= j < |pend'[i]| ensures x.key <= pend'[i][j].key {
      if i == idx {
        assert pend'[i][j] == pend[i][j + 1];
      }
    }
    var m := merged + [x];
    forall p, q | 0 <= p < q < |m| ensures KeyAt(m, p) <= KeyAt(m, q) {
      if q < |merged| {
        assert KeyAt(merged, p) <= KeyAt(merged, q);
      } else if p < |merged| - 1 {
        assert KeyAt(merged, p) <= KeyAt(merged, |merged| - 1);
      }
    }
  }

  /** Writing the first record of spill `idx` moves it from what is pending to what is
      written, and one record fewer is pending. */
  lemma {:induction false} ConserveStep<T>(merged: seq<T>, pend: seq<seq<T>>, idx: nat, total: multiset<T>)
    requires idx < |pend| && pend[idx] != [] && multiset(merged) + SumMs(pend) == total
    ensures multiset(merged + [pend[idx][0]]) + SumMs(pend[idx := pend[idx][1..]]) == total
    ensures TotalLen(pend[idx := pend[idx][1..]]) < TotalLen(pend)
  {
    var x := pend[idx][0];
    SumPop(pend, idx);
    assert multiset(merged + [x]) == multiset(merged) + multiset{x};
  }

  // The merge.

  /** The merge's read of one record from spill `idx`: the key and the length, then
      the payload of that length, with no test of the length. */
  method ReadRecordUnchecked(inputs: InputStreams, idx: nat) returns (ok: bool, rec: Record)
    requires inputs.Valid() && idx < |inputs.datas|
    modifies inputs
    ensures inputs.Valid()
    ensures var f := FetchUnchecked(inputs.datas[idx], old(inputs.curs[idx]));
      && ok == f.Fetched? && (ok ==> rec == f.rec)
      && inputs.curs == old(inputs.curs)[idx := f.rest]
  {
    ghost var s := inputs.curs[idx];
    ghost var d := inputs.datas[idx];
    rec := RecordFields(0, 0, []);
    var okKey, keyBytes := inputs.Read(idx, 8);
    AdvanceTwice(d, s, 8, 4);
    if !okKey {
      return false, rec;
    }
    var okLen, lenBytes := inputs.Read(idx, 4);
    if !okLen {
      return false, rec;
    }
    var len := DecodeU32(lenBytes);
    DecodeSlice(d, s.pos + 8);
    var okPayload, payload := inputs.Read(idx, len);
    AdvanceTwice(d, s, HEADER_SIZE, len);
    if !okPayload {
      return false, rec;
    }
    rec := MakeRecord(DecodeU64(keyBytes), len, payload);
    DecodeSlice(d, s.pos);
    ok := true;
  }

  /** The spills the priming loop has still to read. */
  ghost function Waiting(i: nat, n: nat): set<int>
    decreases n - i
  {
    if i >= n then {} else Waiting(i + 1, n) + {i}
  }

  lemma {:induction false} WaitingRange(i: nat, n: nat)
    ensures forall j :: j in Waiting(i, n) <==> i <= j < n
    decreases n - i
  {
    if i < n {
      WaitingRange(i + 1, n);
    }
  }

  /** The names listed, as a set. */
  ghost function NameSet(names: seq<string>): set<string> {
    set x | x in names
  }

  lemma {:induction false} NameSetSnoc(names: seq<string>, i: nat)
    requires i < |names|
    ensures NameSet(names[..i + 1]) == NameSet(names[..i]) + {names[i]}
  {
    assert names[..i + 1] == names[..i] + [names[i]];
  }

  /** The first loop of `mergeChunks`: opens a stream on every spill, and gives up at
      the first name that is not a file. */
  method OpenInputs(fs: FileSystem, tempFiles: seq<string>) returns (ok: bool, inputs: InputStreams?)
    ensures ok <==> forall i :: 0 <= i < |tempFiles| ==> tempFiles[i] in fs.files
    ensures ok ==>
      && inputs != null && fresh(inputs) && inputs.Valid()
      && inputs.datas == Contents(fs.files, tempFiles)
      && forall j :: 0 <= j < |inputs.curs| ==> inputs.curs[j] == Start
  {
    var contents: seq<seq<byte>> := [];
    var i := 0;
    while i < |tempFiles|
      invariant 0 <= i <= |tempFiles| && |contents| == i
      invariant forall j :: 0 <= j < i ==> tempFiles[j] in fs.files && contents[j] == fs.files[tempFiles[j]]
    {
      if tempFiles[i] !in fs.files {
        return false, null;
      }
      contents := contents + [fs.files[tempFiles[i]]];
      i := i + 1;
    }
    inputs := new InputStreams(contents);
    ok := true;
  }

  /** The read-and-push step of `mergeChunks`: reads the next record of waiting spill
      `idx` and pushes it when the read succeeds. */
  method Refill(ghost fs: FileSystem, inputs: InputStreams, idx: int, heap: Heap, ghost pend: seq<seq<Record>>,
                ghost waiting: set<int>, ghost left: set<int>)
    returns (heap': Heap)
    requires inputs.Valid() && 0 <= idx < |inputs.datas|
    requires Pending(heap, inputs.datas, inputs.curs, pend, waiting) && waiting == left + {idx} && idx !in left
    modifies inputs
    ensures inputs.Valid() && Pending(heap', inputs.datas, inputs.curs, pend, left)
    ensures fs.files == old(fs.files)
  {
    RefillStep(heap, inputs.datas, inputs.curs, pend, waiting, left, idx);
    var ok, rec := ReadRecordUnchecked(inputs, idx);
    heap' := heap;
    if ok {
      heap' := heap[idx := rec];
    }
  }

  /** The second loop of `mergeChunks`: pushes the first record of every spill that
      has one. */
  method PrimeHeap(ghost fs: FileSystem, inputs: InputStreams) returns (heap: Heap)
    requires inputs.Valid() && forall j :: 0 <= j < |inputs.curs| ==> inputs.curs[j] == Start
    modifies inputs
    ensures inputs.Valid() && Pending(heap, inputs.datas, inputs.curs, Yields(inputs.datas), {})
    ensures fs.files == old(fs.files)
  {
    var n := |inputs.datas|;
    heap := map[];
    ghost var pend := Yields(inputs.datas);
    WaitingRange(0, n);
    var i := 0;
    while i < n
      invariant 0 <= i <= n && inputs.Valid()
      invariant Pending(heap, inputs.datas, inputs.curs, pend, Waiting(i, n))
    {
      WaitingRange(i + 1, n);
      heap := Refill(fs, inputs, i, heap, pend, Waiting(i, n), Waiting(i + 1, n));
      i := i + 1;
    }
  }

  /** The three `out.write` calls of the main loop: one more record appended to the
      output, which so far holds `start` followed by the records `merged`. */
  method Emit(fs: FileSystem, output: string, r: Record, ghost base: map<string, seq<byte>>,
              ghost start: seq<byte>, ghost merged: seq<Record>, ghost inputs: InputStreams)
    requires fs.files == base[output := start + EncodeAll(merged)]
    modifies fs
    ensures fs.files == base[output := start + EncodeAll(merged + [r])]
    ensures inputs.curs == old(inputs.curs)
  {
    ghost var before := start + EncodeAll(merged);
    WriteRecord(fs, output, r);
    UpdateTwice(base, output, before, before + EncodeRecord(r));
    EncodeSnoc(merged, r);
    AppendAssoc(start, EncodeAll(merged), EncodeRecord(r));
  }

  /** Popping the top entry and writing it keeps what was written and what is pending
      together equal to `total`, and the output in key order when it was. */
  lemma {:induction false} PopKeeps(heap: Heap, datas: seq<seq<byte>>, curs: seq<Cursor>, pend: seq<seq<Record>>,
                                    merged: seq<Record>, total: multiset<Record>, sortedIn: bool, idx: int)
    requires Pending(heap, datas, curs, pend, {}) && IsTop(heap, idx)
    requires multiset(merged) + SumMs(pend) == total && (sortedIn ==> Ordered(merged, pend))
    ensures 0 <= idx < |pend| && pend[idx] != []
    ensures var pend' := pend[idx := pend[idx][1..]];
      && Pending(heap - {idx}, datas, curs, pend', {} + {idx})
      && multiset(merged + [heap[idx]]) + SumMs(pend') == total
      && (sortedIn ==> Ordered(merged + [heap[idx]], pend'))
      && TotalLen(pend') < TotalLen(pend)
  {
    PopStep(heap, datas, curs, pend, idx);
    if sortedIn {
      PendingFrontier(heap, datas, curs, pend);
      OrderedStep(heap, pend, merged, idx);
    }
    ConserveStep(merged, pend, idx, total);
    UnionEmpty(idx);
  }

  /** The first half of a turn of the main loop of `mergeChunks`: pops the top entry
      and writes its record to the output. */
  method PopAndEmit(fs: FileSystem, output: string, inputs: InputStreams, heap: Heap, ghost pend: seq<seq<Record>>,
                    ghost merged: seq<Record>, ghost base: map<string, seq<byte>>, ghost start: seq<byte>,
                    ghost total: multiset<Record>, ghost sortedIn: bool)
    returns (idx: int, ghost pend': seq<seq<Record>>, ghost merged': seq<Record>)
    requires fs.files == base[output := start + EncodeAll(merged)]
    requires inputs.Valid() && Pending(heap, inputs.datas, inputs.curs, pend, {}) && |heap| > 0
    requires multiset(merged) + SumMs(pend) == total && (sortedIn ==> Ordered(merged, pend))
    modifies fs
    ensures idx in heap && 0 <= idx < |inputs.datas|
    ensures fs.files == base[output := start + EncodeAll(merged')]
    ensures inputs.curs == old(inputs.curs)
    ensures Pending(heap - {idx}, inputs.datas, inputs.curs, pend', {} + {idx})
    ensures multiset(merged') + SumMs(pend') == total && (sortedIn ==> Ordered(merged', pend'))
    ensures TotalLen(pend') < TotalLen(pend)
  {
    idx := Top(heap, |inputs.datas|);
    var smallest := MergeRecord(heap[idx], idx);
    PopKeeps(heap, inputs.datas, inputs.curs, pend, merged, total, sortedIn, idx);
    pend' := pend[idx := pend[idx][1..]];
    Emit(fs, output, smallest.rec, base, start, merged, inputs);
    merged' := merged + [smallest.rec];
  }

  /** One turn of the main loop of `mergeChunks`: pops the top entry, writes its record
      to the output and pushes the next record of the same spill. */
  method MergeStep(fs: FileSystem, output: string, inputs: InputStreams, heap: Heap, ghost pend: seq<seq<Record>>,
                   ghost merged: seq<Record>, ghost base: map<string, seq<byte>>, ghost start: seq<byte>,
                   ghost total: multiset<Record>, ghost sortedIn: bool)
    returns (heap': Heap, ghost pend': seq<seq<Record>>, ghost merged': seq<Record>)
    requires fs.files == base[output := start + EncodeAll(merged)]
    requires inputs.Valid() && Pending(heap, inputs.datas, inputs.curs, pend, {}) && |heap| > 0
    requires multiset(merged) + SumMs(pend) == total && (sortedIn ==> Ordered(merged, pend))
    modifies fs, inputs
    ensures fs.files == base[output := start + EncodeAll(merged')]
    ensures inputs.Valid() && Pending(heap', inputs.datas, inputs.curs, pend', {})
    ensures multiset(merged') + SumMs(pend') == total && (sortedIn ==> Ordered(merged', pend'))
    ensures TotalLen(pend') < TotalLen(pend)
  {
    var idx;
    idx, pend', merged' := PopAndEmit(fs, output, inputs, heap, pend, merged, base, start, total, sortedIn);
    heap' := Refill(fs, inputs, idx, heap - {idx}, pend', {} + {idx}, {});
  }

  /** The main loop of `mergeChunks`: while the heap is not empty, writes its top
      entry to the output and pushes the next record of the same spill. Everything
      pending is written, and in key order when every spill's records are. */
  method MergeHeap(fs: FileSystem, output: string, inputs: InputStreams, heap0: Heap, ghost pend0: seq<seq<Record>>)
    returns (ghost merged: seq<Record>)
    requires output in fs.files
    requires inputs.Valid() && Pending(heap0, inputs.datas, inputs.curs, pend0, {})
    modifies fs, inputs
    ensures fs.files == old(fs.files)[output := old(fs.files)[output] + EncodeAll(merged)]
    ensures multiset(merged) == SumMs(pend0)
    ensures (forall j :: 0 <= j < |pend0| ==> SortedByKey(pend0[j])) ==> SortedByKey(merged)
  {
    ghost var base := fs.files;
    ghost var start := fs.files[output];
    ghost var sortedIn := forall j :: 0 <= j < |pend0| ==> SortedByKey(pend0[j]);
    merged := [];
    var heap := heap0;
    ghost var pend := pend0;
    assert start + EncodeAll(merged) == start;
    UpdateSame(base, output);
    assert multiset(merged) + SumMs(pend) == SumMs(pend0);
    while |heap| > 0
      invariant fs.files == base[output := start + EncodeAll(merged)]
      invariant inputs.Valid() && Pending(heap, inputs.datas, inputs.curs, pend, {})
      invariant multiset(merged) + SumMs(pend) == SumMs(pend0)
      invariant sortedIn ==> Ordered(merged, pend)
      decreases TotalLen(pend)
    {
      heap, pend, merged := MergeStep(fs, output, inputs, heap, pend, merged, base, start, SumMs(pend0), sortedIn);
    }
    NoPending(heap, inputs.datas, inputs.curs, pend);
  }

  /** The last loop of `mergeChunks`: removes every spill. */
  method RemoveSpills(fs: FileSystem, names: seq<string>)
    modifies fs
    ensures fs.files == old(fs.files) - NameSet(names)
  {
    var i := 0;
    while i < |names|
      invariant 0 <= i <= |names|
      invariant fs.files == old(fs.files) - NameSet(names[..i])
    {
      fs.Remove(names[i]);
      NameSetSnoc(names, i);
      RemoveSnoc(old(fs.files), NameSet(names[..i]), names[i]);
      i := i + 1;
    }
    assert names[..i] == names;
  }

  /** `mergeChunks(tempFiles, output)`. Opens every spill, and returns with nothing
      changed if one is missing; otherwise creates the output, primes the heap with
      the first record of every spill, then repeatedly writes the top entry and
      replaces it by the next record of its spill, and finally removes the spills.
      The records written are, as a multiset, those the spills' streams yield, and
      they are in key order when every spill's are. */
  method MergeChunks(fs: FileSystem, tempFiles: seq<string>, output: string) returns (ghost merged: seq<Record>)
    modifies fs
    ensures !(forall i :: 0 <= i < |tempFiles| ==> tempFiles[i] in old(fs.files)) ==> fs.files == old(fs.files)
    ensures (forall i :: 0 <= i < |tempFiles| ==> tempFiles[i] in old(fs.files)) ==>
      && fs.files == old(fs.files)[output := EncodeAll(merged)] - NameSet(tempFiles)
      && multiset(merged) == SumMs(Yields(Contents(old(fs.files), tempFiles)))
      && ((forall i :: 0 <= i < |tempFiles| ==> SortedByKey(ReadAll(old(fs.files)[tempFiles[i]], Start))) ==> SortedByKey(merged))
  {
    merged := [];
    var ok, inputs := OpenInputs(fs, tempFiles);
    if !ok {
      return;
    }
    merged := MergeOpened(fs, tempFiles, output, inputs);
    SpillsYield(old(fs.files), tempFiles, Yields(Contents(old(fs.files), tempFiles)));
  }

  /** `mergeChunks` once every spill is open: creates the output, merges into it and
      removes the spills. */
  method MergeOpened(fs: FileSystem, tempFiles: seq<string>, output: string, inputs: InputStreams)
    returns (ghost merged: seq<Record>)
    requires forall i :: 0 <= i < |tempFiles| ==> tempFiles[i] in fs.files
    requires inputs.Valid() && inputs.datas == Contents(fs.files, tempFiles)
    requires forall j :: 0 <= j < |inputs.curs| ==> inputs.curs[j] == Start
    modifies fs, inputs
    ensures fs.files == old(fs.files)[output := EncodeAll(merged)] - NameSet(tempFiles)
    ensures var pend := Yields(Contents(old(fs.files), tempFiles));
      && multiset(merged) == SumMs(pend)
      && ((forall i :: 0 <= i < |pend| ==> SortedByKey(pend[i])) ==> SortedByKey(merged))
  {
    ghost var base := fs.files;
    fs.Create(output);
    var heap := PrimeHeap(fs, inputs);
    merged := MergeHeap(fs, output, inputs, heap, Yields(inputs.datas));
    UpdateTwice(base, output, [], [] + EncodeAll(merged));
    assert [] + EncodeAll(merged) == EncodeAll(merged);
    assert fs.files == base[output := EncodeAll(merged)];
    RemoveSpills(fs, tempFiles);
  }

  /** Each spill's records pending at the start are those its file yields. */
  lemma {:induction false} SpillsYield(files: map<string, seq<byte>>, names: seq<string>, pend: seq<seq<Record>>)
    requires forall i :: 0 <= i < |names| ==> names[i] in files
    requires pend == Yields(Contents(files, names))
    ensures |pend| == |names|
    ensures forall i :: 0 <= i < |names| ==> pend[i] == ReadAll(files[names[i]], Start)
  {
  }

  /** With the heap empty, nothing is pending. */
  lemma {:induction false} NoPending(heap: Heap, datas: seq<seq<byte>>, curs: seq<Cursor>, pend: seq<seq<Record>>)
    requires Pending(heap, datas, curs, pend, {}) && |heap| == 0
    ensures SumMs(pend) == multiset{}
  {
    assert forall j :: 0 <= j < |pend| ==> j !in heap;
    AllEmpty(pend);
  }

  lemma {:induction false} AllEmpty<T>(ps: seq<seq<T>>)
    requires forall j :: 0 <= j < |ps| ==> ps[j] == []
    ensures SumMs(ps) == multiset{}
  {
    if ps != [] {
      AllEmpty(ps[1..]);
    }
  }

  /** A singleton is its own union with the empty set. */
  lemma {:induction false} UnionEmpty<T>(x: T)
    ensures {x} == {} + {x}
  {
  }

  /** Removing one more key is removing the enlarged set. */
  lemma {:induction false} RemoveSnoc<K, V>(m: map<K, V>, s: set<K>, k: K)
    ensures (m - s) - {k} == m - (s + {k})
  {
  }
}
