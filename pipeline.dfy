/** How the phases fit together: the spills `createSortedChunks` writes are what
    `mergeChunks` needs to produce sorted output holding every record read, and that
    output is what `validateOutput` accepts. */
module Pipeline {
  import opened Bytes
  import opened Records
  import opened Streams
  import opened Codec
  import opened Spill
  import opened Merge
  import opened Validate

  /** Sequences holding the same records, index by index, hold the same records in all. */
  lemma {:induction false} SumMsPointwise(ps: seq<seq<Record>>, qs: seq<seq<Record>>)
    requires |ps| == |qs| && forall i :: 0 <= i < |ps| ==> multiset(ps[i]) == multiset(qs[i])
    ensures SumMs(ps) == SumMs(qs)
    decreases |ps|
  {
    if ps != [] {
      SumMsPointwise(ps[1..], qs[1..]);
    }
  }

  /** The spills written for chunks `cs`: every name returned is a file, it reads back
      as its spill, in key order, and together the spills hold the chunks' records. */
  lemma {:induction false} SpillsFeedMerge(files: map<string, seq<byte>>, dir: string, cs: seq<seq<Record>>,
                                           names: seq<string>, spills: seq<seq<Record>>)
    requires Spilled(cs, dir, names, spills)
    ensures var w := Written(files, dir, spills);
      && (forall i :: 0 <= i < |names| ==> names[i] in w)
      && (forall i :: 0 <= i < |names| ==> ReadAll(w[names[i]], Start) == spills[i] && SortedByKey(spills[i]))
      && Yields(Contents(w, names)) == spills
      && SumMs(Yields(Contents(w, names))) == multiset(Flatten(cs))
  {
    var w := Written(files, dir, spills);
    forall i | 0 <= i < |names|
      ensures names[i] in w && ReadAll(w[names[i]], Start) == spills[i]
    {
      WrittenSpill(files, dir, spills, i);
      ReadAllOfEncoding(spills[i]);
    }
    var ys := Yields(Contents(w, names));
    assert |ys| == |spills|;
    forall i | 0 <= i < |ys| ensures ys[i] == spills[i] {
      assert ys[i] == ReadAll(w[names[i]], Start);
    }
    assert ys == spills;
    SumMsPointwise(spills, cs);
    SumMsFlatten(cs);
  }

  /** On an input of valid records, the spills `createSortedChunks` writes are all
      present and in key order, so what `mergeChunks` promises about the records it
      writes (`merged`) makes them exactly the input's records, in key order, and
      `validateOutput` accepts the output file. */
  lemma {:induction false} SortedEndToEnd(rs: seq<Record>, files: map<string, seq<byte>>, dir: string,
                                          names: seq<string>, spills: seq<seq<Record>>, merged: seq<Record>)
    requires AllValid(rs) && Spilled(Chunks(EncodeAll(rs), Start, CHUNK_SIZE), dir, names, spills)
    requires var w := Written(files, dir, spills);
      && (forall i :: 0 <= i < |names| ==> names[i] in w)
      && multiset(merged) == SumMs(Yields(Contents(w, names)))
      && ((forall i :: 0 <= i < |names| ==> SortedByKey(ReadAll(w[names[i]], Start))) ==> SortedByKey(merged))
    ensures multiset(merged) == multiset(rs) && SortedByKey(merged)
    ensures NoDescent(ScanKeys(EncodeAll(merged), Start))
  {
    var d := EncodeAll(rs);
    assert d[Start.pos..] == d;
    ChunksOfEncoding(d, Start, rs, CHUNK_SIZE);
    SpillsFeedMerge(files, dir, Chunks(d, Start, CHUNK_SIZE), names, spills);
    ValidateEncoding(merged);
  }
}
