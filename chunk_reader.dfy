/** The budgeted chunk reader, `readChunk` (record.cpp, lines 31-49). */
module ChunkReader {
  import opened Bytes
  import opened Records
  import opened Streams
  import opened Codec

  /** Every record the checking decoder yields from the cursor, until it first stops. */
  function CheckedRecords(d: seq<byte>, s: Cursor): (rs: seq<Record>)
    requires s.pos <= |d|
    decreases |d| - s.pos
  {
    match FetchChecked(d, s)
    case Stopped(_) => []
    case Fetched(r, t) => [r] + CheckedRecords(d, t)
  }

  /** Where the checking decoder leaves the stream when it first stops. */
  function CheckedStop(d: seq<byte>, s: Cursor): (e: Cursor)
    requires s.pos <= |d|
    ensures e.pos <= |d|
    decreases |d| - s.pos
  {
    match FetchChecked(d, s)
    case Stopped(t) => t
    case Fetched(_, t) => CheckedStop(d, t)
  }

  /** How many of the records `rs` the loop takes, `total` bytes being counted already:
      it takes one more while the total is below the budget. */
  function Fit(rs: seq<Record>, maxBytes: nat, total: nat): (k: nat)
    ensures k <= |rs|
  {
    if rs == [] || total >= maxBytes then 0 else 1 + Fit(rs[1..], maxBytes, total + Size(rs[0]))
  }

  /** The records `readChunk(in, records, maxBytes)` collects from a stream at `s`: the
      records the checking decoder yields, for as long as the bytes counted so far stay
      below the budget. */
  function ChunkRecords(d: seq<byte>, s: Cursor, maxBytes: nat): (rs: seq<Record>)
    requires s.pos <= |d|
  {
    var all := CheckedRecords(d, s);
    all[..Fit(all, maxBytes, 0)]
  }

  /** Where `readChunk` leaves the stream: just past its last record if the budget was
      reached, and otherwise where the checking decoder stopped. */
  function ChunkEnd(d: seq<byte>, s: Cursor, maxBytes: nat): (e: Cursor)
    requires s.pos <= |d|
  {
    var all := CheckedRecords(d, s);
    var taken := TotalSize(all[..Fit(all, maxBytes, 0)]);
    if taken < maxBytes then CheckedStop(d, s) else s.(pos := s.pos + taken)
  }

  // Facts about the checking decoder run to its first stop.

  /** A turn that decodes a record. */
  lemma {:induction false} CheckedFetched(d: seq<byte>, s: Cursor)
    requires s.pos <= |d| && FetchChecked(d, s).Fetched?
    ensures var f := FetchChecked(d, s);
      && CheckedRecords(d, s) == [f.rec] + CheckedRecords(d, f.rest)
      && CheckedStop(d, s) == CheckedStop(d, f.rest)
  {
  }

  /** The turn that stops. */
  lemma {:induction false} CheckedStopped(d: seq<byte>, s: Cursor)
    requires s.pos <= |d| && FetchChecked(d, s).Stopped?
    ensures CheckedRecords(d, s) == [] && CheckedStop(d, s) == FetchChecked(d, s).rest
  {
  }

  /** Every record the checking decoder yields has a valid length. */
  lemma {:induction false} CheckedRecordsValid(d: seq<byte>, s: Cursor)
    requires s.pos <= |d|
    ensures AllValid(CheckedRecords(d, s))
    decreases |d| - s.pos
  {
    if FetchChecked(d, s).Fetched? {
      var f := FetchChecked(d, s);
      FetchCheckedFetched(d, s);
      CheckedFetched(d, s);
      CheckedRecordsValid(d, f.rest);
      ConsValid(f.rec, CheckedRecords(d, f.rest));
    }
  }

  /** The decoder moves past at least the bytes of the records it yields. */
  lemma {:induction false} CheckedStopAdvances(d: seq<byte>, s: Cursor)
    requires s.pos <= |d|
    ensures s.pos + TotalSize(CheckedRecords(d, s)) <= CheckedStop(d, s).pos
    decreases |d| - s.pos
  {
    if FetchChecked(d, s).Fetched? {
      var f := FetchChecked(d, s);
      FetchCheckedFetched(d, s);
      CheckedFetched(d, s);
      CheckedStopAdvances(d, f.rest);
      ConsSize(f.rec, CheckedRecords(d, f.rest));
    } else {
      FetchCheckedStopped(d, s);
      CheckedStopped(d, s);
    }
  }

  lemma {:induction false} PrefixCons<T>(x: T, a: seq<T>, b: seq<T>)
    requires a <= b
    ensures [x] + a <= [x] + b
  {
    assert ([x] + b)[..|[x] + a|] == [x] + b[..|a|];
  }

  /** The checking decoder yields the records the merge's decoder yields from the same
      cursor, in the same order, up to the first record with an invalid length. */
  lemma {:induction false} CheckedPrefixOfReadAll(d: seq<byte>, s: Cursor)
    requires s.pos <= |d|
    ensures CheckedRecords(d, s) <= ReadAll(d, s)
    decreases |d| - s.pos
  {
    if FetchChecked(d, s).Fetched? {
      var f := FetchChecked(d, s);
      FetchCheckedRefinesUnchecked(d, s);
      CheckedFetched(d, s);
      CheckedPrefixOfReadAll(d, f.rest);
      PrefixCons(f.rec, CheckedRecords(d, f.rest), ReadAll(d, f.rest));
    }
  }

  /** Valid records encoded at a good cursor are decoded as themselves, and decoding goes
      on from just past them. */
  lemma {:induction false} CheckedOverEncoded(d: seq<byte>, s: Cursor, rs: seq<Record>)
    requires s.good && s.pos + TotalSize(rs) <= |d|
    requires d[s.pos..s.pos + TotalSize(rs)] == EncodeAll(rs) && AllValid(rs)
    ensures var after := Cursor(s.pos + TotalSize(rs), true);
      && CheckedRecords(d, s) == rs + CheckedRecords(d, after)
      && CheckedStop(d, s) == CheckedStop(d, after)
    decreases |rs|
  {
    if rs == [] {
      assert s == Cursor(s.pos + TotalSize(rs), true);
    } else {
      var t := s.(pos := s.pos + Size(rs[0]));
      FetchEncodedHead(d, s, rs);
      ConsValid(rs[0], rs[1..]);
      assert rs == [rs[0]] + rs[1..];
      CheckedFetched(d, s);
      CheckedOverEncoded(d, t, rs[1..]);
      AppendAssoc([rs[0]], rs[1..], CheckedRecords(d, Cursor(s.pos + TotalSize(rs), true)));
    }
  }

  /** Records decoded up to a cursor where the decoder stops are all it yields, and it
      leaves the stream as that last turn does. */
  lemma {:induction false} CheckedThenStop(d: seq<byte>, s: Cursor, t: Cursor, rs: seq<Record>)
    requires s.pos <= |d| && t.pos <= |d| && FetchChecked(d, t).Stopped?
    requires CheckedRecords(d, s) == rs + CheckedRecords(d, t)
    requires CheckedStop(d, s) == CheckedStop(d, t)
    ensures CheckedRecords(d, s) == rs && CheckedStop(d, s) == FetchChecked(d, t).rest
  {
    CheckedStopped(d, t);
    assert rs + [] == rs;
  }

  /** Valid records encoded at a good cursor up to the end of the data decode as those
      records, then fail at the end. */
  lemma {:induction false} CheckedOverEncodedToEnd(d: seq<byte>, s: Cursor, rs: seq<Record>)
    requires s.good && s.pos + TotalSize(rs) == |d|
    requires d[s.pos..s.pos + TotalSize(rs)] == EncodeAll(rs) && AllValid(rs)
    ensures CheckedRecords(d, s) == rs && CheckedStop(d, s) == Cursor(|d|, false)
  {
    var after := Cursor(s.pos + TotalSize(rs), true);
    CheckedOverEncoded(d, s, rs);
    assert FetchChecked(d, after) == Stopped(Cursor(|d|, false));
    CheckedThenStop(d, s, after, rs);
  }

  /** A stream holding exactly the encoding of valid records decodes as those records,
      then fails at the end of the data. */
  lemma {:induction false} CheckedOfEncoding(d: seq<byte>, s: Cursor, rs: seq<Record>)
    requires s.good && s.pos <= |d| && d[s.pos..] == EncodeAll(rs) && AllValid(rs)
    ensures CheckedRecords(d, s) == rs && CheckedStop(d, s) == Cursor(|d|, false)
  {
    assert s.pos + TotalSize(rs) == |d|;
    assert d[s.pos..s.pos + TotalSize(rs)] == d[s.pos..];
    CheckedOverEncodedToEnd(d, s, rs);
  }

  // Facts about the budget.

  /** Taking one more record from a sequence with `r` in front. */
  lemma {:induction false} TakeCons(r: Record, tail: seq<Record>, k: nat)
    requires k <= |tail|
    ensures ([r] + tail)[..k + 1] == [r] + tail[..k]
    ensures TotalSize(([r] + tail)[..k + 1]) == Size(r) + TotalSize(tail[..k])
  {
    assert ([r] + tail)[..k + 1] == [r] + tail[..k];
    ConsSize(r, tail[..k]);
  }

  /** With a budget that covers them, the loop takes all the records. */
  lemma {:induction false} FitAll(rs: seq<Record>, maxBytes: nat, total: nat)
    requires total + TotalSize(rs) <= maxBytes
    ensures Fit(rs, maxBytes, total) == |rs|
  {
    if rs != [] {
      FitAll(rs[1..], maxBytes, total + Size(rs[0]));
    }
  }

  /** Once the loop has taken all of `a`, it goes on with `b` from the total `a` leaves. */
  lemma {:induction false} FitAppend(a: seq<Record>, b: seq<Record>, maxBytes: nat, total: nat)
    requires Fit(a, maxBytes, total) == |a|
    ensures Fit(a + b, maxBytes, total) == |a| + Fit(b, maxBytes, total + TotalSize(a))
  {
    if a == [] {
      assert a + b == b;
    } else {
      assert (a + b)[0] == a[0] && (a + b)[1..] == a[1..] + b;
      FitAppend(a[1..], b, maxBytes, total + Size(a[0]));
    }
  }

  /** The loop leaves records behind only once the budget is reached. */
  lemma {:induction false} FitStops(rs: seq<Record>, maxBytes: nat, total: nat)
    ensures var k := Fit(rs, maxBytes, total);
      k < |rs| ==> total + TotalSize(rs[..k]) >= maxBytes
  {
    if rs != [] && total < maxBytes {
      var k' := Fit(rs[1..], maxBytes, total + Size(rs[0]));
      FitStops(rs[1..], maxBytes, total + Size(rs[0]));
      assert rs == [rs[0]] + rs[1..];
      TakeCons(rs[0], rs[1..], k');
    } else {
      assert rs[..0] == [];
    }
  }

  /** What the loop takes is a prefix, non-empty when there are records and budget,
      and everything when it ends below the budget. */
  lemma {:induction false} FitPrefix(rs: seq<Record>, maxBytes: nat)
    ensures var k := Fit(rs, maxBytes, 0);
      && rs[..k] <= rs
      && (rs != [] && 0 < maxBytes ==> k > 0)
      && (TotalSize(rs[..k]) < maxBytes ==> rs[..k] == rs)
  {
    FitStops(rs, maxBytes, 0);
    var k := Fit(rs, maxBytes, 0);
    if k == |rs| {
      assert rs[..k] == rs;
    }
  }

  /** Valid records taken from a total below the budget overshoot it by less than one
      maximal record. */
  lemma {:induction false} FitBound(rs: seq<Record>, maxBytes: nat, total: nat)
    requires AllValid(rs)
    ensures var k := Fit(rs, maxBytes, total);
      k > 0 ==> total < maxBytes && total + TotalSize(rs[..k]) < maxBytes + HEADER_SIZE + PAYLOAD_MAX
  {
    if rs != [] && total < maxBytes {
      var k' := Fit(rs[1..], maxBytes, total + Size(rs[0]));
      assert rs == [rs[0]] + rs[1..];
      ConsValid(rs[0], rs[1..]);
      FitBound(rs[1..], maxBytes, total + Size(rs[0]));
      TakeCons(rs[0], rs[1..], k');
      if k' == 0 {
        assert rs[1..][..0] == [];
      }
    }
  }

  /** A prefix of valid records is valid. */
  lemma {:induction false} PrefixValid(rs: seq<Record>, k: nat)
    requires k <= |rs| && AllValid(rs)
    ensures AllValid(rs[..k])
  {
    forall i | 0 <= i < k ensures ValidRecord(rs[..k][i]) {
      assert rs[..k][i] == rs[i];
    }
  }

  /** The bytes of a prefix are at most those of the whole. */
  lemma {:induction false} PrefixSize(rs: seq<Record>, k: nat)
    requires k <= |rs|
    ensures TotalSize(rs[..k]) <= TotalSize(rs)
  {
    assert rs == rs[..k] + rs[k..];
    TotalSizeAppend(rs[..k], rs[k..]);
  }

  // The properties `readChunk` promises.

  /** A budget of zero bytes gives an empty chunk and leaves the stream where it was. */
  lemma {:induction false} ReadChunkZeroBudget(d: seq<byte>, s: Cursor)
    requires s.pos <= |d|
    ensures ChunkRecords(d, s, 0) == [] && ChunkEnd(d, s, 0) == s
  {
    var all := CheckedRecords(d, s);
    assert all[..0] == [];
  }

  /** Every record of a chunk has a valid length. */
  lemma {:induction false} ReadChunkValid(d: seq<byte>, s: Cursor, maxBytes: nat)
    requires s.pos <= |d|
    ensures AllValid(ChunkRecords(d, s, maxBytes))
  {
    var all := CheckedRecords(d, s);
    CheckedRecordsValid(d, s);
    PrefixValid(all, Fit(all, maxBytes, 0));
  }

  /** A non-empty chunk was started below the budget and overshoots it by less than one
      maximal record. */
  lemma {:induction false} ReadChunkBound(d: seq<byte>, s: Cursor, maxBytes: nat)
    requires s.pos <= |d|
    ensures var rs := ChunkRecords(d, s, maxBytes);
      rs != [] ==> 0 < maxBytes && TotalSize(rs) < maxBytes + HEADER_SIZE + PAYLOAD_MAX
  {
    CheckedRecordsValid(d, s);
    FitBound(CheckedRecords(d, s), maxBytes, 0);
  }

  /** The reader moves past at least the bytes of the records it returns, and no further
      than the end of the data. */
  lemma {:induction false} ReadChunkAdvances(d: seq<byte>, s: Cursor, maxBytes: nat)
    requires s.pos <= |d|
    ensures s.pos + TotalSize(ChunkRecords(d, s, maxBytes)) <= ChunkEnd(d, s, maxBytes).pos <= |d|
  {
    var all := CheckedRecords(d, s);
    CheckedStopAdvances(d, s);
    PrefixSize(all, Fit(all, maxBytes, 0));
  }

  /** A chunk holds, in order, records the merge's reader would read from the same
      cursor. */
  lemma {:induction false} ReadChunkPrefix(d: seq<byte>, s: Cursor, maxBytes: nat)
    requires s.pos <= |d|
    ensures ChunkRecords(d, s, maxBytes) <= ReadAll(d, s)
  {
    CheckedPrefixOfReadAll(d, s);
  }

  /** Round trip: valid records that fit the budget, encoded one after the other, are
      read back as exactly those records, in order. */
  lemma {:induction false} ReadChunkRoundTrip(rs: seq<Record>, maxBytes: nat)
    requires AllValid(rs) && TotalSize(rs) <= maxBytes
    ensures ChunkRecords(EncodeAll(rs), Start, maxBytes) == rs
  {
    CheckedOfEncoding(EncodeAll(rs), Start, rs);
    FitAll(rs, maxBytes, 0);
  }

  /** A length field outside [8, PAYLOAD_MAX] at the start of a chunk gives an empty
      chunk; only the 12 header bytes are consumed and the stream stays good, so a later
      read starts in the middle of the rejected record. */
  lemma {:induction false} BadLengthEndsChunk(d: seq<byte>, s: Cursor, maxBytes: nat)
    requires s.pos <= |d| && 0 < maxBytes && BadLength(d, s)
    ensures ChunkRecords(d, s, maxBytes) == []
    ensures ChunkEnd(d, s, maxBytes) == Cursor(s.pos + HEADER_SIZE, true)
  {
    CheckedStopped(d, s);
  }

  /** A record cut short by the end of the data is dropped, and the stream is left failed
      at the end of the data. */
  lemma {:induction false} TruncatedRecordIsDropped(d: seq<byte>, s: Cursor, maxBytes: nat)
    requires s.pos <= |d| && 0 < maxBytes && s.good && !BadLength(d, s)
    requires !CanRead(d, s, HEADER_SIZE) || !CanRead(d, s, HEADER_SIZE + HeaderLen(d, s))
    ensures ChunkRecords(d, s, maxBytes) == []
    ensures ChunkEnd(d, s, maxBytes) == Cursor(|d|, false)
  {
    CheckedStopped(d, s);
  }

  // The imperative reader.

  /** `readChunk`'s loop body up to the point where a record is complete: read the key
      and the length, reject a length outside [8, PAYLOAD_MAX], read the payload. */
  method ReadRecordChecked(stream: InputStream) returns (ok: bool, rec: Record)
    requires stream.Valid() && stream.good
    modifies stream
    ensures stream.Valid()
    ensures var f := FetchChecked(stream.data, old(stream.State()));
      && ok == f.Fetched? && (ok ==> rec == f.rec)
      && stream.State() == f.rest
  {
    ghost var s := stream.State();
    ghost var d := stream.data;
    rec := RecordFields(0, 0, []);
    var okKey, keyBytes := stream.Read(8);
    if !okKey {
      return false, rec;
    }
    var okLen, lenBytes := stream.Read(4);
    AdvanceTwice(d, s, 8, 4);
    if !okLen {
      return false, rec;
    }
    var len := DecodeU32(lenBytes);
    DecodeSlice(d, s.pos + 8);
    if len < 8 || len > PAYLOAD_MAX {
      return false, rec;
    }
    var okPayload, payload := stream.Read(len);
    AdvanceTwice(d, s, HEADER_SIZE, len);
    if !okPayload {
      return false, rec;
    }
    rec := MakeRecord(DecodeU64(keyBytes), len, payload);
    DecodeSlice(d, s.pos);
    ok := true;
  }

  /** Taking one more record below the budget keeps every record taken. */
  lemma {:induction false} FitSnoc(records: seq<Record>, r: Record, maxBytes: nat)
    requires TotalSize(records) < maxBytes && Fit(records, maxBytes, 0) == |records|
    ensures TotalSize(records + [r]) == TotalSize(records) + Size(r)
    ensures Fit(records + [r], maxBytes, 0) == |records| + 1
  {
    TotalSizeSnoc(records, r);
    FitAppend(records, [r], maxBytes, 0);
    assert Fit([r], maxBytes, TotalSize(records)) == 1;
  }

  /** The loop invariant of `ReadChunk` carries over a turn that decodes a record. */
  lemma {:induction false} ReadChunkStep(d: seq<byte>, s0: Cursor, s: Cursor, maxBytes: nat, records: seq<Record>)
    requires s0.pos <= |d| && s.pos <= |d| && TotalSize(records) < maxBytes
    requires FetchChecked(d, s).Fetched? && Fit(records, maxBytes, 0) == |records|
    requires CheckedRecords(d, s0) == records + CheckedRecords(d, s)
    requires CheckedStop(d, s0) == CheckedStop(d, s)
    ensures var f := FetchChecked(d, s);
      && f.rest == s.(pos := s.pos + HEADER_SIZE + f.rec.len)
      && TotalSize(records + [f.rec]) == TotalSize(records) + HEADER_SIZE + f.rec.len
      && Fit(records + [f.rec], maxBytes, 0) == |records + [f.rec]|
      && CheckedRecords(d, s0) == (records + [f.rec]) + CheckedRecords(d, f.rest)
      && CheckedStop(d, s0) == CheckedStop(d, f.rest)
  {
    var f := FetchChecked(d, s);
    FetchCheckedFetched(d, s);
    CheckedFetched(d, s);
    AppendAssoc(records, [f.rec], CheckedRecords(d, f.rest));
    FitSnoc(records, f.rec, maxBytes);
  }

  /** What the loop has read when it ends, with `rest` what the checking decoder would
      still yield: everything when nothing remains, and the records taken so far when
      the budget is reached. */
  lemma {:induction false} ReadChunkExit(records: seq<Record>, rest: seq<Record>, maxBytes: nat)
    requires Fit(records, maxBytes, 0) == |records|
    requires rest == [] || TotalSize(records) >= maxBytes
    ensures var all := records + rest;
      all[..Fit(all, maxBytes, 0)] == records
  {
    FitAppend(records, rest, maxBytes, 0);
    assert (records + rest)[..|records|] == records;
  }

  /** `readChunk(in, records, maxBytes)`. The caller's vector is the out-parameter
      `records`: it is cleared first, so the chunk does not depend on what the vector
      held before. */
  method ReadChunk(stream: InputStream, maxBytes: nat) returns (records: seq<Record>, total: nat)
    requires stream.Valid()
    modifies stream
    ensures stream.Valid()
    ensures records == ChunkRecords(stream.data, old(stream.State()), maxBytes)
    ensures stream.State() == ChunkEnd(stream.data, old(stream.State()), maxBytes)
    ensures total == TotalSize(records)
  {
    records := [];
    total := 0;
    ghost var s0 := stream.State();
    ghost var d := stream.data;
    while total < maxBytes && stream.good
      invariant stream.Valid() && stream.data == d
      invariant total == TotalSize(records) && Fit(records, maxBytes, 0) == |records|
      invariant stream.State() == s0.(pos := s0.pos + total)
      invariant CheckedRecords(d, s0) == records + CheckedRecords(d, stream.State())
      invariant CheckedStop(d, s0) == CheckedStop(d, stream.State())
      decreases |d| - stream.pos
    {
      ghost var s := stream.State();
      var ok, rec := ReadRecordChecked(stream);
      if !ok {
        CheckedStopped(d, s);
        ReadChunkExit(records, [], maxBytes);
        assert records + [] == records;
        return;
      }
      ReadChunkStep(d, s0, s, maxBytes, records);
      records := records + [rec];
      total := total + 8 + 4 + rec.len;
    }
    if !stream.good {
      CheckedStopped(d, stream.State());
      assert records + [] == records;
    }
    ReadChunkExit(records, CheckedRecords(d, stream.State()), maxBytes);
  }
}
