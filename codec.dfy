/** The record codec: `key:8 | len:4 | payload:len`, with no header, footer or
    padding. One encoder, used by the spill writer and by the merge, and the two
    decoders of the program: the chunk reader's, which checks `len`, and the
    merge's, which does not. */
module Codec {
  import opened Bytes
  import opened Records
  import opened Streams

  /** The bytes written for one record (record.cpp, lines 56-58 and 118-120). */
  function EncodeRecord(r: Record): (bs: seq<byte>)
    ensures |bs| == Size(r)
  {
    EncodeU64(r.key) + EncodeU32(r.len) + r.payload
  }

  /** The bytes written for a sequence of records, one after the other. */
  function EncodeAll(rs: seq<Record>): (bs: seq<byte>)
    ensures |bs| == TotalSize(rs)
  {
    if rs == [] then [] else EncodeRecord(rs[0]) + EncodeAll(rs[1..])
  }

  lemma {:induction false} EncodeAllAppend(a: seq<Record>, b: seq<Record>)
    ensures EncodeAll(a + b) == EncodeAll(a) + EncodeAll(b)
  {
    if a == [] {
      assert a + b == b;
    } else {
      assert (a + b)[0] == a[0] && (a + b)[1..] == a[1..] + b;
      EncodeAllAppend(a[1..], b);
    }
  }

  /** The outcome of trying to read one record from a stream. */
  datatype Fetch = Fetched(rec: Record, rest: Cursor) | Stopped(rest: Cursor)

  /** The length field of the 12-byte header at the cursor. */
  function HeaderLen(d: seq<byte>, s: Cursor): u32
    requires CanRead(d, s, HEADER_SIZE)
  {
    DecodeU32At(d, s.pos + 8)
  }

  /** The record whose header is at the cursor, `len` being its length field. */
  function RecordAt(d: seq<byte>, s: Cursor, len: u32): Record
    requires CanRead(d, s, HEADER_SIZE + len)
  {
    RecordFields(DecodeU64At(d, s.pos), len, seq(len, i requires 0 <= i < len => d[s.pos + HEADER_SIZE + i]))
  }

  /** The 12 header bytes are there but their length field is outside [8, PAYLOAD_MAX]. */
  predicate BadLength(d: seq<byte>, s: Cursor) {
    CanRead(d, s, HEADER_SIZE) && !ValidLen(HeaderLen(d, s))
  }

  /** One pass of readChunk's loop body (record.cpp, lines 35-45): read the key and
      the length, reject a length outside [8, PAYLOAD_MAX] without consuming more,
      then read the payload. The two header reads are folded into one read of 12
      bytes, which fails exactly when one of them would. */
  function FetchChecked(d: seq<byte>, s: Cursor): (f: Fetch)
    requires s.pos <= |d|
    ensures f.rest.pos <= |d|
  {
    if !CanRead(d, s, HEADER_SIZE) then Stopped(Advance(d, s, HEADER_SIZE))
    else
      var len := HeaderLen(d, s);
      if !ValidLen(len) then Stopped(s.(pos := s.pos + HEADER_SIZE))
      else if !CanRead(d, s, HEADER_SIZE + len) then Stopped(Advance(d, s, HEADER_SIZE + len))
      else Fetched(RecordAt(d, s, len), s.(pos := s.pos + HEADER_SIZE + len))
  }

  /** The merge's read of one record (record.cpp, lines 105-113 and 122-130): the
      same reads with no test of the length. */
  function FetchUnchecked(d: seq<byte>, s: Cursor): (f: Fetch)
    requires s.pos <= |d|
    ensures f.rest.pos <= |d|
  {
    if !CanRead(d, s, HEADER_SIZE) then Stopped(Advance(d, s, HEADER_SIZE))
    else
      var len := HeaderLen(d, s);
      if !CanRead(d, s, HEADER_SIZE + len) then Stopped(Advance(d, s, HEADER_SIZE + len))
      else Fetched(RecordAt(d, s, len), s.(pos := s.pos + HEADER_SIZE + len))
  }

  /** A record decoded from the bytes at the cursor re-encodes to those bytes. */
  lemma {:induction false} RecordAtEncodes(d: seq<byte>, s: Cursor, len: u32)
    requires CanRead(d, s, HEADER_SIZE + len) && HeaderLen(d, s) == len
    ensures d[s.pos..s.pos + Size(RecordAt(d, s, len))] == EncodeRecord(RecordAt(d, s, len))
  {
    var p := s.pos;
    DecodeSlice(d, p);
    DecodeSlice(d, p + 8);
    EncodeDecodeU64(d[p..p + 8]);
    EncodeDecodeU32(d[p + 8..p + HEADER_SIZE]);
    assert d[p..p + HEADER_SIZE + len] == d[p..p + 8] + d[p + 8..p + HEADER_SIZE] + d[p + HEADER_SIZE..p + HEADER_SIZE + len];
  }

  /** A record from the checking decoder has a valid length, and the stream, still
      good, sits just past it. */
  lemma {:induction false} FetchCheckedFetched(d: seq<byte>, s: Cursor)
    requires s.pos <= |d| && FetchChecked(d, s).Fetched?
    ensures var f := FetchChecked(d, s);
      ValidRecord(f.rec) && f.rest.good && f.rest.pos == s.pos + Size(f.rec)
  {
  }

  /** When the checking decoder stops, the stream is left good, just past the header,
      exactly when the length field was out of range, and not good otherwise. */
  lemma {:induction false} FetchCheckedStopped(d: seq<byte>, s: Cursor)
    requires s.pos <= |d| && FetchChecked(d, s).Stopped?
    ensures var f := FetchChecked(d, s);
      && f.rest.pos >= s.pos
      && (f.rest.good <==> BadLength(d, s))
      && (BadLength(d, s) ==> f.rest.pos == s.pos + HEADER_SIZE)
  {
  }

  /** A record from the merge's decoder; the stream, still good, sits just past it. */
  lemma {:induction false} FetchUncheckedFetched(d: seq<byte>, s: Cursor)
    requires s.pos <= |d| && FetchUnchecked(d, s).Fetched?
    ensures var f := FetchUnchecked(d, s);
      f.rest.good && f.rest.pos == s.pos + Size(f.rec)
  {
  }

  /** When the merge's decoder stops, the stream is left not good. */
  lemma {:induction false} FetchUncheckedStopped(d: seq<byte>, s: Cursor)
    requires s.pos <= |d| && FetchUnchecked(d, s).Stopped?
    ensures !FetchUnchecked(d, s).rest.good
  {
  }

  /** The bytes either decoder moved past are the encoding of the record it yields,
      and where the checking decoder yields a record the merge's yields the same. */
  lemma {:induction false} FetchedBytes(d: seq<byte>, s: Cursor)
    requires s.pos <= |d| && FetchUnchecked(d, s).Fetched?
    ensures var f := FetchUnchecked(d, s);
      s.pos + Size(f.rec) <= |d| && d[s.pos..s.pos + Size(f.rec)] == EncodeRecord(f.rec)
    ensures FetchChecked(d, s).Fetched? ==> FetchChecked(d, s) == FetchUnchecked(d, s)
  {
    RecordAtEncodes(d, s, HeaderLen(d, s));
  }

  /** Every record the merge reads from a stream, until the first failed read. */
  function ReadAll(d: seq<byte>, s: Cursor): (rs: seq<Record>)
    requires s.pos <= |d|
    decreases |d| - s.pos
  {
    match FetchUnchecked(d, s)
    case Stopped(_) => []
    case Fetched(r, t) => [r] + ReadAll(d, t)
  }

  /** The three fields of an encoded record sit at fixed offsets. */
  lemma {:induction false} EncodedFields(d: seq<byte>, p: nat, r: Record)
    requires p + Size(r) <= |d| && d[p..p + Size(r)] == EncodeRecord(r)
    ensures d[p..p + 8] == EncodeU64(r.key)
    ensures d[p + 8..p + HEADER_SIZE] == EncodeU32(r.len)
    ensures d[p + HEADER_SIZE..p + Size(r)] == r.payload
  {
    var e := EncodeRecord(r);
    forall i | 0 <= i < 8 ensures d[p..p + 8][i] == EncodeU64(r.key)[i] {
      assert d[p..p + 8][i] == d[p + i] == e[i];
    }
    forall i | 0 <= i < 4 ensures d[p + 8..p + HEADER_SIZE][i] == EncodeU32(r.len)[i] {
      assert d[p + 8..p + HEADER_SIZE][i] == d[p + 8 + i] == e[8 + i];
    }
    forall i | 0 <= i < r.len ensures d[p + HEADER_SIZE..p + Size(r)][i] == r.payload[i] {
      assert d[p + HEADER_SIZE..p + Size(r)][i] == d[p + HEADER_SIZE + i] == e[HEADER_SIZE + i];
    }
  }

  /** The encoding of a non-empty sequence starts with the encoding of its head. */
  lemma {:induction false} EncodedHead(d: seq<byte>, p: nat, rs: seq<Record>)
    requires rs != [] && p + TotalSize(rs) <= |d| && d[p..p + TotalSize(rs)] == EncodeAll(rs)
    ensures p + Size(rs[0]) + TotalSize(rs[1..]) == p + TotalSize(rs)
    ensures d[p..p + Size(rs[0])] == EncodeRecord(rs[0])
    ensures d[p + Size(rs[0])..p + TotalSize(rs)] == EncodeAll(rs[1..])
  {
    SliceSplit(d, p, p + Size(rs[0]), p + TotalSize(rs), EncodeRecord(rs[0]), EncodeAll(rs[1..]));
  }

  /** Both decoders read back exactly a record that was encoded at the cursor;
      the checking one does so when the record's length is valid. */
  lemma {:induction false} FetchEncoded(d: seq<byte>, s: Cursor, r: Record)
    requires s.good && s.pos + Size(r) <= |d|
    requires d[s.pos..s.pos + Size(r)] == EncodeRecord(r)
    ensures FetchUnchecked(d, s) == Fetched(r, s.(pos := s.pos + Size(r)))
    ensures ValidRecord(r) ==> FetchChecked(d, s) == Fetched(r, s.(pos := s.pos + Size(r)))
  {
    EncodedFields(d, s.pos, r);
    DecodeSlice(d, s.pos);
    DecodeSlice(d, s.pos + 8);
    assert HeaderLen(d, s) == r.len;
    assert RecordAt(d, s, r.len) == r;
  }

  /** Both decoders take the first of several encoded records off the front and leave
      the stream on the encoding of the others. */
  lemma {:induction false} FetchEncodedHead(d: seq<byte>, s: Cursor, rs: seq<Record>)
    requires s.good && rs != [] && s.pos + TotalSize(rs) <= |d|
    requires d[s.pos..s.pos + TotalSize(rs)] == EncodeAll(rs)
    ensures var t := s.(pos := s.pos + Size(rs[0]));
      && FetchUnchecked(d, s) == Fetched(rs[0], t)
      && (ValidRecord(rs[0]) ==> FetchChecked(d, s) == Fetched(rs[0], t))
      && t.pos + TotalSize(rs[1..]) == s.pos + TotalSize(rs)
      && d[t.pos..t.pos + TotalSize(rs[1..])] == EncodeAll(rs[1..])
  {
    EncodedHead(d, s.pos, rs);
    FetchEncoded(d, s, rs[0]);
  }

  /** The checking decoder accepts a subset of what the unchecked one accepts, and
      agrees with it there. */
  lemma {:induction false} FetchCheckedRefinesUnchecked(d: seq<byte>, s: Cursor)
    requires s.pos <= |d|
    ensures FetchChecked(d, s).Fetched? ==> FetchUnchecked(d, s) == FetchChecked(d, s)
    ensures FetchUnchecked(d, s).Fetched? && ValidRecord(FetchUnchecked(d, s).rec) ==> FetchChecked(d, s) == FetchUnchecked(d, s)
    ensures FetchUnchecked(d, s).Stopped? ==> FetchChecked(d, s).Stopped?
  {
  }

  /** Round trip: the merge's reader recovers exactly the records encoded after the
      cursor, for any records at all. */
  lemma {:induction false} ReadAllEncoded(d: seq<byte>, s: Cursor, rs: seq<Record>)
    requires s.good && s.pos <= |d| && d[s.pos..] == EncodeAll(rs)
    ensures ReadAll(d, s) == rs
    decreases |rs|
  {
    if rs == [] {
      assert !CanRead(d, s, HEADER_SIZE);
    } else {
      var r := rs[0];
      var t := s.(pos := s.pos + Size(r));
      EncodedHead(d, s.pos, rs);
      FetchEncoded(d, s, r);
      assert d[t.pos..] == EncodeAll(rs[1..]);
      ReadAllEncoded(d, t, rs[1..]);
    }
  }

  /** The header fields of a record the merge's decoder reads. */
  lemma {:induction false} FetchedHeader(d: seq<byte>, s: Cursor, r: Record, t: Cursor)
    requires s.pos <= |d| && FetchUnchecked(d, s) == Fetched(r, t)
    ensures CanRead(d, s, HEADER_SIZE) && DecodeU64At(d, s.pos) == r.key && HeaderLen(d, s) == r.len
    ensures t == s.(pos := s.pos + Size(r))
  {
  }

  /** A record read is the first of all the records read. */
  lemma {:induction false} ReadAllCons(d: seq<byte>, s: Cursor, r: Record, t: Cursor)
    requires s.pos <= |d| && FetchUnchecked(d, s) == Fetched(r, t)
    ensures t.pos <= |d| && ReadAll(d, s) == [r] + ReadAll(d, t)
  {
  }

  /** The merge's reader takes records encoded at the cursor off the front, whatever
      follows them, and goes on after them. */
  lemma {:induction false} ReadAllPrefix(d: seq<byte>, s: Cursor, rs: seq<Record>)
    requires s.good && s.pos + TotalSize(rs) <= |d| && d[s.pos..s.pos + TotalSize(rs)] == EncodeAll(rs)
    ensures ReadAll(d, s) == rs + ReadAll(d, s.(pos := s.pos + TotalSize(rs)))
    decreases |rs|
  {
    if rs == [] {
      assert s.(pos := s.pos + TotalSize(rs)) == s;
    } else {
      var t := s.(pos := s.pos + Size(rs[0]));
      var u := s.(pos := s.pos + TotalSize(rs));
      FetchEncodedHead(d, s, rs);
      ReadAllCons(d, s, rs[0], t);
      ReadAllPrefix(d, t, rs[1..]);
      assert t.(pos := t.pos + TotalSize(rs[1..])) == u;
      ConsAppend(rs, ReadAll(d, u), ReadAll(d, t), ReadAll(d, s));
    }
  }

  /** The stream a file's reader sees, positioned on the encoding of its records. */
  lemma {:induction false} ReadAllOfEncoding(rs: seq<Record>)
    ensures ReadAll(EncodeAll(rs), Start) == rs
  {
    ReadAllEncoded(EncodeAll(rs), Start, rs);
  }
}
