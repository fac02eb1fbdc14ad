/** The `Record` type, its constants and its key-only order (record.hpp). */
module Records {
  import opened Bytes

  /** Largest payload a valid record may carry. */
  const PAYLOAD_MAX: nat := 1024

  /** Byte budget of one in-memory chunk: 2^30 bytes. */
  const CHUNK_SIZE: nat := 0x4000_0000

  /** Bytes of a record that precede the payload: an 8-byte key and a 4-byte length. */
  const HEADER_SIZE: nat := 8 + 4

  datatype RecordFields = RecordFields(key: u64, len: u32, payload: seq<byte>)

  /** A record as the constructor builds it: the payload holds exactly `len` bytes. */
  type Record = r: RecordFields | |r.payload| == r.len witness RecordFields(0, 0, [])

  /** `Record(k, l, p)`: keeps the key and the length and copies the first `l` bytes at `p`. */
  function MakeRecord(k: u64, l: u32, p: seq<byte>): (r: Record)
    requires l <= |p|
    ensures r.key == k && r.len == l
    ensures |r.payload| == l && r.payload == p[..l]
  {
    RecordFields(k, l, p[..l])
  }

  /** The length range the chunk reader accepts. */
  predicate ValidLen(len: int) {
    8 <= len <= PAYLOAD_MAX
  }

  predicate ValidRecord(r: Record) {
    ValidLen(r.len)
  }

  predicate AllValid(rs: seq<Record>) {
    forall i :: 0 <= i < |rs| ==> ValidRecord(rs[i])
  }

  /** Serialised size of a record: `sizeof(key) + sizeof(len) + len`. */
  function Size(r: Record): nat {
    HEADER_SIZE + r.len
  }

  function TotalSize(rs: seq<Record>): nat {
    if rs == [] then 0 else Size(rs[0]) + TotalSize(rs[1..])
  }

  /** `operator<`: compares keys only. */
  predicate Less(a: Record, b: Record) {
    a.key < b.key
  }

  /** `operator>`: compares keys only. */
  predicate Greater(a: Record, b: Record) {
    a.key > b.key
  }

  /** The key of the record at index `i`. */
  function KeyAt(rs: seq<Record>, i: int): u64
    requires 0 <= i < |rs|
  {
    rs[i].key
  }

  /** Records in non-decreasing key order. The order is stated on `KeyAt`, so that it
      is applied only where a proof speaks of keys at indices. */
  predicate SortedByKey(rs: seq<Record>) {
    forall i, j :: 0 <= i < j < |rs| ==> KeyAt(rs, i) <= KeyAt(rs, j)
  }

  lemma {:induction false} LessIsKeyOrder(a: Record, b: Record)
    ensures Less(a, b) <==> a.key < b.key
    ensures forall l: u32, p: seq<byte> | |p| == l ::
      Less(a, b) == Less(RecordFields(a.key, l, p), b)
  {
  }

  lemma {:induction false} GreaterIsConverse(a: Record, b: Record)
    ensures Greater(a, b) <==> Less(b, a)
  {
  }

  /** `<` is a strict weak order whose equivalence classes are the keys. */
  lemma {:induction false} LessIsStrictWeakOrder(a: Record, b: Record, c: Record)
    ensures !Less(a, a)
    ensures Less(a, b) && Less(b, c) ==> Less(a, c)
    ensures (!Less(a, b) && !Less(b, a)) <==> a.key == b.key
    ensures (!Less(a, b) && !Less(b, a)) && (!Less(b, c) && !Less(c, b)) ==> !Less(a, c) && !Less(c, a)
  {
  }

  /** Sizes add up over concatenation. */
  lemma {:induction false} TotalSizeAppend(a: seq<Record>, b: seq<Record>)
    ensures TotalSize(a + b) == TotalSize(a) + TotalSize(b)
  {
    if a == [] {
      assert a + b == b;
    } else {
      assert (a + b)[0] == a[0] && (a + b)[1..] == a[1..] + b;
      TotalSizeAppend(a[1..], b);
    }
  }

  /** Size of a sequence with one more record at the end. */
  lemma {:induction false} TotalSizeSnoc(rs: seq<Record>, r: Record)
    ensures TotalSize(rs + [r]) == TotalSize(rs) + Size(r)
  {
    TotalSizeAppend(rs, [r]);
    assert [r][1..] == [];
  }

  /** Size of a sequence with one more record in front. */
  lemma {:induction false} ConsSize(r: Record, rs: seq<Record>)
    ensures TotalSize([r] + rs) == Size(r) + TotalSize(rs)
  {
    assert ([r] + rs)[0] == r && ([r] + rs)[1..] == rs;
  }

  /** Validity of a sequence with one more record in front. */
  lemma {:induction false} ConsValid(r: Record, rs: seq<Record>)
    ensures AllValid([r] + rs) <==> ValidRecord(r) && AllValid(rs)
  {
    var c := [r] + rs;
    if AllValid(c) {
      assert c[0] == r;
      forall j | 0 <= j < |rs| ensures ValidRecord(rs[j]) {
        assert rs[j] == c[j + 1];
      }
    }
    if ValidRecord(r) && AllValid(rs) {
      forall i | 0 <= i < |c| ensures ValidRecord(c[i]) {
        if i > 0 {
          assert c[i] == rs[i - 1];
        }
      }
    }
  }

  /** Every record occupies at least 12 bytes. */
  lemma {:induction false} TotalSizeLowerBound(rs: seq<Record>)
    ensures TotalSize(rs) >= HEADER_SIZE * |rs|
  {
    if rs != [] {
      TotalSizeLowerBound(rs[1..]);
    }
  }
}
