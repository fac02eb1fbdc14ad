/** Bytes and the fixed-width unsigned integers of the record layout.
    The two integer fields are written in host byte order; the model fixes
    that order to little-endian, and other host orders are not modelled. */
module Bytes {

  type byte = x: int | 0 <= x < 256

  type u32 = x: int | 0 <= x < 0x1_0000_0000

  type u64 = x: int | 0 <= x < 0x1_0000_0000_0000_0000

  /** The `uint32_t` held in the 4 bytes of `d` from offset `p` on. */
  function DecodeU32At(d: seq<byte>, p: nat): (l: u32)
    requires p + 4 <= |d|
  {
    d[p] as int + 0x100 * (d[p + 1] as int) + 0x1_0000 * (d[p + 2] as int) + 0x100_0000 * (d[p + 3] as int)
  }

  /** The `uint64_t` held in the 8 bytes of `d` from offset `p` on: low word first. */
  function DecodeU64At(d: seq<byte>, p: nat): (k: u64)
    requires p + 8 <= |d|
  {
    DecodeU32At(d, p) + 0x1_0000_0000 * DecodeU32At(d, p + 4)
  }

  /** `uint32_t` read from its 4 bytes. */
  function DecodeU32(bs: seq<byte>): u32
    requires |bs| == 4
  {
    DecodeU32At(bs, 0)
  }

  /** `uint64_t` read from its 8 bytes. */
  function DecodeU64(bs: seq<byte>): u64
    requires |bs| == 8
  {
    DecodeU64At(bs, 0)
  }

  /** Decoding a slice is decoding in place. */
  lemma {:induction false} DecodeSlice(d: seq<byte>, p: nat)
    ensures p + 4 <= |d| ==> DecodeU32(d[p..p + 4]) == DecodeU32At(d, p)
    ensures p + 8 <= |d| ==> DecodeU64(d[p..p + 8]) == DecodeU64At(d, p)
  {
    if p + 8 <= |d| {
      var bs := d[p..p + 8];
      assert bs[0] == d[p] && bs[1] == d[p + 1] && bs[2] == d[p + 2] && bs[3] == d[p + 3];
      assert bs[4] == d[p + 4] && bs[5] == d[p + 5] && bs[6] == d[p + 6] && bs[7] == d[p + 7];
    }
    if p + 4 <= |d| {
      var bs := d[p..p + 4];
      assert bs[0] == d[p] && bs[1] == d[p + 1] && bs[2] == d[p + 2] && bs[3] == d[p + 3];
    }
  }

  /** The 4 bytes `write` emits for a `uint32_t`. */
  function EncodeU32(l: u32): (bs: seq<byte>)
    ensures |bs| == 4 && DecodeU32(bs) == l
  {
    var b0 := l % 0x100;
    var l1 := l / 0x100;
    var b1 := l1 % 0x100;
    var l2 := l1 / 0x100;
    var b2 := l2 % 0x100;
    var b3 := l2 / 0x100;
    [b0, b1, b2, b3]
  }

  /** Every 4 bytes are the image of the value they hold. */
  lemma {:induction false} EncodeDecodeU32(bs: seq<byte>)
    requires |bs| == 4
    ensures EncodeU32(DecodeU32(bs)) == bs
  {
    var l := DecodeU32(bs);
    var l1 := bs[1] as int + 0x100 * (bs[2] as int) + 0x1_0000 * (bs[3] as int);
    var l2 := bs[2] as int + 0x100 * (bs[3] as int);
    assert l == bs[0] + 0x100 * l1;
    assert l1 == bs[1] + 0x100 * l2;
    assert l % 0x100 == bs[0] && l / 0x100 == l1;
    assert l1 % 0x100 == bs[1] && l1 / 0x100 == l2;
    assert l2 % 0x100 == bs[2] && l2 / 0x100 == bs[3];
  }

  /** The 8 bytes `write` emits for a `uint64_t`. */
  function EncodeU64(k: u64): (bs: seq<byte>)
    ensures |bs| == 8 && DecodeU64(bs) == k
  {
    var lo := EncodeU32(k % 0x1_0000_0000);
    var hi := EncodeU32(k / 0x1_0000_0000);
    var bs := lo + hi;
    assert bs[4..] == hi;
    DecodeSlice(bs, 4);
    bs
  }

  /** The two words of a `uint64_t`. */
  lemma {:induction false} Words(k: int, lo: u32, hi: u32)
    requires k == lo as int + 0x1_0000_0000 * (hi as int)
    ensures k % 0x1_0000_0000 == lo && k / 0x1_0000_0000 == hi
  {
  }

  /** Every 8 bytes are the image of the value they hold. */
  lemma {:induction false} EncodeDecodeU64(bs: seq<byte>)
    requires |bs| == 8
    ensures EncodeU64(DecodeU64(bs)) == bs
  {
    var lo := bs[0..4];
    var hi := bs[4..8];
    DecodeSlice(bs, 0);
    DecodeSlice(bs, 4);
    Words(DecodeU64(bs), DecodeU32(lo), DecodeU32(hi));
    EncodeDecodeU32(lo);
    EncodeDecodeU32(hi);
    assert bs == lo + hi;
  }

  /** A slice that is a concatenation splits at the join. */
  lemma {:induction false} SliceSplit<T>(d: seq<T>, p: nat, q: nat, r: nat, x: seq<T>, y: seq<T>)
    requires p <= q <= r <= |d| && |x| == q - p && d[p..r] == x + y
    ensures d[p..q] == x && d[q..r] == y
  {
    assert d[p..q] == d[p..r][..q - p];
    assert d[q..r] == d[p..r][q - p..];
  }

  /** What follows a concatenation's first part. */
  lemma {:induction false} DropPrefix<T>(d: seq<T>, p: nat, x: seq<T>, y: seq<T>)
    requires p <= |d| && d[p..] == x + y
    ensures p + |x| <= |d| && d[p + |x|..] == y
  {
    assert d[p + |x|..] == d[p..][|x|..];
  }

  /** A sequence is its prefix followed by the rest. */
  lemma {:induction false} PrefixSplit<T>(a: seq<T>, b: seq<T>)
    requires a <= b
    ensures b == a + b[|a|..]
  {
  }

  /** A head put back in front of its tail and what follows. */
  lemma {:induction false} ConsAppend<T>(xs: seq<T>, b: seq<T>, c: seq<T>, y: seq<T>)
    requires xs != [] && c == xs[1..] + b && y == [xs[0]] + c
    ensures y == xs + b
  {
    assert xs == [xs[0]] + xs[1..];
  }

  /** A second update of a key overrides the first. */
  lemma {:induction false} UpdateTwice<K, V>(m: map<K, V>, k: K, v: V, w: V)
    ensures m[k := v][k := w] == m[k := w]
  {
  }

  /** Updating a key with its own value changes nothing. */
  lemma {:induction false} UpdateSame<K, V>(m: map<K, V>, k: K)
    requires k in m
    ensures m[k := m[k]] == m
  {
  }

  /** An update of one key leaves every other key alone. */
  lemma {:induction false} UpdateOther<K, V>(m: map<K, V>, k: K, v: V, j: K)
    requires j != k && j in m
    ensures j in m[k := v] && m[k := v][j] == m[j]
  {
  }

  /** Concatenation is associative. */
  lemma {:induction false} AppendAssoc<T>(a: seq<T>, b: seq<T>, c: seq<T>)
    ensures a + (b + c) == (a + b) + c
  {
  }
}
