/** Octet strings, big-endian integers and Python slices: the vocabulary every component shares. */
module Bytes {

  /** An octet, as the unsigned integer it stands for. */
  type byte = n: nat | n < 0x100

  type bytes = seq<byte>

  datatype Option<+T> = None | Some(value: T)

  /** The errors the modelled code raises. */
  datatype Error =
    | AssertionError | TypeError | IndexError | KeyError | ValueError | OverflowError | StructError | ConnectionError

  datatype Result<+T> = Ok(value: T) | Err(error: Error) {
    predicate IsFailure() {
      Err?
    }

    function PropagateFailure<U>(): (r: Result<U>)
      requires Err?
    {
      Err(error)
    }

    function Extract(): T
      requires Ok?
    {
      value
    }
  }

  /** The low octet of n, as a C cast to `uint8_t` or a Python `n & 0xff` keeps it. */
  function LowByte(n: int): byte {
    n % 256
  }

  /** A source literal as its octets. */
  function Ascii(s: string): (b: bytes)
    ensures |b| == |s|
  {
    seq(|s|, i requires 0 <= i < |s| => LowByte(s[i] as int))
  }

  function Zeros(n: nat): (z: bytes)
    ensures |z| == n && forall i :: 0 <= i < n ==> z[i] == 0
  {
    seq(n, _ => 0)
  }

  function Pow256(k: nat): (p: nat)
    ensures p > 0
  {
    if k == 0 then 1 else 256 * Pow256(k - 1)
  }

  lemma Pow256Values()
    ensures Pow256(2) == 0x1_0000 && Pow256(4) == 0x1_0000_0000 && Pow256(8) == 0x1_0000_0000_0000_0000
  {
    assert Pow256(4) == 0x1_0000 * Pow256(2);
    assert Pow256(6) == 0x1_0000 * Pow256(4);
    assert Pow256(8) == 0x1_0000 * Pow256(6);
  }

  function Pow2(n: nat): (p: nat)
    ensures p > 0
  {
    if n == 0 then 1 else 2 * Pow2(n - 1)
  }

  /** The k octets of n modulo 256^k, most significant first. */
  function BigEndian(n: nat, k: nat): (b: bytes)
    ensures |b| == k
  {
    if k == 0 then [] else BigEndian(n / 256, k - 1) + [LowByte(n)]
  }

  /** The unsigned integer whose big-endian octets are b (Python `int.from_bytes(b, "big")`). */
  function BigEndianValue(b: bytes): nat {
    if b == [] then 0 else 256 * BigEndianValue(b[..|b| - 1]) + b[|b| - 1]
  }

  lemma {:induction false} BigEndianRoundTrip(n: nat, k: nat)
    requires n < Pow256(k)
    ensures BigEndianValue(BigEndian(n, k)) == n
  {
    if k > 0 {
      BigEndianRoundTrip(n / 256, k - 1);
      var b := BigEndian(n, k);
      assert b[..k - 1] == BigEndian(n / 256, k - 1);
    }
  }

  lemma {:induction false} BigEndianValueRoundTrip(b: bytes)
    ensures BigEndianValue(b) < Pow256(|b|)
    ensures BigEndian(BigEndianValue(b), |b|) == b
  {
    if b != [] {
      var front, last := b[..|b| - 1], b[|b| - 1];
      BigEndianValueRoundTrip(front);
      var v := BigEndianValue(b);
      assert v / 256 == BigEndianValue(front) && v % 256 == last;
      assert b == front + [last];
    }
  }

  /** Octet i of a 32-bit or 64-bit number is what remains after shifting the ones below it out. */
  lemma BigEndian32(n: nat)
    ensures BigEndian(n, 4) == [LowByte(n / 0x100_0000), LowByte(n / 0x1_0000), LowByte(n / 0x100), LowByte(n)]
  {
    assert n / 0x100 / 0x100 == n / 0x1_0000 && n / 0x1_0000 / 0x100 == n / 0x100_0000;
    var n1, n2, n3 := n / 0x100, n / 0x1_0000, n / 0x100_0000;
    assert BigEndian(n3, 1) == [LowByte(n3)] by { assert BigEndian(n3 / 256, 0) == []; }
    assert BigEndian(n2, 2) == BigEndian(n3, 1) + [LowByte(n2)];
    assert BigEndian(n1, 3) == BigEndian(n2, 2) + [LowByte(n1)];
    assert BigEndian(n, 4) == BigEndian(n1, 3) + [LowByte(n)];
  }

  lemma BigEndian64(n: nat)
    ensures BigEndian(n, 8) == [
      LowByte(n / 0x100_0000_0000_0000), LowByte(n / 0x1_0000_0000_0000),
      LowByte(n / 0x100_0000_0000), LowByte(n / 0x1_0000_0000),
      LowByte(n / 0x100_0000), LowByte(n / 0x1_0000), LowByte(n / 0x100), LowByte(n)]
  {
    var n1, n2, n3, n4 := n / 0x100, n / 0x1_0000, n / 0x100_0000, n / 0x1_0000_0000;
    assert n1 / 0x100 == n2 && n2 / 0x100 == n3 && n3 / 0x100 == n4;
    assert BigEndian(n3, 5) == BigEndian(n4, 4) + [LowByte(n3)];
    assert BigEndian(n2, 6) == BigEndian(n3, 5) + [LowByte(n2)];
    assert BigEndian(n1, 7) == BigEndian(n2, 6) + [LowByte(n1)];
    assert BigEndian(n, 8) == BigEndian(n1, 7) + [LowByte(n)];
    BigEndian32(n4);
    assert n4 / 0x100 == n / 0x100_0000_0000 && n4 / 0x1_0000 == n / 0x1_0000_0000_0000;
    assert n4 / 0x100_0000 == n / 0x100_0000_0000_0000;
  }

  /** The value of four octets, as the sum of their shifted values. */
  lemma BigEndianValue32(b: bytes)
    requires |b| == 4
    ensures BigEndianValue(b)
            == 0x100_0000 * (b[0] as int) + 0x1_0000 * (b[1] as int) + 0x100 * (b[2] as int) + b[3]
  {
    assert b[..3][..2] == b[..2] && b[..2][..1] == b[..1];
    assert BigEndianValue(b[..1]) == b[0];
    assert BigEndianValue(b[..2]) == 256 * BigEndianValue(b[..1]) + b[1];
    assert BigEndianValue(b[..3]) == 256 * BigEndianValue(b[..2]) + b[2];
  }

  /** Fits a 16-bit length field. */
  predicate Fits(b: bytes) {
    |b| <= 0xffff
  }

  /** Python's `s[lo:hi]` for non-negative bounds: both bounds are clamped to the length. */
  function Slice<T>(s: seq<T>, lo: nat, hi: nat): (r: seq<T>)
    ensures lo <= hi <= |s| ==> r == s[lo..hi]
  {
    var h := if hi <= |s| then hi else |s|;
    if lo <= h then s[lo..h] else []
  }

  /** A slice that lies inside the middle of a concatenation. */
  lemma SliceMiddle<T>(pre: seq<T>, mid: seq<T>, post: seq<T>)
    ensures Slice(pre + mid + post, |pre|, |pre| + |mid|) == mid
  {
    var s := pre + mid + post;
    assert s[|pre|..|pre| + |mid|] == mid;
  }
}
