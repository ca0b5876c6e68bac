/** SHA-256 as FIPS 180-4 defines it: the reference the firmware's streaming code is proved against. */
module Fips180 {
  import opened Bytes
  import opened Primes

  const TWO32: nat := 0x1_0000_0000
  const TWO64: nat := 0x1_0000_0000_0000_0000

  /** A 32-bit word, as the unsigned integer it stands for. */
  type word = n: nat | n < TWO32

  /** Section 4.2.2. */
  const K0: seq<word> := [
    0x428a2f98, 0x71374491, 0xb5c0fbcf, 0xe9b5dba5, 0x3956c25b, 0x59f111f1, 0x923f82a4, 0xab1c5ed5,
    0xd807aa98, 0x12835b01, 0x243185be, 0x550c7dc3, 0x72be5d74, 0x80deb1fe, 0x9bdc06a7, 0xc19bf174
  ]
  const K1: seq<word> := [
    0xe49b69c1, 0xefbe4786, 0x0fc19dc6, 0x240ca1cc, 0x2de92c6f, 0x4a7484aa, 0x5cb0a9dc, 0x76f988da,
    0x983e5152, 0xa831c66d, 0xb00327c8, 0xbf597fc7, 0xc6e00bf3, 0xd5a79147, 0x06ca6351, 0x14292967
  ]
  const K2: seq<word> := [
    0x27b70a85, 0x2e1b2138, 0x4d2c6dfc, 0x53380d13, 0x650a7354, 0x766a0abb, 0x81c2c92e, 0x92722c85,
    0xa2bfe8a1, 0xa81a664b, 0xc24b8b70, 0xc76c51a3, 0xd192e819, 0xd6990624, 0xf40e3585, 0x106aa070
  ]
  const K3: seq<word> := [
    0x19a4c116, 0x1e376c08, 0x2748774c, 0x34b0bcb5, 0x391c0cb3, 0x4ed8aa4a, 0x5b9cca4f, 0x682e6ff3,
    0x748f82ee, 0x78a5636f, 0x84c87814, 0x8cc70208, 0x90befffa, 0xa4506ceb, 0xbef9a3f7, 0xc67178f2
  ]
  const K: seq<word> := K0 + K1 + K2 + K3

  /** Section 5.3.3. */
  const H0: seq<word> := [
    0x6a09e667, 0xbb67ae85, 0x3c6ef372, 0xa54ff53a, 0x510e527f, 0x9b05688c, 0x1f83d9ab, 0x5be0cd19
  ]

  // The operations of section 3.2 on words. `BitOfDigits` says what the first three do bit by bit.

  datatype Gate = AndGate | OrGate | XorGate {
    function Output(a: nat, b: nat): (r: nat)
      ensures r <= 1
    {
      match this
      case AndGate => if a == 1 && b == 1 then 1 else 0
      case OrGate => if a == 1 || b == 1 then 1 else 0
      case XorGate => if a == b then 0 else 1
    }
  }

  /** The number whose every binary digit is the gate's output on the digits of x and y. */
  function Digits(gate: Gate, x: nat, y: nat): nat
    decreases x + y
  {
    if x + y == 0 then 0 else 2 * Digits(gate, x / 2, y / 2) + gate.Output(x % 2, y % 2)
  }

  lemma {:induction false} DigitsBound(gate: Gate, x: nat, y: nat, n: nat)
    requires x < Pow2(n) && y < Pow2(n)
    ensures Digits(gate, x, y) < Pow2(n)
  {
    if n > 0 {
      DigitsBound(gate, x / 2, y / 2, n - 1);
    }
  }

  function Bit(x: nat, i: nat): nat {
    if i == 0 then x % 2 else Bit(x / 2, i - 1)
  }

  lemma {:induction false} BitOfDigits(gate: Gate, x: nat, y: nat, i: nat)
    ensures Bit(Digits(gate, x, y), i) == gate.Output(Bit(x, i), Bit(y, i))
  {
    if i > 0 {
      BitOfDigits(gate, x / 2, y / 2, i - 1);
      if x + y == 0 {
        assert x / 2 == 0 && y / 2 == 0;
      }
    }
  }

  lemma Pow2Word()
    ensures Pow2(32) == TWO32
  {
    assert Pow2(8) == 0x100;
    assert Pow2(16) == 0x1_0000;
    assert Pow2(24) == 0x100_0000;
  }

  function Bitwise(gate: Gate, x: word, y: word): word {
    Pow2Word();
    DigitsBound(gate, x, y, 32);
    Digits(gate, x, y)
  }

  function And(x: word, y: word): word { Bitwise(AndGate, x, y) }
  function Or(x: word, y: word): word { Bitwise(OrGate, x, y) }
  function Xor(x: word, y: word): word { Bitwise(XorGate, x, y) }
  function Not(x: word): word { 0xffff_ffff - x }

  /** SHR^n. */
  function Shr(x: word, n: nat): word {
    if n == 0 then x else Shr(x, n - 1) / 2
  }

  /** One step to the left; the bit that leaves the word is lost. */
  function Double(y: word): word {
    if y < 0x8000_0000 then 2 * y else 2 * y - 0x1_0000_0000
  }

  function Shl(x: word, n: nat): word {
    if n == 0 then x else Double(Shl(x, n - 1))
  }

  /** ROTR^n. */
  function Rotr(x: word, n: nat): word
    requires 0 < n < 32
  {
    Or(Shr(x, n), Shl(x, 32 - n))
  }

  /** Addition modulo 2^32. */
  function Add(x: word, y: word): word {
    if x + y < 0x1_0000_0000 then x + y else x + y - 0x1_0000_0000
  }

  // What shifts, rotations and complements do bit by bit.

  lemma {:induction false} BitOfShr(x: word, n: nat, i: nat)
    ensures Bit(Shr(x, n), i) == Bit(x, i + n)
  {
    if n > 0 {
      BitOfShr(x, n - 1, i + 1);
    }
  }

  lemma {:induction false} BitBelowTop(x: nat, n: nat, i: nat)
    requires i < n && Pow2(n) <= x
    ensures Bit(x - Pow2(n), i) == Bit(x, i)
  {
    assert (x - Pow2(n)) / 2 == x / 2 - Pow2(n - 1);
    if i > 0 {
      BitBelowTop(x / 2, n - 1, i - 1);
    }
  }

  lemma BitOfDouble(y: word, i: nat)
    requires i < 32
    ensures Bit(Double(y), i) == if i == 0 then 0 else Bit(y, i - 1)
  {
    Pow2Word();
    assert Bit(2 * y, i) == if i == 0 then 0 else Bit(y, i - 1);
    if y >= 0x8000_0000 {
      BitBelowTop(2 * y, 32, i);
    }
  }

  lemma {:induction false} BitOfShl(x: word, n: nat, i: nat)
    requires i < 32
    ensures Bit(Shl(x, n), i) == if i < n then 0 else Bit(x, i - n)
  {
    if n > 0 {
      BitOfDouble(Shl(x, n - 1), i);
      if i > 0 {
        BitOfShl(x, n - 1, i - 1);
      }
    }
  }

  lemma {:induction false} HighBitsZero(x: nat, n: nat, i: nat)
    requires x < Pow2(n) && n <= i
    ensures Bit(x, i) == 0
  {
    if i > 0 {
      HighBitsZero(x / 2, if n == 0 then 0 else n - 1, i - 1);
    }
  }

  /** ROTR^n is the circular right shift of 32 bits. */
  lemma BitOfRotr(x: word, n: nat, i: nat)
    requires 0 < n < 32 && i < 32
    ensures Bit(Rotr(x, n), i) == Bit(x, if i + n < 32 then i + n else i + n - 32)
  {
    hide Shr, Shl, Digits;
    BitOfDigits(OrGate, Shr(x, n), Shl(x, 32 - n), i);
    BitOfShr(x, n, i);
    BitOfShl(x, 32 - n, i);
    if i + n < 32 {
      BitIsDigit(x, i + n);
    } else {
      BitIsDigit(x, i + n - 32);
      Pow2Word();
      HighBitsZero(x, 32, i + n);
    }
  }

  lemma {:induction false} BitIsDigit(x: nat, i: nat)
    ensures Bit(x, i) <= 1
  {
    if i > 0 {
      BitIsDigit(x / 2, i - 1);
    }
  }

  // The six functions of section 4.1.2.

  function Ch(x: word, y: word, z: word): word {
    Xor(And(x, y), And(Not(x), z))
  }

  function Maj(x: word, y: word, z: word): word {
    Xor(Xor(And(x, y), And(x, z)), And(y, z))
  }

  function BigSigma0(x: word): word {
    Xor(Xor(Rotr(x, 2), Rotr(x, 13)), Rotr(x, 22))
  }

  function BigSigma1(x: word): word {
    Xor(Xor(Rotr(x, 6), Rotr(x, 11)), Rotr(x, 25))
  }

  function SmallSigma0(x: word): word {
    Xor(Xor(Rotr(x, 7), Rotr(x, 18)), Shr(x, 3))
  }

  function SmallSigma1(x: word): word {
    Xor(Xor(Rotr(x, 17), Rotr(x, 19)), Shr(x, 10))
  }

  // What the six functions do bit by bit.

  lemma {:induction false} BitOfComplement(x: nat, n: nat, i: nat)
    requires x < Pow2(n) && i < n
    ensures Bit(Pow2(n) - 1 - x, i) == 1 - Bit(x, i)
  {
    assert (Pow2(n) - 1 - x) / 2 == Pow2(n - 1) - 1 - x / 2;
    if i > 0 {
      BitOfComplement(x / 2, n - 1, i - 1);
    }
  }

  lemma BitOfNot(x: word, i: nat)
    requires i < 32
    ensures Bit(Not(x), i) == 1 - Bit(x, i)
  {
    Pow2Word();
    BitOfComplement(x, 32, i);
  }

  /** Ch chooses y where x has a one and z where it has a zero. */
  lemma BitOfCh(x: word, y: word, z: word, i: nat)
    requires i < 32
    ensures Bit(Ch(x, y, z), i) == if Bit(x, i) == 1 then Bit(y, i) else Bit(z, i)
  {
    hide Digits;
    BitOfNot(x, i);
    BitOfDigits(AndGate, x, y, i);
    BitOfDigits(AndGate, Not(x), z, i);
    BitOfDigits(XorGate, And(x, y), And(Not(x), z), i);
    BitIsDigit(x, i);
    BitIsDigit(y, i);
    BitIsDigit(z, i);
  }

  /** Maj takes the majority. */
  lemma BitOfMaj(x: word, y: word, z: word, i: nat)
    ensures Bit(Maj(x, y, z), i) == if Bit(x, i) + Bit(y, i) + Bit(z, i) >= 2 then 1 else 0
  {
    hide Digits;
    BitOfDigits(AndGate, x, y, i);
    BitOfDigits(AndGate, x, z, i);
    BitOfDigits(AndGate, y, z, i);
    BitOfDigits(XorGate, And(x, y), And(x, z), i);
    BitOfDigits(XorGate, Xor(And(x, y), And(x, z)), And(y, z), i);
    BitIsDigit(x, i);
    BitIsDigit(y, i);
    BitIsDigit(z, i);
  }

  lemma BitOfThree(x: word, y: word, z: word, i: nat)
    ensures Bit(Xor(Xor(x, y), z), i) == (Bit(x, i) + Bit(y, i) + Bit(z, i)) % 2
  {
    hide Digits;
    BitOfDigits(XorGate, x, y, i);
    BitOfDigits(XorGate, Xor(x, y), z, i);
    BitIsDigit(x, i);
    BitIsDigit(y, i);
    BitIsDigit(z, i);
  }

  /** The position that a rotation by n brings to i. */
  function Around(i: nat, n: nat): nat {
    if i + n < 32 then i + n else i + n - 32
  }

  /** Every bit of a sigma is the parity of three bits of the argument. */
  lemma BitOfSigmas(x: word, i: nat)
    requires i < 32
    ensures Bit(BigSigma0(x), i) == (Bit(x, Around(i, 2)) + Bit(x, Around(i, 13)) + Bit(x, Around(i, 22))) % 2
    ensures Bit(BigSigma1(x), i) == (Bit(x, Around(i, 6)) + Bit(x, Around(i, 11)) + Bit(x, Around(i, 25))) % 2
    ensures Bit(SmallSigma0(x), i)
            == (Bit(x, Around(i, 7)) + Bit(x, Around(i, 18)) + (if i + 3 < 32 then Bit(x, i + 3) else 0)) % 2
    ensures Bit(SmallSigma1(x), i)
            == (Bit(x, Around(i, 17)) + Bit(x, Around(i, 19)) + (if i + 10 < 32 then Bit(x, i + 10) else 0)) % 2
  {
    hide Rotr, Xor, Shr, Bit;
    SigmaBits(x, 2, 13, 22, i);
    SigmaBits(x, 6, 11, 25, i);
    ShiftedSigmaBits(x, 7, 18, 3, i);
    ShiftedSigmaBits(x, 17, 19, 10, i);
  }

  lemma SigmaBits(x: word, a: nat, b: nat, c: nat, i: nat)
    requires 0 < a < 32 && 0 < b < 32 && 0 < c < 32 && i < 32
    ensures Bit(Xor(Xor(Rotr(x, a), Rotr(x, b)), Rotr(x, c)), i)
            == (Bit(x, Around(i, a)) + Bit(x, Around(i, b)) + Bit(x, Around(i, c))) % 2
  {
    hide Rotr, Xor, Bit;
    BitOfRotr(x, a, i);
    BitOfRotr(x, b, i);
    BitOfRotr(x, c, i);
    BitOfThree(Rotr(x, a), Rotr(x, b), Rotr(x, c), i);
  }

  lemma ShiftedSigmaBits(x: word, a: nat, b: nat, n: nat, i: nat)
    requires 0 < a < 32 && 0 < b < 32 && i < 32
    ensures Bit(Xor(Xor(Rotr(x, a), Rotr(x, b)), Shr(x, n)), i)
            == (Bit(x, Around(i, a)) + Bit(x, Around(i, b)) + (if i + n < 32 then Bit(x, i + n) else 0)) % 2
  {
    hide Rotr, Xor, Shr, Bit, Pow2;
    BitOfRotr(x, a, i);
    BitOfRotr(x, b, i);
    BitOfShr(x, n, i);
    BitOfThree(Rotr(x, a), Rotr(x, b), Shr(x, n), i);
    Pow2Word();
    if i + n >= 32 {
      HighBitsZero(x, 32, i + n);
    }
  }

  /** Four octets as one word, most significant first (section 3.1). */
  function Word(b: bytes): word
    requires |b| == 4
  {
    BigEndianValueRoundTrip(b);
    Pow256Values();
    BigEndianValue(b)
  }

  /** Step 1 of section 6.2.2: the first t words of the message schedule. */
  function Schedule(block: bytes, t: nat): (w: seq<word>)
    requires |block| == 64
    ensures |w| == t
  {
    if t == 0 then []
    else
      var w, i := Schedule(block, t - 1), t - 1;
      w + [if i < 16 then Word(block[4 * i..4 * i + 4])
           else Add(Add(Add(SmallSigma1(w[i - 2]), w[i - 7]), SmallSigma0(w[i - 15])), w[i - 16])]
  }

  datatype Vars = Vars(a: word, b: word, c: word, d: word, e: word, f: word, g: word, h: word)

  /** Step 3 of section 6.2.2, one value of t. */
  function Round(v: Vars, k: word, w: word): Vars {
    var t1 := Add(Add(Add(Add(v.h, BigSigma1(v.e)), Ch(v.e, v.f, v.g)), k), w);
    var t2 := Add(BigSigma0(v.a), Maj(v.a, v.b, v.c));
    Vars(Add(t1, t2), v.a, v.b, v.c, Add(v.d, t1), v.e, v.f, v.g)
  }

  function Rounds(v: Vars, w: seq<word>, t: nat): Vars
    requires |w| == 64 && t <= 64
  {
    if t == 0 then v else Round(Rounds(v, w, t - 1), K[t - 1], w[t - 1])
  }

  /** Step 4 of section 6.2.2. */
  function AddVars(h: seq<word>, v: Vars): (r: seq<word>)
    requires |h| == 8
    ensures |r| == 8
  {
    [Add(h[0], v.a), Add(h[1], v.b), Add(h[2], v.c), Add(h[3], v.d),
     Add(h[4], v.e), Add(h[5], v.f), Add(h[6], v.g), Add(h[7], v.h)]
  }

  /** A 512-bit message block. */
  type block = b: bytes | |b| == 64 witness Zeros(64)

  /** Section 6.2.2: one intermediate hash value from the previous one. */
  function Compress(h: seq<word>, b: block): (r: seq<word>)
    requires |h| == 8
    ensures |r| == 8
  {
    AddVars(h, Rounds(Vars(h[0], h[1], h[2], h[3], h[4], h[5], h[6], h[7]), Schedule(b, 64), 64))
  }

  /** The intermediate hash value after the given blocks. */
  function Chain(blocks: seq<block>): (h: seq<word>)
    ensures |h| == 8
  {
    if blocks == [] then H0 else Compress(Chain(blocks[..|blocks| - 1]), blocks[|blocks| - 1])
  }

  lemma ChainAppend(blocks: seq<block>, b: block)
    ensures Chain(blocks + [b]) == Compress(Chain(blocks), b)
  {
    hide Compress;
    assert (blocks + [b])[..|blocks|] == blocks;
  }

  /** Section 5.2.1: the 512-bit blocks of a padded message. */
  function Parse(m: bytes): seq<block> {
    if |m| < 64 then [] else [m[..64]] + Parse(m[64..])
  }

  function Join(blocks: seq<block>): bytes {
    if blocks == [] then [] else blocks[0] + Join(blocks[1..])
  }

  lemma {:induction false} ParseJoin(blocks: seq<block>, rest: bytes)
    requires |rest| < 64
    ensures Parse(Join(blocks) + rest) == blocks
  {
    if blocks != [] {
      var m := Join(blocks) + rest;
      assert m == blocks[0] + (Join(blocks[1..]) + rest);
      assert m[64..] == Join(blocks[1..]) + rest;
      ParseJoin(blocks[1..], rest);
    } else {
      assert Join(blocks) + rest == rest;
    }
  }

  lemma {:induction false} JoinAppend(blocks: seq<block>, b: block)
    ensures Join(blocks + [b]) == Join(blocks) + b
  {
    if blocks != [] {
      JoinAppend(blocks[1..], b);
      assert (blocks + [b])[1..] == blocks[1..] + [b];
    } else {
      assert blocks + [b] == [b];
      assert Join([b]) == b + Join([]);
    }
  }

  lemma {:induction false} JoinLength(blocks: seq<block>)
    ensures |Join(blocks)| == 64 * |blocks|
  {
    if blocks != [] {
      JoinLength(blocks[1..]);
    }
  }

  /** Zero octets between the mark and the length (section 5.1.1): the least k with n + 1 + k = 56 modulo 64. */
  function PadZeros(n: nat): nat {
    (119 - n % 64) % 64
  }

  /** Section 5.1.1; the length field is taken modulo 2^64, which is no restriction for the messages it allows. */
  function Pad(m: bytes): (p: bytes)
    ensures |p| == |m| + 1 + PadZeros(|m|) + 8
  {
    m + [0x80] + Zeros(PadZeros(|m|)) + BigEndian(8 * |m| % TWO64, 8)
  }

  /** The octets of a sequence of words. */
  function WordOctets(h: seq<word>): (d: bytes)
    ensures |d| == 4 * |h|
  {
    if h == [] then [] else BigEndian(h[0], 4) + WordOctets(h[1..])
  }

  lemma {:induction false} WordOctetsAt(h: seq<word>, k: nat, i: nat)
    requires k < |h| && i < 4
    ensures WordOctets(h)[4 * k + i] == BigEndian(h[k], 4)[i]
  {
    if k > 0 {
      WordOctetsAt(h[1..], k - 1, i);
    }
  }

  /** The message digest: section 6.2. */
  function Sha256(m: bytes): (d: bytes)
    ensures |d| == 32
  {
    WordOctets(Chain(Parse(Pad(m))))
  }

  /** k of section 5.1.1 solves its congruence and makes whole blocks. */
  lemma PadLength(n: nat)
    ensures (n + 1 + PadZeros(n)) % 64 == 56
    ensures (n + 1 + PadZeros(n) + 8) % 64 == 0
  {}

  /** ... and is the least such k. */
  lemma PadLeast(n: nat, k: nat)
    requires (n + 1 + k) % 64 == 56
    ensures PadZeros(n) <= k
  {}

  /** The message and its length are read back off the padded message. */
  lemma PadFields(m: bytes)
    requires |m| < 0x2000_0000_0000_0000
    ensures Pad(m)[..|m|] == m
    ensures BigEndianValue(Pad(m)[|Pad(m)| - 8..]) == 8 * |m|
  {
    var length := BigEndian(8 * |m|, 8);
    assert 8 * |m| % TWO64 == 8 * |m|;
    assert Pad(m)[|Pad(m)| - 8..] == length;
    Pow256Values();
    BigEndianRoundTrip(8 * |m|, 8);
  }

  /** Padding loses nothing: for the lengths FIPS 180-4 allows, the padded message determines the message. */
  lemma PadInjective(a: bytes, b: bytes)
    requires |a| < 0x2000_0000_0000_0000 && |b| < 0x2000_0000_0000_0000
    requires Pad(a) == Pad(b)
    ensures a == b
  {
    PadFields(a);
    PadFields(b);
  }

  /** whole.bits is the cube root of p, rounded down to 32 binary places (section 4.2.2). */
  ghost predicate CubeRootBits(bits: nat, whole: nat, p: nat) {
    var n := whole * 0x1_0000_0000 + bits;
    n * n * n <= p * 0x1_0000_0000_0000_0000_0000_0000 < (n + 1) * (n + 1) * (n + 1)
  }

  /** The same for square roots (section 5.3.3). */
  ghost predicate SquareRootBits(bits: nat, whole: nat, p: nat) {
    var n := whole * 0x1_0000_0000 + bits;
    n * n <= p * 0x1_0000_0000_0000_0000 < (n + 1) * (n + 1)
  }

  /** The whole part of the cube root, below 343. */
  function WholeRoot(p: nat): nat {
    if p < 8 then 1 else if p < 27 then 2 else if p < 64 then 3 else if p < 125 then 4 else if p < 216 then 5 else 6
  }

  /** An entry is right for its prime. */
  ghost predicate RightConstant(i: nat)
    requires i < 64
  {
    CubeRootBits(K[i], WholeRoot(PRIMES[i]), PRIMES[i])
  }

  lemma CubeRoots0()
    ensures CubeRootBits(K[0], 1, 2) && CubeRootBits(K[1], 1, 3)
    ensures CubeRootBits(K[2], 1, 5) && CubeRootBits(K[3], 1, 7)
    ensures CubeRootBits(K[4], 2, 11) && CubeRootBits(K[5], 2, 13)
    ensures CubeRootBits(K[6], 2, 17) && CubeRootBits(K[7], 2, 19)
  {}

  lemma RightConstants0()
    ensures forall i :: 0 <= i < 8 ==> RightConstant(i)
  {
    hide CubeRootBits;
    CubeRoots0();
  }

  lemma CubeRoots8()
    ensures CubeRootBits(K[8], 2, 23) && CubeRootBits(K[9], 3, 29)
    ensures CubeRootBits(K[10], 3, 31) && CubeRootBits(K[11], 3, 37)
    ensures CubeRootBits(K[12], 3, 41) && CubeRootBits(K[13], 3, 43)
    ensures CubeRootBits(K[14], 3, 47) && CubeRootBits(K[15], 3, 53)
  {}

  lemma RightConstants8()
    ensures forall i :: 8 <= i < 16 ==> RightConstant(i)
  {
    hide CubeRootBits;
    CubeRoots8();
  }

  lemma CubeRoots16()
    ensures CubeRootBits(K[16], 3, 59) && CubeRootBits(K[17], 3, 61)
    ensures CubeRootBits(K[18], 4, 67) && CubeRootBits(K[19], 4, 71)
    ensures CubeRootBits(K[20], 4, 73) && CubeRootBits(K[21], 4, 79)
    ensures CubeRootBits(K[22], 4, 83) && CubeRootBits(K[23], 4, 89)
  {}

  lemma RightConstants16()
    ensures forall i :: 16 <= i < 24 ==> RightConstant(i)
  {
    hide CubeRootBits;
    CubeRoots16();
  }

  lemma CubeRoots24()
    ensures CubeRootBits(K[24], 4, 97) && CubeRootBits(K[25], 4, 101)
    ensures CubeRootBits(K[26], 4, 103) && CubeRootBits(K[27], 4, 107)
    ensures CubeRootBits(K[28], 4, 109) && CubeRootBits(K[29], 4, 113)
    ensures CubeRootBits(K[30], 5, 127) && CubeRootBits(K[31], 5, 131)
  {}

  lemma RightConstants24()
    ensures forall i :: 24 <= i < 32 ==> RightConstant(i)
  {
    hide CubeRootBits;
    CubeRoots24();
  }

  lemma CubeRoots32()
    ensures CubeRootBits(K[32], 5, 137) && CubeRootBits(K[33], 5, 139)
    ensures CubeRootBits(K[34], 5, 149) && CubeRootBits(K[35], 5, 151)
    ensures CubeRootBits(K[36], 5, 157) && CubeRootBits(K[37], 5, 163)
    ensures CubeRootBits(K[38], 5, 167) && CubeRootBits(K[39], 5, 173)
  {}

  lemma RightConstants32()
    ensures forall i :: 32 <= i < 40 ==> RightConstant(i)
  {
    hide CubeRootBits;
    CubeRoots32();
  }

  lemma CubeRoots40()
    ensures CubeRootBits(K[40], 5, 179) && CubeRootBits(K[41], 5, 181)
    ensures CubeRootBits(K[42], 5, 191) && CubeRootBits(K[43], 5, 193)
    ensures CubeRootBits(K[44], 5, 197) && CubeRootBits(K[45], 5, 199)
    ensures CubeRootBits(K[46], 5, 211) && CubeRootBits(K[47], 6, 223)
  {}

  lemma RightConstants40()
    ensures forall i :: 40 <= i < 48 ==> RightConstant(i)
  {
    hide CubeRootBits;
    CubeRoots40();
  }

  lemma CubeRoots48()
    ensures CubeRootBits(K[48], 6, 227) && CubeRootBits(K[49], 6, 229)
    ensures CubeRootBits(K[50], 6, 233) && CubeRootBits(K[51], 6, 239)
    ensures CubeRootBits(K[52], 6, 241) && CubeRootBits(K[53], 6, 251)
    ensures CubeRootBits(K[54], 6, 257) && CubeRootBits(K[55], 6, 263)
  {}

  lemma RightConstants48()
    ensures forall i :: 48 <= i < 56 ==> RightConstant(i)
  {
    hide CubeRootBits;
    CubeRoots48();
  }

  lemma CubeRoots56()
    ensures CubeRootBits(K[56], 6, 269) && CubeRootBits(K[57], 6, 271)
    ensures CubeRootBits(K[58], 6, 277) && CubeRootBits(K[59], 6, 281)
    ensures CubeRootBits(K[60], 6, 283) && CubeRootBits(K[61], 6, 293)
    ensures CubeRootBits(K[62], 6, 307) && CubeRootBits(K[63], 6, 311)
  {}

  lemma RightConstants56()
    ensures forall i :: 56 <= i < 64 ==> RightConstant(i)
  {
    hide CubeRootBits;
    CubeRoots56();
  }

  /** The table is the one section 4.2.2 defines from the first sixty-four primes (`Primes.FirstPrimes`). */
  lemma RoundConstants()
    ensures forall i :: 0 <= i < 64 ==> RightConstant(i)
  {
    hide RightConstant;
    RightConstants0();
    RightConstants8();
    RightConstants16();
    RightConstants24();
    RightConstants32();
    RightConstants40();
    RightConstants48();
    RightConstants56();
  }

  /** The initial hash value comes from the square roots of the first eight primes (section 5.3.3). */
  lemma InitialConstants()
    ensures SquareRootBits(H0[0], 1, 2) && SquareRootBits(H0[1], 1, 3)
    ensures SquareRootBits(H0[2], 2, 5) && SquareRootBits(H0[3], 2, 7)
    ensures SquareRootBits(H0[4], 3, 11) && SquareRootBits(H0[5], 3, 13)
    ensures SquareRootBits(H0[6], 4, 17) && SquareRootBits(H0[7], 4, 19)
  {}
}
