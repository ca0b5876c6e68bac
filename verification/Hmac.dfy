/** HMAC-SHA-256 as section 2 of RFC 2104 defines it, with B = 64 and L = 32. */
module Rfc2104 {
  import opened Bytes
  import opened Fips180

  function XorOctet(x: byte, y: byte): byte {
    assert Pow2(8) == 0x100;
    DigitsBound(XorGate, x, y, 8);
    Digits(XorGate, x, y)
  }

  function XorAll(k: bytes, pad: byte): (r: bytes)
    ensures |r| == |k|
  {
    seq(|k|, i requires 0 <= i < |k| => XorOctet(pad, k[i]))
  }

  /** The key as one 64-octet block: hashed first when it is longer, then filled with zeros. */
  function BlockKey(key: bytes): (k: bytes)
    ensures |k| == 64
  {
    var k := if |key| > 64 then Sha256(key) else key;
    k + Zeros(64 - |k|)
  }

  /** What the inner hash absorbs. */
  function Inner(key: bytes, text: bytes): bytes {
    XorAll(BlockKey(key), 0x36) + text
  }

  /** What the outer hash absorbs. */
  function Outer(key: bytes, text: bytes): bytes {
    XorAll(BlockKey(key), 0x5c) + Sha256(Inner(key, text))
  }

  function Hmac(key: bytes, text: bytes): (tag: bytes)
    ensures |tag| == 32
  {
    Sha256(Outer(key, text))
  }

  /** Zeros appended to a short key do not change the tag. */
  lemma ZeroPaddedKey(key: bytes, n: nat, text: bytes)
    requires |key| + n <= 64
    ensures Hmac(key + Zeros(n), text) == Hmac(key, text)
  {
    hide Sha256;
    assert BlockKey(key + Zeros(n)) == BlockKey(key);
  }

  /** A key longer than a block acts as its digest does. */
  lemma LongKey(key: bytes, text: bytes)
    requires |key| > 64
    ensures Hmac(key, text) == Hmac(Sha256(key), text)
  {
    hide Sha256;
    assert BlockKey(key) == BlockKey(Sha256(key));
  }

  /**
    A tag binds the key and the text down to SHA-256: equal tags come from one block key and one text, or SHA-256
    collides on the outer inputs, or on the inner ones.
   */
  lemma TagBinds(key: bytes, text: bytes, key': bytes, text': bytes)
    requires Hmac(key, text) == Hmac(key', text')
    ensures Sha256(Outer(key, text)) == Sha256(Outer(key', text'))
    ensures Outer(key, text) == Outer(key', text') ==> Sha256(Inner(key, text)) == Sha256(Inner(key', text'))
    ensures Outer(key, text) == Outer(key', text') && Inner(key, text) == Inner(key', text') ==>
      BlockKey(key) == BlockKey(key') && text == text'
  {
    hide Sha256, XorAll, BlockKey;
    var pad, pad' := XorAll(BlockKey(key), 0x5c), XorAll(BlockKey(key'), 0x5c);
    assert Outer(key, text)[..64] == pad && Outer(key', text')[..64] == pad';
    assert Outer(key, text)[64..] == Sha256(Inner(key, text));
    assert Outer(key', text')[64..] == Sha256(Inner(key', text'));
    assert Inner(key, text)[64..] == text && Inner(key', text')[64..] == text';
    if pad == pad' {
      XorAllInjective(BlockKey(key), BlockKey(key'), 0x5c);
    }
  }

  lemma XorAllInjective(k: bytes, k': bytes, pad: byte)
    requires |k| == |k'| && XorAll(k, pad) == XorAll(k', pad)
    ensures k == k'
  {
    hide Digits;
    forall i | 0 <= i < |k|
      ensures k[i] == k'[i]
    {
      assert XorAll(k, pad)[i] == XorAll(k', pad)[i];
      XorCancels(pad, k[i], k'[i]);
    }
  }

  lemma {:induction false} XorCancels(p: nat, x: nat, y: nat)
    requires Digits(XorGate, p, x) == Digits(XorGate, p, y)
    ensures x == y
    decreases p + x + y
  {
    if p + x + y > 0 {
      assert Digits(XorGate, p, x) == 2 * Digits(XorGate, p / 2, x / 2) + XorGate.Output(p % 2, x % 2);
      assert Digits(XorGate, p, y) == 2 * Digits(XorGate, p / 2, y / 2) + XorGate.Output(p % 2, y % 2);
      XorCancels(p / 2, x / 2, y / 2);
    }
  }

  /** Keys of one length within a block are not confused: trailing zeros are all that a block key forgets of them. */
  lemma BlockKeyInjective(key: bytes, key': bytes)
    requires |key| == |key'| <= 64 && BlockKey(key) == BlockKey(key')
    ensures key == key'
  {
    assert BlockKey(key)[..|key|] == key && BlockKey(key')[..|key'|] == key';
  }

  lemma {:induction false} XorZero(x: byte)
    ensures XorOctet(x, 0) == x
  {
    DigitsZero(x);
  }

  lemma {:induction false} DigitsZero(x: nat)
    ensures Digits(XorGate, x, 0) == x
  {
    if x > 0 {
      DigitsZero(x / 2);
    }
  }
}

/** HKDF with HMAC-SHA-256 as section 2 of RFC 5869 defines it. */
module Rfc5869 {
  import opened Bytes
  import opened Rfc2104

  const MAX_OUTPUT: nat := 255 * 32

  /** Section 2.2; an absent salt is a string of 32 zeros. */
  function Extract(salt: Option<bytes>, ikm: bytes): (prk: bytes) {
    Hmac(if salt.Some? then salt.value else Zeros(32), ikm)
  }

  /** T(i) of section 2.3. The counter octet exists up to i = 255; past that it is taken modulo 256. */
  function T(prk: bytes, info: bytes, i: nat): (t: bytes)
    ensures |t| == if i == 0 then 0 else 32
  {
    if i == 0 then [] else Hmac(prk, T(prk, info, i - 1) + info + [LowByte(i)])
  }

  /** T(1) | T(2) | ... | T(n) */
  function Ts(prk: bytes, info: bytes, n: nat): (t: bytes)
    ensures |t| == 32 * n
  {
    if n == 0 then [] else Ts(prk, info, n - 1) + T(prk, info, n)
  }

  /** ceil(length / 32) */
  function Rounds(length: nat): (n: nat)
    ensures 32 * n >= length && (length > 0 ==> 32 * (n - 1) < length)
  {
    (length + 31) / 32
  }

  /** The first `length` octets of T; section 2.3 asks for length <= MAX_OUTPUT. */
  function Expand(prk: bytes, info: bytes, length: nat): (okm: bytes)
    ensures |okm| == length
  {
    Ts(prk, info, Rounds(length))[..length]
  }

  /** A shorter output is a prefix of a longer one. */
  lemma {:induction false} TsPrefix(prk: bytes, info: bytes, m: nat, n: nat)
    requires m <= n
    ensures Ts(prk, info, n)[..32 * m] == Ts(prk, info, m)
  {
    hide T;
    if m < n {
      TsPrefix(prk, info, m, n - 1);
    }
  }

  lemma ExpandPrefix(prk: bytes, info: bytes, a: nat, b: nat)
    requires a <= b
    ensures Expand(prk, info, b)[..a] == Expand(prk, info, a)
  {
    hide T, Ts;
    TsPrefix(prk, info, Rounds(a), Rounds(b));
    var long := Ts(prk, info, Rounds(b));
    assert Expand(prk, info, a) == long[..32 * Rounds(a)][..a] == long[..a];
  }

  /** One block, as the concurrency benchmark writes it in line. */
  lemma OneBlock(prk: bytes, info: bytes)
    ensures Expand(prk, info, 32) == Hmac(prk, info + [0x01])
  {
    hide Hmac;
    assert T(prk, info, 0) + info + [LowByte(1)] == info + [0x01];
    assert Ts(prk, info, 0) + T(prk, info, 1) == T(prk, info, 1);
    assert Ts(prk, info, 1)[..32] == Ts(prk, info, 1);
  }
}

/** HMAC and HKDF of the firmware (`m4/firmware/src/sha256.c`). */
module FirmwareKdf {
  import opened Bytes
  import opened Fips180
  import opened Rfc2104
  import opened Sha256
  import Rfc5869

  /** init, two updates, final */
  method HashTwo(c: Context, first: bytes, second: bytes, hash: array<byte>)
    requires c.Allocated() && hash.Length == 32 && hash != c.data
    modifies c, c.state, c.data, hash
    ensures c.Allocated() && hash[..] == Fips180.Sha256(first + second)
  {
    hide Fips180.Sha256, Chain;
    c.Init();
    c.Update(first);
    c.Update(second);
    assert [] + first + second == first + second;
    c.Final(hash);
  }

  /** `hmac_sha256` */
  method HmacSha256(key: bytes, msg: bytes, out: array<byte>)
    requires out.Length == 32
    modifies out
    ensures out[..] == Hmac(key, msg)
  {
    hide Fips180.Sha256, Hmac, XorOctet, XorAll;
    var ipad := new byte[64](_ => 0x36);
    var opad := new byte[64](_ => 0x5c);
    var inner := new byte[32];
    var c := new Context();
    if |key| > 64 {
      var kh := new byte[32];
      var kc := new Context();
      HashTwo(kc, key, [], kh);
      assert key + [] == key;
      XorInto(ipad, kh[..], 0x36);
      XorInto(opad, kh[..], 0x5c);
    } else {
      XorInto(ipad, key, 0x36);
      XorInto(opad, key, 0x5c);
    }
    assert ipad[..] == XorAll(BlockKey(key), 0x36) && opad[..] == XorAll(BlockKey(key), 0x5c);
    hide BlockKey;
    HashTwo(c, ipad[..], msg, inner);
    HashTwo(c, opad[..], inner[..], out);
    HmacUnfold(key, msg);
  }

  lemma HmacUnfold(key: bytes, msg: bytes)
    ensures Hmac(key, msg)
            == Fips180.Sha256(XorAll(BlockKey(key), 0x5c) + Fips180.Sha256(XorAll(BlockKey(key), 0x36) + msg))
  {
    hide Fips180.Sha256;
  }

  /** `for (i = 0; i < n; i++) pad[i] ^= key[i];` on a freshly set pad */
  method XorInto(pad: array<byte>, key: bytes, value: byte)
    requires pad.Length == 64 && |key| <= 64
    requires forall i :: 0 <= i < 64 ==> pad[i] == value
    modifies pad
    ensures pad[..] == XorAll(key + Zeros(64 - |key|), value)
  {
    hide XorOctet;
    for i := 0 to |key|
      invariant forall j :: 0 <= j < i ==> pad[j] == XorOctet(value, key[j])
      invariant forall j :: i <= j < 64 ==> pad[j] == value
    {
      pad[i] := XorOctet(pad[i], key[i]);
    }
    XorZero(value);
  }

  /** `hkdf_sha256`. The requires clause is what keeps the writes to `block` inside its 65 octets. */
  method HkdfSha256(ikm: bytes, salt: bytes, info: bytes, out: array<byte>)
    requires out.Length > 0 ==> |info| <= 64
    requires out.Length > 32 ==> |info| <= 32
    modifies out
    ensures out[..] == Rfc5869.Expand(Hmac(salt, ikm), info, out.Length)
  {
    hide Hmac, LowByte;
    var prk, t, block := new byte[32], new byte[32], new byte[65];
    var pos, tlen, ctr: byte := 0, 0, 1;
    HmacSha256(salt, ikm, prk);
    ghost var n, key := 0, prk[..];
    FirstCounter();
    while pos < out.Length
      invariant pos == 32 * n < out.Length + 32 && tlen == (if n == 0 then 0 else 32)
      invariant ctr == LowByte(n + 1)
      invariant prk[..] == key
      invariant t[..tlen] == Rfc5869.T(key, info, n)
      invariant out[..Capped(pos, out.Length)] == Rfc5869.Ts(key, info, n)[..Capped(pos, out.Length)]
    {
      NextBlock(prk[..], block, t, tlen, info, ctr);
      tlen := 32;
      var count := if out.Length - pos < 32 then out.Length - pos else 32;
      CopyInto(out, pos, t[..count]);
      pos := pos + 32;
      NextCounter(n + 1);
      ctr := LowByte(ctr + 1);
      n := n + 1;
      assert t[..tlen] == t[..];
    }
  }

  function Capped(n: nat, limit: nat): nat {
    if n <= limit then n else limit
  }

  lemma FirstCounter()
    ensures LowByte(1) == 1
  {}

  lemma NextCounter(n: nat)
    ensures LowByte(LowByte(n) + 1) == LowByte(n + 1)
  {}

  /** The first half of the loop of `hkdf_sha256`: t becomes the next block of the output. */
  method NextBlock(prk: bytes, block: array<byte>, t: array<byte>, tlen: nat, info: bytes, ctr: byte)
    requires block.Length == 65 && t.Length == 32 && block != t
    requires tlen <= 32 && tlen + |info| < 65
    modifies block, t
    ensures t[..] == Hmac(prk, old(t[..tlen]) + info + [ctr])
  {
    hide Hmac;
    CopyInto(block, 0, t[..tlen]);
    CopyInto(block, tlen, info);
    block[tlen + |info|] := ctr;
    assert block[..tlen + |info| + 1] == old(t[..tlen]) + info + [ctr];
    HmacSha256(prk, block[..tlen + |info| + 1], t);
  }

  /** `memcpy(dst + at, src, |src|)` */
  method CopyInto(dst: array<byte>, at: nat, src: bytes)
    requires at + |src| <= dst.Length
    modifies dst
    ensures dst[..] == old(dst[..at]) + src + old(dst[at + |src|..])
  {
    forall i | 0 <= i < |src| {
      dst[at + i] := src[i];
    }
  }
}

/** HKDF of the Python side (`common/crypto_primitives.py`). */
module PythonKdf {
  import opened Bytes
  import opened Rfc2104
  import Rfc5869

  /** `HKDFWrapper.extract` */
  function Extract(salt: bytes, ikm: bytes): bytes {
    Hmac(if salt == [] then Zeros(32) else salt, ikm)
  }

  /** `HKDFWrapper.expand`, and `hkdf_expand` of the KEMTLS benchmark. `bytes([256])` raises ValueError. */
  method Expand(prk: bytes, info: bytes, length: int) returns (r: Result<bytes>)
    ensures r == if length > Rfc5869.MAX_OUTPUT then Err(ValueError)
                 else Ok(Rfc5869.Expand(prk, info, if length < 0 then 0 else length))
  {
    hide Hmac;
    var t, okm, counter: int := [], [], 1;
    while |okm| < length
      invariant 1 <= counter <= 256 && |okm| == 32 * (counter - 1)
      invariant |okm| < length + 32 || counter == 1
      invariant t == Rfc5869.T(prk, info, counter - 1)
      invariant okm == Rfc5869.Ts(prk, info, counter - 1)
    {
      if counter > 255 {
        return Err(ValueError);
      }
      t := Hmac(prk, t + info + [counter]);
      okm := okm + t;
      counter := counter + 1;
    }
    return Ok(if length < 0 then [] else okm[..length]);
  }

  /** The two extracts agree: an empty salt and 32 zeros are the same HMAC key. */
  lemma ExtractAgrees(salt: bytes, ikm: bytes)
    ensures Extract(salt, ikm) == Hmac(salt, ikm)
    ensures Extract(salt, ikm) == Rfc5869.Extract(if salt == [] then None else Some(salt), ikm)
  {
    hide Hmac;
    ZeroPaddedKey([], 32, ikm);
    assert [] + Zeros(32) == Zeros(32);
  }
}
