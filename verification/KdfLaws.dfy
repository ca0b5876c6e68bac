/** HMAC and HKDF in octets: what the pads are, and how the blocks of the output follow from each other. */
module KdfLaws {
  import opened Bytes
  import opened Fips180
  import opened BitVectors
  import opened Rfc2104
  import opened Rfc5869

  /** Octet x with the bits of mask flipped. */
  ghost predicate Flipped(x: nat, mask: nat, y: nat) {
    forall j :: 0 <= j < 8 ==> Bit(y, j) == if Bit(mask, j) == 1 then 1 - Bit(x, j) else Bit(x, j)
  }

  /** The key as HMAC uses it: octet i of a key within a block, a zero behind it, and the digest of a longer key. */
  lemma BlockKeyOctets(key: bytes, i: nat)
    requires i < 64
    ensures |key| <= 64 ==> BlockKey(key)[i] == if i < |key| then key[i] else 0
    ensures |key| > 64 ==> BlockKey(key)[i] == if i < 32 then Sha256(key)[i] else 0
  {
    hide Sha256;
  }

  lemma XorFlips(mask: byte, x: byte)
    ensures Flipped(x, mask, XorOctet(mask, x))
  {
    hide Digits;
    forall j | 0 <= j < 8
      ensures Bit(XorOctet(mask, x), j) == if Bit(mask, j) == 1 then 1 - Bit(x, j) else Bit(x, j)
    {
      BitOfDigits(XorGate, mask, x, j);
      BitIsDigit(mask, j);
      BitIsDigit(x, j);
    }
  }

  lemma FlippedOnce(x: byte, mask: byte, y: byte, z: byte)
    requires Flipped(x, mask, y) && Flipped(x, mask, z)
    ensures y == z
  {
    assert Pow2(8) == 0x100;
    BitsDetermine(y, z, 8);
  }

  /**
    For any two strings of 64 octets that are the key block with the bits of 0x36 and of 0x5c flipped, HMAC is the
    hash of the second followed by the hash of the first followed by the text.
   */
  lemma HmacIs(key: bytes, text: bytes, ipad: bytes, opad: bytes)
    requires |ipad| == 64 == |opad|
    requires forall i :: 0 <= i < 64 ==> Flipped(BlockKey(key)[i], 0x36, ipad[i])
    requires forall i :: 0 <= i < 64 ==> Flipped(BlockKey(key)[i], 0x5c, opad[i])
    ensures Hmac(key, text) == Sha256(opad + Sha256(ipad + text))
  {
    hide Sha256, XorOctet, BlockKey, Flipped;
    var k := BlockKey(key);
    forall i | 0 <= i < 64
      ensures XorAll(k, 0x36)[i] == ipad[i] && XorAll(k, 0x5c)[i] == opad[i]
    {
      XorFlips(0x36, k[i]);
      XorFlips(0x5c, k[i]);
      FlippedOnce(k[i], 0x36, XorOctet(0x36, k[i]), ipad[i]);
      FlippedOnce(k[i], 0x5c, XorOctet(0x5c, k[i]), opad[i]);
    }
    assert XorAll(k, 0x36) == ipad && XorAll(k, 0x5c) == opad;
  }

  lemma TsBlock(prk: bytes, info: bytes, n: nat, i: nat)
    requires i < n
    ensures Ts(prk, info, n)[32 * i..32 * i + 32] == T(prk, info, i + 1)
  {
    hide T;
    TsPrefix(prk, info, i + 1, n);
    var t := Ts(prk, info, n);
    assert t[..32 * (i + 1)] == Ts(prk, info, i) + T(prk, info, i + 1);
    assert t[32 * i..32 * i + 32] == t[..32 * (i + 1)][32 * i..];
  }

  /** Block i of the output: the tag of the block before it (none before the first), the info and the counter. */
  lemma OutputBlock(prk: bytes, info: bytes, okm: bytes, i: nat, before: bytes, counter: byte)
    requires okm == Expand(prk, info, |okm|) && 32 * (i + 1) <= |okm| && counter == i + 1
    requires before == if i == 0 then [] else okm[32 * (i - 1)..32 * i]
    ensures okm[32 * i..32 * (i + 1)] == Hmac(prk, before + info + [counter])
  {
    hide Hmac, Ts, T;
    var t := Ts(prk, info, Rfc5869.Rounds(|okm|));
    TsBlock(prk, info, Rfc5869.Rounds(|okm|), i);
    assert okm[32 * i..32 * (i + 1)] == t[32 * i..32 * i + 32];
    if i > 0 {
      TsBlock(prk, info, Rfc5869.Rounds(|okm|), i - 1);
      assert okm[32 * (i - 1)..32 * i] == t[32 * (i - 1)..32 * (i - 1) + 32];
    }
    NextT(prk, info, i, before, counter);
  }

  lemma NextT(prk: bytes, info: bytes, i: nat, before: bytes, counter: byte)
    requires before == T(prk, info, i) && counter == i + 1
    ensures T(prk, info, i + 1) == Hmac(prk, before + info + [counter])
  {
    hide Hmac;
  }
}
