/** `Utf8` in terms of characters: the accepted strings are those that some list of characters encodes to. */
module Utf8Laws {
  import opened Bytes
  import opened Utf8

  /** A Unicode scalar value: a code point that is not a surrogate. */
  predicate Scalar(c: nat) {
    c < 0x11_0000 && !(0xd800 <= c < 0xe000)
  }

  /** The octets of one character (the table of section 3 of RFC 3629). */
  function Octets(c: nat): (b: bytes)
    requires Scalar(c)
    ensures 1 <= |b| <= 4
  {
    if c < 0x80 then [c]
    else if c < 0x800 then [0xc0 + c / 0x40, 0x80 + c % 0x40]
    else if c < 0x1_0000 then [0xe0 + c / 0x1000, 0x80 + c / 0x40 % 0x40, 0x80 + c % 0x40]
    else [0xf0 + c / 0x4_0000, 0x80 + c / 0x1000 % 0x40, 0x80 + c / 0x40 % 0x40, 0x80 + c % 0x40]
  }

  function Encoded(text: seq<nat>): bytes
    requires forall c :: c in text ==> Scalar(c)
  {
    if text == [] then [] else Octets(text[0]) + Encoded(text[1..])
  }

  /** A number from four digits to the base 64. */
  function Number(p: nat, q: nat, r: nat, s: nat): nat {
    0x4_0000 * p + 0x1000 * q + 0x40 * r + s
  }

  /** The character that stands first in b. */
  function First(b: bytes): nat {
    match FirstLength(b)
    case 1 => b[0]
    case 2 => Number(0, 0, b[0] - 0xc0, b[1] - 0x80)
    case 3 => Number(0, b[0] - 0xe0, b[1] - 0x80, b[2] - 0x80)
    case 4 => Number(b[0] - 0xf0, b[1] - 0x80, b[2] - 0x80, b[3] - 0x80)
    case _ => 0
  }

  /** What the decoder takes as one character is one. */
  lemma FirstIsScalar(b: bytes)
    requires FirstLength(b) > 0
    ensures Scalar(First(b)) && b[..FirstLength(b)] == Octets(First(b))
  {
    match FirstLength(b)
    case 1 =>
    case 2 => Digits(0, 0, b[0] - 0xc0, b[1] - 0x80, First(b));
    case 3 => Three(b);
    case _ => Four(b);
  }

  lemma Three(b: bytes)
    requires FirstLength(b) == 3
    ensures Scalar(First(b)) && b[..3] == Octets(First(b))
  {
    Digits(0, b[0] - 0xe0, b[1] - 0x80, b[2] - 0x80, First(b));
  }

  lemma Four(b: bytes)
    requires FirstLength(b) == 4
    ensures Scalar(First(b)) && b[..4] == Octets(First(b))
  {
    Digits(b[0] - 0xf0, b[1] - 0x80, b[2] - 0x80, b[3] - 0x80, First(b));
  }

  /** A number in base 64. */
  lemma Digits(p: nat, q: nat, r: nat, s: nat, c: nat)
    requires q < 0x40 && r < 0x40 && s < 0x40 && c == Number(p, q, r, s)
    ensures c % 0x40 == s && c / 0x40 % 0x40 == r && c / 0x1000 % 0x40 == q && c / 0x4_0000 == p
    ensures c / 0x40 == 0x1000 * p + 0x40 * q + r && c / 0x1000 == 0x40 * p + q
  {
    var high := 0x40 * p + q;
    assert c == 0x40 * (0x40 * high + r) + s;
    Split(0x40 * high + r, s);
    Split(high, r);
    Split(p, q);
    assert c / 0x1000 == high by { assert c == 0x1000 * high + (0x40 * r + s); }
    assert c / 0x4_0000 == p by { assert c == 0x4_0000 * p + (0x1000 * q + 0x40 * r + s); }
  }

  lemma Split(x: nat, y: nat)
    requires y < 0x40
    ensures (0x40 * x + y) / 0x40 == x && (0x40 * x + y) % 0x40 == y
  {}

  /** Every character is taken whole, whatever follows it. */
  lemma TakesCharacter(c: nat, rest: bytes)
    requires Scalar(c)
    ensures FirstLength(Octets(c) + rest) == |Octets(c)|
  {
    var b := Octets(c) + rest;
    assert forall i :: 0 <= i < |Octets(c)| ==> b[i] == Octets(c)[i];
  }

  lemma {:induction false} EncodedIsUtf8(text: seq<nat>)
    requires forall c :: c in text ==> Scalar(c)
    ensures IsUtf8(Encoded(text))
  {
    if text != [] {
      TakesCharacter(text[0], Encoded(text[1..]));
      EncodedIsUtf8(text[1..]);
      var first := Octets(text[0]);
      assert (first + Encoded(text[1..]))[|first|..] == Encoded(text[1..]);
    }
  }

  lemma {:induction false} Utf8IsEncoded(b: bytes) returns (text: seq<nat>)
    requires IsUtf8(b)
    ensures (forall c :: c in text ==> Scalar(c)) && Encoded(text) == b
  {
    hide FirstLength, First, Octets, Scalar;
    text := [];
    if b != [] {
      FirstIsScalar(b);
      var rest := Utf8IsEncoded(b[FirstLength(b)..]);
      text := [First(b)] + rest;
      assert text[1..] == rest && b == b[..FirstLength(b)] + b[FirstLength(b)..];
    }
  }

  /** The decoder accepts exactly the byte forms of texts. */
  lemma Utf8Iff(b: bytes)
    ensures IsUtf8(b) <==> exists text: seq<nat> :: (forall c :: c in text ==> Scalar(c)) && Encoded(text) == b
  {
    if IsUtf8(b) {
      var text := Utf8IsEncoded(b);
    }
    if text: seq<nat> :| (forall c :: c in text ==> Scalar(c)) && Encoded(text) == b {
      EncodedIsUtf8(text);
    }
  }
}
