/** Which octet strings a strict UTF-8 decoder accepts (section 4 of RFC 3629). */
module Utf8 {
  import opened Bytes

  predicate Tail(b: byte) {
    0x80 <= b <= 0xbf
  }

  /** Octets of the first character of b; zero when none is well formed. */
  function FirstLength(b: bytes): (n: nat)
    ensures n <= |b|
  {
    if b == [] then 0
    else if b[0] <= 0x7f then 1
    else if |b| >= 2 && 0xc2 <= b[0] <= 0xdf && Tail(b[1]) then 2
    else if |b| >= 3 && Tail(b[1]) && Tail(b[2])
            && (0xe1 <= b[0] <= 0xec || 0xee <= b[0] <= 0xef
                || (b[0] == 0xe0 && b[1] >= 0xa0) || (b[0] == 0xed && b[1] <= 0x9f)) then 3
    else if |b| >= 4 && Tail(b[1]) && Tail(b[2]) && Tail(b[3])
            && (0xf1 <= b[0] <= 0xf3 || (b[0] == 0xf0 && b[1] >= 0x90) || (b[0] == 0xf4 && b[1] <= 0x8f)) then 4
    else 0
  }

  /** `b.decode("utf-8")` succeeds. */
  predicate IsUtf8(b: bytes) {
    b == [] || (FirstLength(b) > 0 && IsUtf8(b[FirstLength(b)..]))
  }

  /** Seven-bit text is UTF-8. */
  lemma {:induction false} SevenBit(b: bytes)
    requires forall i :: 0 <= i < |b| ==> b[i] <= 0x7f
    ensures IsUtf8(b)
  {
    if b != [] {
      SevenBit(b[1..]);
    }
  }
}
