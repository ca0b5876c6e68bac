/** The two texts under the server's signature, octet by octet, and what an equal signed hash says about an exchange. */
module SignedTexts {
  import opened Bytes
  import opened Wire
  import opened WireLaws
  import opened Handshake
  import opened Agreement
  import opened Firmware
  import opened CrossRun

  lemma Cut(a: bytes, b: bytes, rest: bytes)
    ensures (a + b + rest)[|a|..|a| + |b|] == b && (a + b + rest)[|a| + |b|..] == rest
    ensures (a + b + rest)[..|a|] == a
  {}

  /** `run_server`'s text: where each field lies. */
  lemma PythonFields(m1: M1, m: M2)
    requires |m1.epoch| == 4 && |m1.nonce| == 32
    ensures
      var t, n, k := PythonSigned(m1, m), |m1.id|, 65 + |m1.id| + |m1.pk|;
      && |t| == k + |m.pk| + |m.ct1| + |m.ct2|
      && t[..27] == Ascii("RIA-QKD-V1-ServerRIA-QKD-GW")
      && t[27] == LowByte(n / 0x100) && t[28] == LowByte(n)
      && t[29..29 + n] == m1.id && t[29 + n..33 + n] == m1.epoch && t[33 + n..65 + n] == m1.nonce
      && t[65 + n..k] == m1.pk && t[k..k + |m.pk|] == m.pk
      && t[k + |m.pk|..k + |m.pk| + |m.ct1|] == m.ct1 && t[k + |m.pk| + |m.ct1|..] == m.ct2
  {
    hide BigEndian;
    TwoOctets(|m1.id|);
    assert SIGNATURE_PREFIX + SERVER_ID == Ascii("RIA-QKD-V1-ServerRIA-QKD-GW");
    var t := PythonSigned(m1, m);
    assert |SIGNATURE_PREFIX| == 17 && |SERVER_ID| == 10;
    assert t[..27] == SIGNATURE_PREFIX + SERVER_ID;
    assert t[27..29] == BigEndian(|m1.id|, 2);
  }

  /** The firmware's text: label and epoch as literals, the nonce octet by octet, and the fields of m2. */
  lemma FirmwareFields(m: M2)
    ensures
      var t := FirmwareSigned(m);
      && t[..34] == Ascii("RIA-QKD-V1-ServerRIA-QKD-GWdefault") && t[34..38] == [0, 0, 0, 1]
      && (forall i :: 0 <= i < 32 ==> t[38 + i] == (7 * i + 3) % 0x100)
      && t[70..] == m.pk + m.ct1 + m.ct2
  {
    assert SIGNATURE_PREFIX + SERVER_ID + LABEL == Ascii("RIA-QKD-V1-ServerRIA-QKD-GWdefault");
    var t := FirmwareSigned(m);
    assert |SIGNATURE_PREFIX| == 17 && |SERVER_ID| == 10 && |LABEL| == 7;
    assert t[..34] == SIGNATURE_PREFIX + SERVER_ID + LABEL;
    assert forall i :: 0 <= i < 32 ==> t[38 + i] == TestNonce()[i];
  }

  /** The firmware's hello, octet by octet. */
  lemma FirmwareHello(pkEph: bytes)
    requires Fits(pkEph)
    ensures BuildM1(Hello(pkEph)).Ok?
    ensures
      var t, n := BuildM1(Hello(pkEph)).value, |pkEph|;
      && |t| == 47 + n && t[..9] == [0, 7] + Ascii("default") && t[9..13] == [0, 0, 0, 1]
      && (forall i :: 0 <= i < 32 ==> t[13 + i] == (7 * i + 3) % 0x100)
      && t[45] == LowByte(n / 0x100) && t[46] == LowByte(n) && t[47..] == pkEph
  {
    hide BigEndian;
    TwoOctets(7);
    TwoOctets(|pkEph|);
    assert |LABEL| == 7;
    var t := BuildM1(Hello(pkEph)).value;
    assert t[..9] == [0, 7] + LABEL;
    assert forall i :: 0 <= i < 32 ==> t[13 + i] == TestNonce()[i];
  }

  /** The two keys and the ciphertexts as they stand in the text, one behind the other. */
  function Row(m1: M1, m: M2): bytes {
    m1.pk + m.pk + m.ct1 + m.ct2
  }

  /** Equal texts: the same identity, epoch and nonce, the same row, and field by field when the lengths agree. */
  lemma SameText(a: M1, am: M2, b: M1, bm: M2)
    requires |a.epoch| == 4 == |b.epoch| && |a.nonce| == 32 == |b.nonce| && Fits(a.id) && Fits(b.id)
    requires PythonSigned(a, am) == PythonSigned(b, bm)
    ensures a.id == b.id && a.epoch == b.epoch && a.nonce == b.nonce && Row(a, am) == Row(b, bm)
    ensures a.pk == b.pk && am.pk == bm.pk && am.ct1 == bm.ct1 && am.ct2 == bm.ct2
            <==> |a.pk| == |b.pk| && |am.pk| == |bm.pk| && |am.ct1| == |bm.ct1|
  {
    hide BigEndian, Ascii, PythonSigned;
    PythonFields(a, am);
    PythonFields(b, bm);
    TextLength(|a.id|, |b.id|);
    RowIn(a, am);
    RowIn(b, bm);
  }

  lemma TextLength(n: nat, k: nat)
    requires n < 0x1_0000 && k < 0x1_0000
    requires LowByte(n / 0x100) == LowByte(k / 0x100) && LowByte(n) == LowByte(k)
    ensures n == k
  {}

  lemma RowIn(m1: M1, m: M2)
    requires |m1.epoch| == 4 && |m1.nonce| == 32
    ensures |PythonSigned(m1, m)| >= 65 + |m1.id| && PythonSigned(m1, m)[65 + |m1.id|..] == Row(m1, m)
  {
    hide BigEndian;
    TwoOctets(|m1.id|);
    assert |SIGNATURE_PREFIX| == 17 && |SERVER_ID| == 10;
  }

  /**
    A client that checks a signature made over some exchange: equal hashes mean the same identity, epoch, nonce, and
    the same keys and ciphertexts in a row, each of them exactly when the lengths agree, or SHA-256 collides.
   */
  lemma ExchangeBinds(s: Suite, a: M1, am: M2, b: M1, bm: M2)
    requires |a.epoch| == 4 == |b.epoch| && |a.nonce| == 32 == |b.nonce| && Fits(a.id) && Fits(b.id)
    requires s.hash(PythonSigned(a, am)) == s.hash(PythonSigned(b, bm))
    ensures
      var e := CompareHash(PythonSigned(a, am), PythonSigned(b, bm));
      && e.Holds(s)
      && (e.NoCollision? ==>
            && a.id == b.id && a.epoch == b.epoch && a.nonce == b.nonce && Row(a, am) == Row(b, bm)
            && (a.pk == b.pk && am.pk == bm.pk && am.ct1 == bm.ct1 && am.ct2 == bm.ct2
                <==> |a.pk| == |b.pk| && |am.pk| == |bm.pk| && |am.ct1| == |bm.ct1|))
  {
    hide PythonSigned, Row;
    if PythonSigned(a, am) == PythonSigned(b, bm) {
      SameText(a, am, b, bm);
    }
  }
}
