/** The layouts of `Wire` on every input: what the builders and parsers refuse, and what is read of a cut frame. */
module WireLaws {
  import opened Bytes
  import opened Wire

  /** A field is refused exactly when its length is not there; a field that is cut short is read as far as it goes. */
  lemma FieldRead(m: bytes, off: nat)
    ensures ReadField16(m, off) == Err(StructError) <==> |m| < off + 2
    ensures off + 2 <= |m| ==>
      var n := 0x100 * (m[off] as nat) + m[off + 1];
      var end := if off + 2 + n <= |m| then off + 2 + n else |m|;
      ReadField16(m, off) == Ok((m[off + 2..end], off + 2 + n))
  {
    if off + 2 <= |m| {
      var raw := m[off..off + 2];
      assert raw[..1] == [m[off]] && raw[..1][..0] == [];
      assert BigEndianValue(raw) == 0x100 * BigEndianValue(raw[..1]) + raw[1];
      assert BigEndianValue(raw[..1]) == 0x100 * BigEndianValue([]) + m[off];
    }
  }

  /** A message is built exactly when its fields fit their lengths; otherwise `struct.pack` raises. */
  lemma BuildsIff(m1: M1, m2: M2, m3: M3, id: bytes, pk: bytes)
    ensures BuildM1(m1).Ok? <==> |m1.id| < 0x1_0000 && |m1.pk| < 0x1_0000
    ensures BuildM2(m2).Ok? <==>
      |m2.pk| < 0x1_0000 && |m2.ct1| < 0x1_0000 && |m2.ct2| < 0x1_0000 && |m2.sig| < 0x1_0000
    ensures BuildM3(m3).Ok? <==> |m3.ct| < 0x1_0000
    ensures BuildEnrollment(id, pk).Ok? <==> |id| < 0x1_0000 && |pk| < 0x1_0000
    ensures EncodeCredential(pk).Ok? <==> |pk| < 0x1_0000
    ensures BuildM1(m1).Err? ==> BuildM1(m1).error == StructError
    ensures BuildM2(m2).Err? ==> BuildM2(m2).error == StructError
    ensures BuildM3(m3).Err? ==> BuildM3(m3).error == StructError
    ensures BuildEnrollment(id, pk).Err? ==> BuildEnrollment(id, pk).error == StructError
    ensures EncodeCredential(pk).Err? ==> EncodeCredential(pk).error == StructError
  {
    hide BigEndian;
    assert |SUBJECT| == 21 && |ISSUER| == 16 && |KEM_ALG| == 10;
  }

  /** An m1 is refused exactly when it ends before the length of its key does; one that ends later is read. */
  lemma M1ReadIff(b: bytes)
    ensures ParseM1(b).Ok? <==> |b| >= 2 && |b| >= 40 + 0x100 * (b[0] as nat) + b[1]
    ensures ParseM1(b).Err? ==> ParseM1(b).error == StructError
  {
    hide ReadField16, Slice;
    FieldRead(b, 0);
    if |b| >= 2 {
      FieldRead(b, 38 + 0x100 * (b[0] as nat) + b[1]);
    }
  }

  /** The prefix is looked at before anything is read. */
  lemma EnrollmentErrors(b: bytes)
    ensures ParseEnrollment(b) == Err(ValueError) <==> !(Ascii("ENR") <= b)
    ensures ParseEnrollment(b).Err? ==> ParseEnrollment(b).error in {ValueError, StructError}
  {
    hide ReadField16;
    FieldRead(b, 3);
    if ReadField16(b, 3).Ok? {
      FieldRead(b, ReadField16(b, 3).value.1);
    }
  }

  /** The same for the credential. */
  lemma CredentialErrors(b: bytes)
    ensures DecodeCredential(b) == Err(ValueError) <==> !(Ascii("KEMTLS-full-v1") <= b)
    ensures DecodeCredential(b).Err? ==> DecodeCredential(b).error in {ValueError, StructError}
  {
    hide ReadField16;
    var r := ReadField16(b, |KEMTLS_PROTO|);
    FieldRead(b, |KEMTLS_PROTO|);
    if r.Ok? {
      FieldRead(b, r.value.1);
      var r := ReadField16(b, r.value.1);
      if r.Ok? {
        FieldRead(b, r.value.1);
        var r := ReadField16(b, r.value.1);
        if r.Ok? {
          FieldRead(b, r.value.1);
        }
      }
    }
    assert Slice(b, 0, |KEMTLS_PROTO|) == KEMTLS_PROTO <==> KEMTLS_PROTO <= b;
  }

  /** The fields of m2 are read one behind the other; it is refused exactly when the length of one is not there. */
  lemma M2ReadIff(b: bytes, pk: bytes, ct1: bytes, ct2: bytes, tail: bytes)
    requires Fits(pk) && Fits(ct1) && Fits(ct2)
    requires b == Field16(pk).value + Field16(ct1).value + Field16(ct2).value + tail
    ensures ParseM2(b).Ok? <==> |tail| >= 2
    ensures ParseM2(b).Err? ==> ParseM2(b).error == StructError
    ensures ParseM2(b).Ok? ==> ParseM2(b).value.pk == pk && ParseM2(b).value.ct1 == ct1 && ParseM2(b).value.ct2 == ct2
  {
    hide Field16, ReadField16;
    FieldsFit(pk, ct1, ct2, []);
    var a, c, d := Field16(pk).value, Field16(ct1).value, Field16(ct2).value;
    ReadFieldAt([], pk, c + d + tail);
    assert b == [] + a + (c + d + tail);
    ReadFieldAt(a, ct1, d + tail);
    assert b == a + c + (d + tail);
    ReadFieldAt(a + c, ct2, tail);
    assert b == (a + c) + d + tail;
    FieldRead(b, |a| + |c| + |d|);
  }

  /** The credential, octet by octet up to the key. */
  lemma CredentialBytes(pk: bytes)
    requires Fits(pk)
    ensures EncodeCredential(pk) == Ok(
      Ascii("KEMTLS-full-v1") + ([0, 21] + Ascii("CN=KEMTLS-Gateway-001")) + ([0, 16] + Ascii("CN=Local-Test-CA"))
      + ([0, 10] + Ascii("ML-KEM-512")) + ([LowByte(|pk| / 0x100), LowByte(|pk|)] + pk))
  {
    hide BigEndian;
    TwoOctets(21);
    TwoOctets(16);
    TwoOctets(10);
    TwoOctets(|pk|);
    assert |SUBJECT| == 21 && |ISSUER| == 16 && |KEM_ALG| == 10;
  }

  /** A length in two octets. */
  lemma TwoOctets(n: nat)
    ensures BigEndian(n, 2) == [LowByte(n / 0x100), LowByte(n)]
  {
    assert BigEndian(n, 2) == BigEndian(n / 0x100, 1) + [LowByte(n)];
    assert BigEndian(n / 0x100, 1) == BigEndian(n / 0x100 / 0x100, 0) + [LowByte(n / 0x100)];
  }
}
