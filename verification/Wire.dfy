/** The byte layouts of the benchmark messages, their builders and their offset-walking parsers. */
module Wire {
  import opened Bytes

  // ---------- one 16-bit length-prefixed field ----------

  /** `struct.pack(">H", len(b)) + b` */
  function Field16(b: bytes): Result<bytes> {
    if |b| > 0xffff then Err(StructError) else Ok(BigEndian(|b|, 2) + b)
  }

  /** `struct.unpack(">H", m[off:off + 2])[0]`, the slice behind it, and the offset behind that. */
  function ReadField16(m: bytes, off: nat): Result<(bytes, nat)> {
    var raw := Slice(m, off, off + 2);
    if |raw| != 2 then Err(StructError)
    else
      var n := BigEndianValue(raw);
      Ok((Slice(m, off + 2, off + 2 + n), off + 2 + n))
  }

  lemma ReadFieldAt(pre: bytes, b: bytes, post: bytes)
    requires |b| <= 0xffff
    ensures ReadField16(pre + Field16(b).value + post, |pre|) == Ok((b, |pre| + |Field16(b).value|))
  {
    hide BigEndian, BigEndianValue, Slice;
    Pow256Values();
    BigEndianRoundTrip(|b|, 2);
    var length := BigEndian(|b|, 2);
    SliceMiddle(pre, length, b + post);
    assert pre + Field16(b).value + post == pre + length + (b + post);
    SliceMiddle(pre + length, b, post);
    assert pre + Field16(b).value + post == pre + length + b + post;
  }

  // ---------- m1: CLIENT_HELLO ----------

  datatype M1 = M1(id: bytes, epoch: bytes, nonce: bytes, pk: bytes)

  function BuildM1(m: M1): Result<bytes> {
    var id :- Field16(m.id);
    var pk :- Field16(m.pk);
    Ok(id + m.epoch + m.nonce + pk)
  }

  function ParseM1(b: bytes): Result<M1> {
    var (id, off) :- ReadField16(b, 0);
    var (pk, _) :- ReadField16(b, off + 4 + 32);
    Ok(M1(id, Slice(b, off, off + 4), Slice(b, off + 4, off + 4 + 32), pk))
  }

  lemma M1RoundTrip(m: M1)
    requires Fits(m.id) && Fits(m.pk) && |m.epoch| == 4 && |m.nonce| == 32
    ensures BuildM1(m).Ok? && ParseM1(BuildM1(m).value) == Ok(m)
  {
    hide BigEndian, ReadField16, Slice;
    var id, pk := Field16(m.id).value, Field16(m.pk).value;
    var b := BuildM1(m).value;
    ReadFieldAt([], m.id, m.epoch + m.nonce + pk);
    assert b == [] + id + (m.epoch + m.nonce + pk);
    SliceMiddle(id, m.epoch, m.nonce + pk);
    assert b == id + m.epoch + (m.nonce + pk);
    SliceMiddle(id + m.epoch, m.nonce, pk);
    ReadFieldAt(id + m.epoch + m.nonce, m.pk, []);
    assert b == (id + m.epoch + m.nonce) + pk + [];
  }

  // ---------- m2: SERVER_HELLO ----------

  datatype M2 = M2(pk: bytes, ct1: bytes, ct2: bytes, sig: bytes)

  function BuildM2(m: M2): Result<bytes> {
    var pk :- Field16(m.pk);
    var ct1 :- Field16(m.ct1);
    var ct2 :- Field16(m.ct2);
    var sig :- Field16(m.sig);
    Ok(pk + ct1 + ct2 + sig)
  }

  function ParseM2(b: bytes): Result<M2> {
    var (pk, off) :- ReadField16(b, 0);
    var (ct1, off) :- ReadField16(b, off);
    var (ct2, off) :- ReadField16(b, off);
    var (sig, _) :- ReadField16(b, off);
    Ok(M2(pk, ct1, ct2, sig))
  }

  /** Four fields one after the other are read back one after the other. */
  lemma FourFields(pre: bytes, a: bytes, b: bytes, c: bytes, d: bytes)
    requires Fits(a) && Fits(b) && Fits(c) && Fits(d)
    ensures
      var fa, fb, fc, fd := Field16(a).value, Field16(b).value, Field16(c).value, Field16(d).value;
      var m := pre + fa + fb + fc + fd;
      && ReadField16(m, |pre|) == Ok((a, |pre| + |fa|))
      && ReadField16(m, |pre| + |fa|) == Ok((b, |pre| + |fa| + |fb|))
      && ReadField16(m, |pre| + |fa| + |fb|) == Ok((c, |pre| + |fa| + |fb| + |fc|))
      && ReadField16(m, |pre| + |fa| + |fb| + |fc|) == Ok((d, |m|))
  {
    hide Field16, ReadField16;
    FieldsFit(a, b, c, d);
    var fa, fb, fc, fd := Field16(a).value, Field16(b).value, Field16(c).value, Field16(d).value;
    var m := pre + fa + fb + fc + fd;
    ReadFieldAt(pre, a, fb + fc + fd);
    assert m == pre + fa + (fb + fc + fd);
    ReadFieldAt(pre + fa, b, fc + fd);
    assert m == pre + fa + fb + (fc + fd);
    ReadFieldAt(pre + fa + fb, c, fd);
    ReadFieldAt(pre + fa + fb + fc, d, []);
    assert m == m + [];
  }

  lemma FieldsFit(a: bytes, b: bytes, c: bytes, d: bytes)
    requires Fits(a) && Fits(b) && Fits(c) && Fits(d)
    ensures Field16(a).Ok? && Field16(b).Ok? && Field16(c).Ok? && Field16(d).Ok?
  {}

  lemma M2RoundTrip(m: M2)
    requires Fits(m.pk) && Fits(m.ct1) && Fits(m.ct2) && Fits(m.sig)
    ensures BuildM2(m).Ok? && ParseM2(BuildM2(m).value) == Ok(m)
  {
    hide Field16, ReadField16;
    FieldsFit(m.pk, m.ct1, m.ct2, m.sig);
    FourFields([], m.pk, m.ct1, m.ct2, m.sig);
    assert [] + Field16(m.pk).value == Field16(m.pk).value;
  }

  // ---------- m3: CLIENT_FINISHED ----------

  datatype M3 = M3(ct: bytes, tag: bytes)

  function BuildM3(m: M3): Result<bytes> {
    var ct :- Field16(m.ct);
    Ok(ct + m.tag)
  }

  function ParseM3(b: bytes): Result<M3> {
    var (ct, off) :- ReadField16(b, 0);
    Ok(M3(ct, Slice(b, off, |b|)))
  }

  lemma M3RoundTrip(m: M3)
    requires Fits(m.ct)
    ensures BuildM3(m).Ok? && ParseM3(BuildM3(m).value) == Ok(m)
  {
    hide BigEndian, ReadField16, Slice;
    var ct := Field16(m.ct).value;
    ReadFieldAt([], m.ct, m.tag);
    assert [] + ct + m.tag == ct + m.tag;
    SliceMiddle(ct, m.tag, []);
    assert ct + m.tag + [] == ct + m.tag;
  }

  // ---------- the hellos in a row ----------

  /** A field at the start of a text determines itself and what follows. */
  lemma FieldThen(a: bytes, rest: bytes, a': bytes, rest': bytes)
    requires Fits(a) && Fits(a') && Field16(a).value + rest == Field16(a').value + rest'
    ensures a == a' && rest == rest'
  {
    hide Field16, ReadField16;
    FieldsFit(a, a', a, a');
    ReadFieldAt([], a, rest);
    ReadFieldAt([], a', rest');
    var f, f' := Field16(a).value, Field16(a').value;
    assert [] + f + rest == f + rest && [] + f' + rest' == f' + rest';
    assert (f + rest)[|f|..] == rest && (f' + rest')[|f'|..] == rest';
  }

  lemma M1Then(m: M1, rest: bytes, m': M1, rest': bytes)
    requires Fits(m.id) && Fits(m.pk) && |m.epoch| == 4 && |m.nonce| == 32
    requires Fits(m'.id) && Fits(m'.pk) && |m'.epoch| == 4 && |m'.nonce| == 32
    requires BuildM1(m).value + rest == BuildM1(m').value + rest'
    ensures m == m' && rest == rest'
  {
    hide Field16;
    FieldsFit(m.id, m.pk, m'.id, m'.pk);
    var id, pk, id', pk' := Field16(m.id).value, Field16(m.pk).value, Field16(m'.id).value, Field16(m'.pk).value;
    var tail, tail' := m.epoch + m.nonce + (pk + rest), m'.epoch + m'.nonce + (pk' + rest');
    assert BuildM1(m).value + rest == id + tail && BuildM1(m').value + rest' == id' + tail';
    FieldThen(m.id, tail, m'.id, tail');
    assert tail[..4] == m.epoch && tail'[..4] == m'.epoch;
    assert tail[4..36] == m.nonce && tail'[4..36] == m'.nonce;
    assert tail[36..] == pk + rest && tail'[36..] == pk' + rest';
    FieldThen(m.pk, rest, m'.pk, rest');
  }

  lemma M2Then(m: M2, rest: bytes, m': M2, rest': bytes)
    requires Fits(m.pk) && Fits(m.ct1) && Fits(m.ct2) && Fits(m.sig)
    requires Fits(m'.pk) && Fits(m'.ct1) && Fits(m'.ct2) && Fits(m'.sig)
    requires BuildM2(m).value + rest == BuildM2(m').value + rest'
    ensures m == m' && rest == rest'
  {
    hide Field16;
    FieldsFit(m.pk, m.ct1, m.ct2, m.sig);
    FieldsFit(m'.pk, m'.ct1, m'.ct2, m'.sig);
    var a, b, c, d := Field16(m.pk).value, Field16(m.ct1).value, Field16(m.ct2).value, Field16(m.sig).value;
    var a', b', c', d' := Field16(m'.pk).value, Field16(m'.ct1).value, Field16(m'.ct2).value, Field16(m'.sig).value;
    assert a + b + c + d + rest == a + (b + (c + (d + rest)));
    assert a' + b' + c' + d' + rest' == a' + (b' + (c' + (d' + rest')));
    FieldThen(m.pk, b + (c + (d + rest)), m'.pk, b' + (c' + (d' + rest')));
    FieldThen(m.ct1, c + (d + rest), m'.ct1, c' + (d' + rest'));
    FieldThen(m.ct2, d + rest, m'.ct2, d' + rest');
    FieldThen(m.sig, rest, m'.sig, rest');
  }

  /** What the benchmarks hash as the transcript determines m1, m2 and the ciphertext; nothing delimits them. */
  lemma HellosUnambiguous(m1: M1, m2: M2, ct: bytes, m1': M1, m2': M2, ct': bytes)
    requires Fits(m1.id) && Fits(m1.pk) && |m1.epoch| == 4 && |m1.nonce| == 32
    requires Fits(m1'.id) && Fits(m1'.pk) && |m1'.epoch| == 4 && |m1'.nonce| == 32
    requires Fits(m2.pk) && Fits(m2.ct1) && Fits(m2.ct2) && Fits(m2.sig)
    requires Fits(m2'.pk) && Fits(m2'.ct1) && Fits(m2'.ct2) && Fits(m2'.sig)
    requires BuildM1(m1).value + BuildM2(m2).value + ct == BuildM1(m1').value + BuildM2(m2').value + ct'
    ensures m1 == m1' && m2 == m2' && ct == ct'
  {
    hide Field16, BuildM1, BuildM2, ParseM1, ParseM2, ReadField16, Slice;
    FieldsFit(m1.id, m1.pk, m1'.id, m1'.pk);
    M1RoundTrip(m1);
    M1RoundTrip(m1');
    M2RoundTrip(m2);
    M2RoundTrip(m2');
    var a, b, a', b' := BuildM1(m1).value, BuildM2(m2).value, BuildM1(m1').value, BuildM2(m2').value;
    assert a + b + ct == a + (b + ct) && a' + b' + ct' == a' + (b' + ct');
    M1Then(m1, b + ct, m1', b' + ct');
    M2Then(m2, ct, m2', ct');
  }

  const FAIL := Ascii("FAIL")

  /** A CLIENT_FINISHED with a 32-octet tag, and a tag itself, is never the failure marker. */
  lemma NotFail(m: M3)
    requires Fits(m.ct) && |m.tag| == 32
    ensures BuildM3(m).value != FAIL && m.tag != FAIL
  {}

  // ---------- enrolment (`parse_enrollment`) ----------

  const ENR := Ascii("ENR")

  function BuildEnrollment(id: bytes, pk: bytes): Result<bytes> {
    var fid :- Field16(id);
    var fpk :- Field16(pk);
    Ok(ENR + fid + fpk)
  }

  function ParseEnrollment(m: bytes): Result<(bytes, bytes)> {
    if !(ENR <= m) then Err(ValueError)
    else
      var (id, off) :- ReadField16(m, 3);
      var (pk, _) :- ReadField16(m, off);
      Ok((id, pk))
  }

  lemma EnrollmentRoundTrip(id: bytes, pk: bytes)
    requires Fits(id) && Fits(pk)
    ensures BuildEnrollment(id, pk).Ok? && ParseEnrollment(BuildEnrollment(id, pk).value) == Ok((id, pk))
  {
    hide BigEndian, ReadField16;
    var fid, fpk := Field16(id).value, Field16(pk).value;
    ReadFieldAt(ENR, id, fpk);
    ReadFieldAt(ENR + fid, pk, []);
    assert ENR + fid + fpk == ENR + fid + fpk + [];
  }

  // ---------- the KEMTLS server credential and SERVER_HELLO ----------

  const KEMTLS_PROTO := Ascii("KEMTLS-full-v1")
  const SUBJECT := Ascii("CN=KEMTLS-Gateway-001")
  const ISSUER := Ascii("CN=Local-Test-CA")
  const KEM_ALG := Ascii("ML-KEM-512")

  datatype Credential = Credential(subject: bytes, issuer: bytes, alg: bytes, serverPk: bytes)

  /** `encode_server_credential` */
  function EncodeCredential(serverPk: bytes): Result<bytes> {
    var s :- Field16(SUBJECT);
    var i :- Field16(ISSUER);
    var a :- Field16(KEM_ALG);
    var p :- Field16(serverPk);
    Ok(KEMTLS_PROTO + s + i + a + p)
  }

  /** `decode_server_credential` */
  function DecodeCredential(b: bytes): Result<Credential> {
    if Slice(b, 0, |KEMTLS_PROTO|) != KEMTLS_PROTO then Err(ValueError)
    else
      var (subject, off) :- ReadField16(b, |KEMTLS_PROTO|);
      var (issuer, off) :- ReadField16(b, off);
      var (alg, off) :- ReadField16(b, off);
      var (pk, _) :- ReadField16(b, off);
      Ok(Credential(subject, issuer, alg, pk))
  }

  lemma CredentialRoundTrip(serverPk: bytes)
    requires Fits(serverPk)
    ensures EncodeCredential(serverPk).Ok?
    ensures DecodeCredential(EncodeCredential(serverPk).value) == Ok(Credential(SUBJECT, ISSUER, KEM_ALG, serverPk))
  {
    hide Field16, ReadField16, Slice, Ascii;
    FieldsFit(SUBJECT, ISSUER, KEM_ALG, serverPk);
    PrefixedFields(KEMTLS_PROTO, SUBJECT, ISSUER, KEM_ALG, serverPk);
  }

  lemma PrefixedFields(pre: bytes, a: bytes, b: bytes, c: bytes, d: bytes)
    requires Fits(a) && Fits(b) && Fits(c) && Fits(d)
    ensures
      var fa, fb, fc, fd := Field16(a).value, Field16(b).value, Field16(c).value, Field16(d).value;
      var m := pre + fa + fb + fc + fd;
      && Slice(m, 0, |pre|) == pre
      && ReadField16(m, |pre|) == Ok((a, |pre| + |fa|))
      && ReadField16(m, |pre| + |fa|) == Ok((b, |pre| + |fa| + |fb|))
      && ReadField16(m, |pre| + |fa| + |fb|) == Ok((c, |pre| + |fa| + |fb| + |fc|))
      && ReadField16(m, |pre| + |fa| + |fb| + |fc|) == Ok((d, |m|))
  {
    hide Field16, ReadField16;
    FieldsFit(a, b, c, d);
    FourFields(pre, a, b, c, d);
    var fa, fb, fc, fd := Field16(a).value, Field16(b).value, Field16(c).value, Field16(d).value;
    assert (pre + fa + fb + fc + fd)[0..|pre|] == pre;
  }
}
