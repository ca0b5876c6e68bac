/**
  Agreement in the benchmark protocol of `network/bench_network_1000.py`: its transcript, keys and tags are those of
  `Handshake.Inputs` over the byte layouts of `Wire`, so acceptance binds both ends down to SHA-256.
 */
module Benchmark {
  import opened Bytes
  import opened Wire
  import opened Rfc2104
  import Fips180
  import Rfc5869
  import PythonKdf
  import opened Handshake
  import opened Agreement
  import opened Concrete
  import opened Firmware
  import opened CrossRun

  /** One end of a handshake: the hellos as sent or read, the ciphertext, the anchor and the three secrets. */
  datatype End = End(m1: M1, m2: M2, ct: bytes, anchor: bytes, secrets: bytes) {
    ghost predicate Valid() {
      && Fits(m1.id) && Fits(m1.pk) && |m1.epoch| == 4 && |m1.nonce| == 32
      && Fits(m2.pk) && Fits(m2.ct1) && Fits(m2.ct2) && Fits(m2.sig)
    }

    function ToInputs(): Inputs
      requires BuildM1(m1).Ok? && BuildM2(m2).Ok?
    {
      Inputs(BuildM1(m1).value, BuildM2(m2).value, ct, anchor, secrets)
    }
  }

  lemma Builds(e: End)
    requires e.Valid()
    ensures BuildM1(e.m1).Ok? && BuildM2(e.m2).Ok?
  {
    hide ParseM1, ParseM2, ReadField16, Slice;
    M1RoundTrip(e.m1);
    M2RoundTrip(e.m2);
  }

  /** The layouts leave the transcript unambiguous. */
  lemma EndsUnambiguous(a: End, b: End)
    requires a.Valid() && b.Valid()
    ensures BuildM1(a.m1).Ok? && BuildM2(a.m2).Ok? && BuildM1(b.m1).Ok? && BuildM2(b.m2).Ok?
    ensures Unambiguous(a.ToInputs(), b.ToInputs())
    ensures a.ToInputs().Transcript() == b.ToInputs().Transcript() ==> a.m1 == b.m1 && a.m2 == b.m2 && a.ct == b.ct
  {
    hide BuildM1, BuildM2;
    Builds(a);
    Builds(b);
    if a.ToInputs().Transcript() == b.ToInputs().Transcript() {
      HellosUnambiguous(a.m1, a.m2, a.ct, b.m1, b.m2, b.ct);
    }
  }

  /** The functions of the benchmark are those of the key schedule. */
  lemma SameSchedule(s: Suite, e: End)
    requires UsesSha256(s) && e.Valid()
    ensures BuildM1(e.m1).Ok? && BuildM2(e.m2).Ok?
    ensures
      var i := e.ToInputs();
      && Tr(i.hello, i.serverHello, e.ct) == i.Tr(s)
      && ServerKey(e.anchor, e.secrets, i.Tr(s)) == i.FinishedKey(s)
  {
    hide BuildM1, BuildM2, Fips180.Sha256, Hmac, Rfc5869.Expand, PythonKdf.Extract;
    Builds(e);
    var i := e.ToInputs();
    SuiteIsHkdf(s, e.anchor, e.secrets, i.Prk(s), i.FinishedInfo(s));
  }

  /** What two ends with one key share. */
  ghost predicate SameExchange(s: Suite, a: End, b: End)
    requires BuildM1(a.m1).Ok? && BuildM2(a.m2).Ok? && BuildM1(b.m1).Ok? && BuildM2(b.m2).Ok?
  {
    && a.m1 == b.m1 && a.m2 == b.m2 && a.ct == b.ct
    && a.ToInputs().FinishedKey(s) == b.ToInputs().FinishedKey(s)
    && SecretsBoundBySha256(s, a.ToInputs(), b.ToInputs())
  }

  /**
    The server answers an m3 with its tag exactly when the tag in it is the one over its own transcript and key, and
    otherwise with FAIL. If a client made that tag, both ends agree on m1, m2, the ciphertext, the key and the
    secrets, or the named pair of inputs collides under SHA-256.
   */
  lemma ServerAgrees(s: Suite, v: ServerSide, m1: bytes, m2: bytes, m3: bytes, a: End, b: End)
    requires UsesSha256(s) && a.Valid() && b.Valid()
    requires ParseM1(m1).Ok? && ParseM3(m3).Ok? && |ParseM3(m3).value.tag| == 32
    requires Ok(m1) == BuildM1(b.m1) && Ok(m2) == BuildM2(b.m2) && b.ct == ParseM3(m3).value.ct && b.anchor == v.anchor
    requires b.secrets == s.encapsulate(v.clientPk, v.forStatic).secret
                          + s.encapsulate(ParseM1(m1).value.pk, v.forEphemeral).secret
                          + s.decapsulate(v.ephemeral.sk, b.ct)
    ensures BuildM1(a.m1).Ok? && BuildM2(a.m2).Ok?
    ensures
      var i, k := a.ToInputs(), b.ToInputs();
      var tag := ParseM3(m3).value.tag;
      && Answer(s, v, m1, m2, m3).Ok?
      && (Answer(s, v, m1, m2, m3) == Ok(Ascii("FAIL")) <==> tag != Hmac(k.FinishedKey(s), k.Tr(s) + Ascii("CL_FIN")))
      && (Answer(s, v, m1, m2, m3) != Ok(Ascii("FAIL")) ==>
            Answer(s, v, m1, m2, m3)
            == Ok(Hmac(k.FinishedKey(s), Fips180.Sha256(k.Tr(s) + m3) + Ascii("SV_FIN"))))
      && (Answer(s, v, m1, m2, m3) != Ok(Ascii("FAIL")) && tag == i.ClientTag(s) ==>
            var e := Sha256Evidence(ClientTagEvidence(s, i, k));
            e.Holds(s) && !e.MacCollision? && (e.NoCollision? ==> SameExchange(s, a, b)))
  {
    hide BuildM1, BuildM2, ParseM1, ParseM3, Fips180.Sha256, Hmac, Ascii, ServerKey, Tr, SecretsBoundBySha256,
         Sha256Evidence, ClientTagEvidence, Inputs.Tr, Inputs.FinishedKey;
    EndsUnambiguous(a, b);
    SameSchedule(s, b);
    var i, k := a.ToInputs(), b.ToInputs();
    assert |FAIL| == 4 by { FailLength(); }
    if i.ClientTag(s) == k.ClientTag(s) {
      ClientTagAgreement(s, i, k);
      SameTranscriptOf(s, i, k);
      Lift(s, ClientTagEvidence(s, i, k), i, k, [], []);
    }
  }

  /**
    A client whose expected tag is the one a server computed shares the whole exchange with it, and the server read the
    very m3 the client sent, or the named pair collides.
   */
  lemma ClientAgrees(s: Suite, a: End, sent: bytes, b: End, read: bytes)
    requires UsesSha256(s) && a.Valid() && b.Valid()
    requires BuildM1(a.m1).Ok? && BuildM2(a.m2).Ok? && BuildM1(b.m1).Ok? && BuildM2(b.m2).Ok?
    requires Hmac(a.ToInputs().FinishedKey(s), Fips180.Sha256(a.ToInputs().Tr(s) + sent) + Ascii("SV_FIN"))
             == Hmac(b.ToInputs().FinishedKey(s), Fips180.Sha256(b.ToInputs().Tr(s) + read) + Ascii("SV_FIN"))
    ensures
      var e := Sha256Evidence(ServerTagEvidence(s, a.ToInputs(), sent, b.ToInputs(), read));
      e.Holds(s) && !e.MacCollision? && (e.NoCollision? ==> SameExchange(s, a, b) && sent == read)
  {
    hide BuildM1, BuildM2, Fips180.Sha256, Hmac, Ascii, SecretsBoundBySha256, Sha256Evidence, ServerTagEvidence,
         Inputs.Tr, Inputs.FinishedKey;
    EndsUnambiguous(a, b);
    SuiteIsHkdf(s, [], [], [], []);
    var i, k := a.ToInputs(), b.ToInputs();
    ServerTagAgreement(s, i, sent, k, read);
    SameTranscriptOf(s, i, k);
    Lift(s, ServerTagEvidence(s, i, sent, k, read), i, k, sent, read);
  }

  lemma FailLength()
    ensures |FAIL| == 4
  {}

  lemma SameTranscriptOf(s: Suite, i: Inputs, k: Inputs)
    ensures SameSession(s, i, k) ==> i.Transcript() == k.Transcript() && i.FinishedKey(s) == k.FinishedKey(s)
  {}
}
