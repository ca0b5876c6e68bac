/** One handshake between the Cortex-M4 client and `run_server` of `network/bench_network_1000.py`, frame by frame. */
module CrossRun {
  import opened Bytes
  import opened Framing
  import opened Wire
  import opened Rfc2104
  import Fips180
  import Rfc5869
  import PythonKdf
  import opened Handshake
  import opened Agreement
  import opened Counters
  import opened Concrete
  import opened Firmware

  // ---------- the two signature inputs ----------

  /** What `run_server` signs and `run_client` checks. */
  function PythonSigned(m1: M1, m: M2): bytes {
    SIGNATURE_PREFIX
    + (SERVER_ID + BigEndian(|m1.id|, 2) + m1.id + m1.epoch + m1.nonce + m1.pk + m.pk + m.ct1 + m.ct2)
  }

  /** The hello the firmware sends. */
  function Hello(pkEph: bytes): M1 {
    M1(LABEL, EPOCH_1, TestNonce(), pkEph)
  }

  /** For no exchange are the two inputs the same: the firmware's lacks the identity's length and the client's key. */
  lemma NeverTheSameInput(pkEph: bytes, m: M2)
    ensures |PythonSigned(Hello(pkEph), m)| == |FirmwareSigned(m)| + 2 + |pkEph|
    ensures PythonSigned(Hello(pkEph), m) != FirmwareSigned(m)
  {
    hide BigEndian, TestNonce, Ascii;
  }

  /** The SERVER_HELLO fields with `run_server`'s signature over them. */
  function Signed(s: Suite, sk: bytes, m1: M1, pk: bytes, ct1: bytes, ct2: bytes, coins: bytes): M2 {
    M2(pk, ct1, ct2, s.sign(sk, s.hash(PythonSigned(m1, M2(pk, ct1, ct2, []))), coins))
  }

  /** The firmware goes on after m2: its own hash verifies under the server's key. */
  predicate Continues(s: Suite, serverPk: bytes, m: M2) {
    s.verify(serverPk, s.hash(FirmwareSigned(m)), m.sig)
  }

  /**
    The check the Python client makes passes for every hello of the server. The firmware's passes exactly when the
    two inputs, which always differ, collide under the hash, or when the signature is also good for another hash.
   */
  lemma ContinuesIff(s: Suite, seed: bytes, pkEph: bytes, pk: bytes, ct1: bytes, ct2: bytes, coins: bytes)
    requires s.Correct()
    ensures
      var keys := s.sigKeygen(seed);
      var m := Signed(s, keys.sk, Hello(pkEph), pk, ct1, ct2, coins);
      var ours, theirs := FirmwareSigned(m), PythonSigned(Hello(pkEph), m);
      && s.verify(keys.pk, s.hash(theirs), m.sig)
      && ours != theirs
      && (Continues(s, keys.pk, m) <==>
            || HashCollision(ours, theirs).Holds(s)
            || (s.hash(ours) != s.hash(theirs) && s.verify(keys.pk, s.hash(ours), m.sig)))
  {
    hide BigEndian, TestNonce, Ascii;
    NeverTheSameInput(pkEph, Signed(s, s.sigKeygen(seed).sk, Hello(pkEph), pk, ct1, ct2, coins));
  }

  // ---------- the server ----------

  /** What `run_server` holds and draws for one round. */
  datatype ServerSide = ServerSide(clientPk: bytes, anchor: bytes, sigKeys: KeyPair, ephemeral: KeyPair,
                                   forStatic: bytes, forEphemeral: bytes, signing: bytes)

  function ServerHelloFor(s: Suite, v: ServerSide, m1: M1): M2 {
    Signed(s, v.sigKeys.sk, m1, v.ephemeral.pk, s.encapsulate(v.clientPk, v.forStatic).ct,
           s.encapsulate(m1.pk, v.forEphemeral).ct, v.signing)
  }

  /** k_fin as `run_server` derives it: extract, then expand. */
  function ServerKey(anchor: bytes, secrets: bytes, tr: bytes): bytes {
    Rfc5869.Expand(PythonKdf.Extract(anchor, secrets), FINISHED + tr, 32)
  }

  /** The answer to an m3: the server's tag, or FAIL when the client's tag is wrong. */
  function Answer(s: Suite, v: ServerSide, m1: bytes, m2: bytes, m3: bytes): Result<bytes> {
    var hello :- ParseM1(m1);
    var m :- ParseM3(m3);
    var secrets := s.encapsulate(v.clientPk, v.forStatic).secret + s.encapsulate(hello.pk, v.forEphemeral).secret
                   + s.decapsulate(v.ephemeral.sk, m.ct);
    var tr := Tr(m1, m2, m.ct);
    var k := ServerKey(v.anchor, secrets, tr);
    Ok(if Hmac(k, tr + CL_FIN) == m.tag then Hmac(k, Fips180.Sha256(tr + m3) + SV_FIN) else FAIL)
  }

  /** With the same anchor and the same three secrets, Python derives the firmware's k_fin. */
  lemma SameKey(anchor: bytes, secrets: bytes, tr: bytes)
    ensures FirmwareKey(anchor, secrets, tr) == ServerKey(anchor, secrets, tr)
    ensures ServerKey(anchor, secrets, tr) == Hmac(PythonKdf.Extract(anchor, secrets), FINISHED + tr + [0x01])
  {
    hide Hmac, Rfc5869.Expand;
    PythonKdf.ExtractAgrees(anchor, secrets);
    Rfc5869.OneBlock(PythonKdf.Extract(anchor, secrets), FINISHED + tr);
  }

  // ---------- the firmware ----------

  /** The credentials in `m4_creds.h` and the randomness of one run. */
  datatype FirmwareSide = FirmwareSide(staticSk: bytes, anchor: bytes, serverSigPk: bytes, ephemeral: KeyPair,
                                       coins: bytes)

  /** ML-KEM-512 and ML-DSA-44 lengths, with 32-octet secrets. */
  ghost predicate Sized(s: Suite) {
    && Nominal(s)
    && (forall pk, coins :: |s.encapsulate(pk, coins).secret| == 32)
    && (forall sk, ct :: |s.decapsulate(sk, ct)| == 32)
  }

  /** What `main` keeps of its second half. */
  datatype Reply = Reply(tr: bytes, kFin: bytes, m3: bytes)

  /** The reply to an m2 with these fields. */
  ghost predicate Replies(s: Suite, f: FirmwareSide, m1: bytes, m2: bytes, m: M2, r: Reply) {
    var e := s.encapsulate(m.pk, f.coins);
    var secrets := s.decapsulate(f.staticSk, m.ct1) + s.decapsulate(f.ephemeral.sk, m.ct2) + e.secret;
    && r.tr == Tr(m1, m2, e.ct)
    && r.kFin == FirmwareKey(f.anchor, secrets, r.tr)
    && Ok(r.m3) == BuildM3(M3(e.ct, Hmac(r.kFin, r.tr + CL_FIN)))
  }

  /** From the receipt of m2 to the CLIENT_FINISHED block of `main`; None where it halts. */
  method TakeM2(s: Suite, f: FirmwareSide, m1: bytes, line: Usart, ghost m: M2) returns (r: Option<Reply>)
    requires UsesSha256(s) && Sized(s) && |f.anchor| == 32
    requires Fits(m.pk) && Fits(m.ct1) && Fits(m.ct2) && Fits(m.sig)
    requires BuildM2(m).Ok? && |BuildM2(m).value| <= FRAMING_MAX && line.incoming == Frame(BuildM2(m).value)
    modifies line
    ensures r.Some? <==> Continues(s, f.serverSigPk, m)
    ensures r.Some? ==> Replies(s, f, m1, BuildM2(m).value, m, r.value)
  {
    hide Hmac, Fips180.Sha256, Rfc5869.Expand, BuildM2, BuildM3, WalkM2, Frame, FirmwareSigned, Ascii, Receive;
    ghost var sent := BuildM2(m).value;
    ReceivesFrame(sent, [], 8192);
    assert Frame(sent) + [] == Frame(sent);
    var m2 := new byte[8192](_ => 0);
    var o := line.RecvFrame(m2);
    if !o.Received? {
      return None;
    }
    assert m2[..] == sent + m2[|sent|..];
    WalkFindsFields(m, m2[|sent|..]);
    var fields := WalkM2(m2[..]);
    if fields.None? {
      return None;
    }
    var sigTr := new byte[32];
    HashSigned(fields.value, sigTr);
    if !s.verify(f.serverSigPk, sigTr[..], fields.value.sig) {
      return None;
    }
    var ss1 := s.decapsulate(f.staticSk, fields.value.ct1);
    var ss2 := s.decapsulate(f.ephemeral.sk, fields.value.ct2);
    var e3 := s.encapsulate(fields.value.pk, f.coins);
    var m3, tr, kFin := new byte[900], new byte[32], new byte[32];
    var len := FillM3(m1, m2[..o.n], e3.ct, ss1, ss2, e3.secret, f.anchor, m3, tr, kFin);
    r := Some(Reply(tr[..], kFin[..], m3[..len]));
  }

  // ---------- the run ----------

  /** The two sides belong together: enrolled key, server key, anchor. */
  ghost predicate Provisioned(s: Suite, v: ServerSide, f: FirmwareSide) {
    && UsesSha256(s) && s.Correct() && Sized(s)
    && (exists seed :: s.kemKeygen(seed) == KeyPair(v.clientPk, f.staticSk))
    && (exists seed :: s.kemKeygen(seed) == v.ephemeral)
    && (exists seed :: s.kemKeygen(seed) == f.ephemeral)
    && (exists seed :: s.sigKeygen(seed) == v.sigKeys)
    && f.serverSigPk == v.sigKeys.pk
    && f.anchor == v.anchor && |v.anchor| == 32
  }

  datatype Outcome = Halted | Ended(serverAccepts: bool, firmwareAccepts: Option<bool>)

  lemma HelloSizes(s: Suite, v: ServerSide, m1: M1)
    requires Sized(s) && (exists seed :: s.kemKeygen(seed) == v.ephemeral)
    ensures
      var m := ServerHelloFor(s, v, m1);
      && Fits(m.pk) && Fits(m.ct1) && Fits(m.ct2) && Fits(m.sig)
      && BuildM2(m).Ok? && |BuildM2(m).value| == 4764
  {
    hide PythonSigned;
    var m := ServerHelloFor(s, v, m1);
    FieldLength(m.pk);
    FieldLength(m.ct1);
    FieldLength(m.ct2);
    FieldLength(m.sig);
  }

  /** The secrets are the same on both sides, so the server accepts the reply and answers with the firmware's tag. */
  lemma ReplyIsAccepted(s: Suite, v: ServerSide, f: FirmwareSide, m1: bytes, m2: bytes, r: Reply)
    requires Provisioned(s, v, f)
    requires ParseM1(m1) == Ok(Hello(f.ephemeral.pk))
    requires Replies(s, f, m1, m2, ServerHelloFor(s, v, Hello(f.ephemeral.pk)), r)
    ensures Answer(s, v, m1, m2, r.m3) == Ok(Hmac(r.kFin, Fips180.Sha256(r.tr + r.m3) + SV_FIN))
  {
    hide Hmac, Fips180.Sha256, Rfc5869.Expand, ParseM1, BuildM3, ParseM3, TestNonce, Ascii, PythonSigned, UsesSha256;
    var m := ServerHelloFor(s, v, Hello(f.ephemeral.pk));
    var e := s.encapsulate(m.pk, f.coins);
    M3RoundTrip(M3(e.ct, Hmac(r.kFin, r.tr + CL_FIN)));
    var seed1 :| s.kemKeygen(seed1) == KeyPair(v.clientPk, f.staticSk);
    var seed2 :| s.kemKeygen(seed2) == f.ephemeral;
    var seed3 :| s.kemKeygen(seed3) == v.ephemeral;
    assert s.decapsulate(f.staticSk, m.ct1) == s.encapsulate(v.clientPk, v.forStatic).secret;
    assert s.decapsulate(f.ephemeral.sk, m.ct2) == s.encapsulate(f.ephemeral.pk, v.forEphemeral).secret;
    assert s.decapsulate(v.ephemeral.sk, e.ct) == e.secret;
    SameKey(v.anchor, s.decapsulate(f.staticSk, m.ct1) + s.decapsulate(f.ephemeral.sk, m.ct2) + e.secret, r.tr);
  }

  /**
    Key confirmation across the two implementations: over frames in both directions, with every set of keys and
    randomness, both sides accept if the firmware's own signature check lets it go on, and otherwise it halts.
   */
  method CrossHandshake(s: Suite, v: ServerSide, f: FirmwareSide) returns (o: Outcome)
    requires Provisioned(s, v, f)
    ensures o == if Continues(s, v.sigKeys.pk, ServerHelloFor(s, v, Hello(f.ephemeral.pk)))
                 then Ended(true, Some(true)) else Halted
  {
    hide Hmac, Fips180.Sha256, Rfc5869.Expand, ParseM1, BuildM1, BuildM2, BuildM3, ParseM3, TestNonce, Ascii, Frame,
         Sha256.Concat, ServerHelloFor, Replies, Continues, Receive, AcceptsFrame, Answer, TakeFrame;
    var m1Buf := new byte[900];
    var n1 := FillM1(m1Buf, f.ephemeral.pk);
    var sent1 := SendFrame(m1Buf[..n1]);
    FramesWhole(m1Buf[..n1]);
    var m1 := TakeFrame(sent1).value.0;

    var m := ServerHelloFor(s, v, ParseM1(m1).value);
    HelloSizes(s, v, Hello(f.ephemeral.pk));
    var m2 := BuildM2(m).value;
    var line := new Usart(Frame(m2));
    var reply := TakeM2(s, f, m1, line, m);
    if reply.None? {
      return Halted;
    }
    ReplyIsAccepted(s, v, f, m1, m2, reply.value);
    ReplySize(s, f, m1, m2, m, reply.value);
    var sent3 := SendFrame(reply.value.m3);
    FramesWhole(reply.value.m3);
    var m3 := TakeFrame(sent3).value.0;

    var m4 := Answer(s, v, m1, m2, m3).value;
    line := new Usart(Frame(m4));
    FramesWhole(m4);
    ReceivesFrame(m4, [], 64);
    assert Frame(m4) + [] == Frame(m4);
    var accepted := FinishM4(line, reply.value.kFin, reply.value.tr, reply.value.m3);
    FrameLengthMatters(m4, m4);
    o := Ended(m4 != FAIL, accepted);
  }

  lemma FramesWhole(m: bytes)
    requires |m| < FRAME_LIMIT
    ensures TakeFrame(Frame(m)) == Some((m, []))
  {
    TakeWhole(m, []);
    assert Frame(m) + [] == Frame(m);
  }

  lemma ReplySize(s: Suite, f: FirmwareSide, m1: bytes, m2: bytes, m: M2, r: Reply)
    requires Sized(s) && Replies(s, f, m1, m2, m, r)
    ensures |r.m3| == 802
  {
    hide Hmac, Fips180.Sha256, Rfc5869.Expand;
    FieldLength(s.encapsulate(m.pk, f.coins).ct);
  }

  /** The real hash and HMAC over a correct KEM and signature of the right lengths that keep no secret. */
  function SizedSuite(): Suite {
    Suite((m: bytes) => Fips180.Sha256(m), (k: bytes, m: bytes) => Hmac(k, m),
          (seed: bytes) => KeyPair(Zeros(800), Zeros(1632)),
          (pk: bytes, coins: bytes) => Encapsulated(Zeros(32), Zeros(768)),
          (sk: bytes, ct: bytes) => Zeros(32),
          (seed: bytes) => KeyPair(Zeros(1312), Zeros(2560)),
          (sk: bytes, m: bytes, coins: bytes) => Zeros(2420),
          (pk: bytes, m: bytes, signature: bytes) => true)
  }

  /** The hypotheses of the cross run can be met, and with a signature that is good for every hash it goes through. */
  lemma CrossRunsExist(anchor: bytes, coins: bytes)
    requires |anchor| == 32
    ensures
      var s, kp := SizedSuite(), KeyPair(Zeros(800), Zeros(1632));
      var v := ServerSide(kp.pk, anchor, KeyPair(Zeros(1312), Zeros(2560)), kp, coins, coins, coins);
      var f := FirmwareSide(kp.sk, anchor, v.sigKeys.pk, kp, coins);
      Provisioned(s, v, f) && Continues(s, v.sigKeys.pk, ServerHelloFor(s, v, Hello(kp.pk)))
  {
    hide Fips180.Sha256, Hmac, FirmwareSigned, PythonSigned, TestNonce, Ascii;
    var s := SizedSuite();
    assert s.kemKeygen([]) == KeyPair(Zeros(800), Zeros(1632));
    assert s.sigKeygen([]) == KeyPair(Zeros(1312), Zeros(2560));
  }
}
