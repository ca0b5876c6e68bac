/** What the RIA-QKD handshake promises: agreement against any network, and completion of every honest run. */
module Agreement {
  import opened Bytes
  import opened Message
  import opened Utf8
  import opened Handshake

  // ---------- agreement or an explicit collision ----------

  /** Either nothing, or two concrete inputs on which a primitive collides. */
  datatype Evidence =
    | NoCollision
    | HashCollision(m: bytes, m': bytes)
    | MacCollision(key: bytes, text: bytes, key': bytes, text': bytes)
  {
    ghost predicate Holds(s: Suite) {
      match this
      case NoCollision => true
      case HashCollision(m, m') => m != m' && s.hash(m) == s.hash(m')
      case MacCollision(k, t, k', t') => (k, t) != (k', t') && s.hmac(k, t) == s.hmac(k', t')
    }
  }

  /** Compares two HMAC inputs that gave the same tag. */
  function CompareMac(key: bytes, text: bytes, key': bytes, text': bytes): Evidence {
    if (key, text) != (key', text') then MacCollision(key, text, key', text') else NoCollision
  }

  function CompareHash(m: bytes, m': bytes): Evidence {
    if m != m' then HashCollision(m, m') else NoCollision
  }

  function First(a: Evidence, b: Evidence): Evidence {
    if a.NoCollision? then b else a
  }

  /** Where two runs whose extracted keys are equal can differ: in the application key or the three KEM secrets. */
  function SecretsEvidence(s: Suite, a: Inputs, b: Inputs): Evidence {
    CompareMac(s.Salt(a.applicationKey), a.ikm, s.Salt(b.applicationKey), b.ikm)
  }

  /** The two derivations of the finished key, from 32-octet keys. */
  function ExpandEvidence(s: Suite, a: Inputs, b: Inputs): Evidence {
    CompareMac(a.Prk(s), a.FinishedInfo(s) + [0x01], b.Prk(s), b.FinishedInfo(s) + [0x01])
  }

  /** Where two runs of the key schedule that gave the same client tag can differ above the secrets. */
  function ClientTagEvidence(s: Suite, a: Inputs, b: Inputs): Evidence {
    First(CompareMac(a.FinishedKey(s), a.Tr(s) + CL_FIN, b.FinishedKey(s), b.Tr(s) + CL_FIN),
          First(CompareHash(a.Transcript(), b.Transcript()), ExpandEvidence(s, a, b)))
  }

  /** The same for the server tag over the CLIENT_FINISHED octets f and g. */
  function ServerTagEvidence(s: Suite, a: Inputs, f: bytes, b: Inputs, g: bytes): Evidence {
    First(CompareMac(a.FinishedKey(s), a.Tr2(s, f) + SV_FIN, b.FinishedKey(s), b.Tr2(s, g) + SV_FIN),
          First(CompareHash(a.Tr(s) + f, b.Tr(s) + g),
                First(CompareHash(a.Transcript(), b.Transcript()), ExpandEvidence(s, a, b))))
  }

  /** b is the byte form of some message. */
  ghost predicate IsEncoding(b: bytes) {
    exists m :: Encode(m) == Ok(b) && Genuine(m)
  }

  ghost predicate WellFormed(i: Inputs) {
    IsEncoding(i.hello) && IsEncoding(i.serverHello)
  }

  /** One exchange and one set of keys. */
  ghost predicate SameSession(s: Suite, a: Inputs, b: Inputs) {
    && a.hello == b.hello
    && a.serverHello == b.serverHello
    && a.ct == b.ct
    && a.Prk(s) == b.Prk(s)
    && a.FinishedKey(s) == b.FinishedKey(s)
    && a.SessionKey(s) == b.SessionKey(s)
  }

  /** The same application key, as HMAC sees it, and the same three KEM secrets; or the named pair collides. */
  ghost predicate SecretsBound(s: Suite, a: Inputs, b: Inputs) {
    && SecretsEvidence(s, a, b).Holds(s)
    && (SecretsEvidence(s, a, b).NoCollision? ==>
          s.Salt(a.applicationKey) == s.Salt(b.applicationKey) && a.ikm == b.ikm)
  }

  lemma SameTranscript(a: Inputs, b: Inputs)
    requires WellFormed(a) && WellFormed(b)
    requires a.Transcript() == b.Transcript()
    ensures a.hello == b.hello && a.serverHello == b.serverHello && a.ct == b.ct
  {
    hide Encode, Genuine;
    var m1 :| Encode(m1) == Ok(a.hello) && Genuine(m1);
    var m2 :| Encode(m2) == Ok(a.serverHello) && Genuine(m2);
    var n1 :| Encode(n1) == Ok(b.hello) && Genuine(n1);
    var n2 :| Encode(n2) == Ok(b.serverHello) && Genuine(n2);
    TranscriptUnambiguous(m1, m2, a.ct, n1, n2, b.ct);
  }

  /** What the two runs hash can be taken apart in one way only. */
  ghost predicate Unambiguous(a: Inputs, b: Inputs) {
    a.Transcript() == b.Transcript() ==> a.hello == b.hello && a.serverHello == b.serverHello && a.ct == b.ct
  }

  /** Equal client tags: the same session, or the evidence is a real collision. */
  lemma ClientTagAgreement(s: Suite, a: Inputs, b: Inputs)
    requires Unambiguous(a, b)
    requires a.ClientTag(s) == b.ClientTag(s)
    ensures ClientTagEvidence(s, a, b).Holds(s)
    ensures ClientTagEvidence(s, a, b).NoCollision? ==> SameSession(s, a, b) && SecretsBound(s, a, b)
  {
    if !ClientTagEvidence(s, a, b).NoCollision? {
      assert a.Tr(s) + CL_FIN == b.Tr(s) + CL_FIN ==> a.Tr(s) == b.Tr(s) by {
        SuffixCancels(a.Tr(s), b.Tr(s), CL_FIN);
      }
    }
  }

  /** Equal server tags: the same session and the same CLIENT_FINISHED octets, or a real collision. */
  lemma ServerTagAgreement(s: Suite, a: Inputs, f: bytes, b: Inputs, g: bytes)
    requires s.DigestSized() && Unambiguous(a, b)
    requires a.ServerTag(s, f) == b.ServerTag(s, g)
    ensures ServerTagEvidence(s, a, f, b, g).Holds(s)
    ensures ServerTagEvidence(s, a, f, b, g).NoCollision? ==>
      SameSession(s, a, b) && SecretsBound(s, a, b) && f == g
  {
    SuffixCancels(a.Tr2(s, f), b.Tr2(s, g), SV_FIN);
    if a.Tr(s) + f == b.Tr(s) + g {
      assert (a.Tr(s) + f)[..32] == a.Tr(s) && (b.Tr(s) + g)[..32] == b.Tr(s);
      assert (a.Tr(s) + f)[32..] == f && (b.Tr(s) + g)[32..] == g;
    }
  }

  /** The finished key and the session key of one run are different, or HMAC collides on two texts that differ. */
  lemma KeysSeparate(s: Suite, i: Inputs)
    requires i.FinishedKey(s) == i.SessionKey(s)
    ensures MacCollision(i.Prk(s), i.FinishedInfo(s) + [0x01], i.Prk(s), Ascii("session") + i.Tr(s) + [0x01]).Holds(s)
  {
    var f, g := i.FinishedInfo(s) + [0x01], Ascii("session") + i.Tr(s) + [0x01];
    assert f[0] == Ascii("finished")[0] && g[0] == Ascii("session")[0];
  }

  /** A client tag is never good as a server tag, of the same run or of another one, or HMAC collides. */
  lemma NoReflection(s: Suite, a: Inputs, b: Inputs, finished: bytes)
    requires a.ClientTag(s) == b.ServerTag(s, finished)
    ensures MacCollision(a.FinishedKey(s), a.Tr(s) + CL_FIN, b.FinishedKey(s), b.Tr2(s, finished) + SV_FIN).Holds(s)
  {
    var t, u := a.Tr(s) + CL_FIN, b.Tr2(s, finished) + SV_FIN;
    assert t[|t| - 6] == Ascii("CL_FIN")[0] && u[|u| - 6] == Ascii("SV_FIN")[0];
  }

  /**
    What the server signs binds the whole exchange: equal signed hashes mean the same identities, hello, and key and
    ciphertexts in a row, or SHA-256 collides. Nothing delimits the parts: the identities need the same length
    together, and the key and ciphertexts are the same field by field exactly when their lengths agree.
   */
  lemma SignatureBinds(s: Suite, serverId: bytes, clientId: bytes,
                       m: ProtocolMessage, pk: bytes, ct1: bytes, ct2: bytes,
                       serverId': bytes, clientId': bytes,
                       m': ProtocolMessage, pk': bytes, ct1': bytes, ct2': bytes)
    requires Encode(m).Ok? && Genuine(m) && Encode(m').Ok? && Genuine(m')
    requires |serverId| + |clientId| == |serverId'| + |clientId'|
    requires SignedHash(s, serverId, clientId, Encode(m).value, pk, ct1, ct2)
             == SignedHash(s, serverId', clientId', Encode(m').value, pk', ct1', ct2')
    ensures
      var text := Ascii("RIA-QKD-V1-Server") + serverId + clientId + Encode(m).value + pk + ct1 + ct2;
      var text' := Ascii("RIA-QKD-V1-Server") + serverId' + clientId' + Encode(m').value + pk' + ct1' + ct2';
      && CompareHash(text, text').Holds(s)
      && (CompareHash(text, text').NoCollision? ==>
            && serverId + clientId == serverId' + clientId'
            && Encode(m) == Encode(m') && pk + ct1 + ct2 == pk' + ct1' + ct2'
            && (pk == pk' && ct1 == ct1' && ct2 == ct2' <==> |pk| == |pk'| && |ct1| == |ct1'|))
  {
    hide Encode, Genuine, Ascii;
    var pre, pre' := SIGNATURE_PREFIX + serverId + clientId, SIGNATURE_PREFIX + serverId' + clientId';
    var b, b' := Encode(m).value, Encode(m').value;
    var tail, tail' := pk + ct1 + ct2, pk' + ct1' + ct2';
    assert pre + b + pk + ct1 + ct2 == pre + (b + tail);
    assert pre' + b' + pk' + ct1' + ct2' == pre' + (b' + tail');
    if pre + (b + tail) == pre' + (b' + tail') {
      assert (pre + (b + tail))[..|pre|] == pre && (pre' + (b' + tail'))[..|pre|] == pre';
      assert pre == SIGNATURE_PREFIX + (serverId + clientId) && pre' == SIGNATURE_PREFIX + (serverId' + clientId');
      assert pre[|SIGNATURE_PREFIX|..] == serverId + clientId && pre'[|SIGNATURE_PREFIX|..] == serverId' + clientId';
      assert (pre + (b + tail))[|pre|..] == b + tail;
      assert (pre' + (b' + tail'))[|pre|..] == b' + tail';
      PrefixFree(m, tail, m', tail');
      FieldsOf(pk, ct1, ct2);
      FieldsOf(pk', ct1', ct2');
    }
  }

  lemma FieldsOf(a: bytes, b: bytes, c: bytes)
    ensures
      var t := a + b + c;
      t[..|a|] == a && t[|a|..|a| + |b|] == b && t[|a| + |b|..] == c
  {}

  /** The lengths matter: an octet moved from the key to the ciphertext leaves the signed hash as it is. */
  lemma SignatureShift(s: Suite, serverId: bytes, clientId: bytes, hello: bytes,
                       pk: bytes, x: byte, ct1: bytes, ct2: bytes)
    ensures SignedHash(s, serverId, clientId, hello, pk + [x], ct1, ct2)
            == SignedHash(s, serverId, clientId, hello, pk, [x] + ct1, ct2)
    ensures pk + [x] != pk
  {
    var pre := SIGNATURE_PREFIX + serverId + clientId + hello;
    assert pre + (pk + [x]) + ct1 + ct2 == pre + pk + ([x] + ct1) + ct2;
  }

  /** ... and so does a first hello that is taken into the identity. */
  lemma IdentityShift(s: Suite, serverId: bytes, clientId: bytes, hello: bytes, hello': bytes,
                      pk: bytes, ct1: bytes, ct2: bytes)
    ensures SignedHash(s, serverId, clientId + hello, hello', pk, ct1, ct2)
            == SignedHash(s, serverId, clientId, hello, hello' + pk, ct1, ct2)
  {
    var pre := SIGNATURE_PREFIX + serverId;
    assert pre + (clientId + hello) + hello' + pk + ct1 + ct2 == pre + clientId + hello + (hello' + pk) + ct1 + ct2;
  }

  lemma SuffixCancels(a: bytes, b: bytes, suffix: bytes)
    ensures a + suffix == b + suffix ==> a == b
  {
    if a + suffix == b + suffix {
      assert |a| == |b|;
      assert (a + suffix)[..|a|] == a && (b + suffix)[..|b|] == b;
    }
  }

  // ---------- the parties ----------

  /** The inputs behind the keys of a client that took this SERVER_HELLO. */
  function ClientView(s: Suite, c: ClientState, msg: ProtocolMessage, coins: bytes): Inputs
    requires c.ephemeral.Some? && c.transcript != [] && Encode(msg).Ok?
  {
    var p := msg.payload;
    ClientInputs(s, c, Encode(msg).value, Got(p, PK_SERVER_EPH), Got(p, CT_STATIC), Got(p, CT_EPHEMERAL), coins)
  }

  /** The inputs behind the keys of a server that took this CLIENT_FINISHED. */
  function ServerView(s: Suite, v: ServerState, msg: ProtocolMessage): Inputs
    requires v.pending.Some? && |v.transcript| >= 2
  {
    ServerInputs(s, v, Got(msg.payload, CT_CLIENT))
  }

  function Got(payload: seq<Field>, key: bytes): bytes {
    match Get(payload, key)
    case Some(b) => b
    case None => []
  }

  /** A client after its CLIENT_HELLO, starting from a fresh object. */
  ghost predicate ClientStarted(s: Suite, c: ClientState) {
    && c.ephemeral.Some?
    && |c.transcript| == 1 && IsEncoding(c.transcript[0])
  }

  /** A server after its SERVER_HELLO, starting from a fresh object. */
  ghost predicate ServerStarted(s: Suite, v: ServerState) {
    && v.pending.Some?
    && |v.transcript| == 2 && IsEncoding(v.transcript[0]) && IsEncoding(v.transcript[1])
  }

  /** What a successful `process_server_hello` leaves in the client. */
  ghost predicate ClientHolds(s: Suite, c: ClientState, i: Inputs, finished: bytes) {
    && c.transcript == [i.hello, i.serverHello, finished]
    && c.transcriptHash == Some(i.Tr(s))
    && c.finishedKey == Some(i.FinishedKey(s))
    && c.sessionKey == Some(i.SessionKey(s))
  }

  /** What `process_client_finished` leaves in the server. */
  ghost predicate ServerHolds(s: Suite, v: ServerState, i: Inputs, finished: bytes) {
    && v.transcript == [i.hello, i.serverHello, finished]
    && v.transcriptHash == Some(i.Tr(s))
    && v.finishedKey == Some(i.FinishedKey(s))
    && v.sessionKey == Some(i.SessionKey(s))
  }

  // ---------- field names ----------

  lemma AsciiDiffers(a: string, b: string, i: nat)
    requires i < |a| && i < |b| && a[i] != b[i] && a[i] < 128 as char && b[i] < 128 as char
    ensures Ascii(a) != Ascii(b)
  {
    assert Ascii(a)[i] != Ascii(b)[i];
  }

  lemma FieldNames()
    ensures Genuine(ClientHello([], [], [], []))
    ensures Genuine(ServerHello([], [], [], []))
    ensures Genuine(ClientFinished([], []))
    ensures Genuine(ServerFinished([]))
  {
    hide IsUtf8, Ascii;
    TypeNames();
    HelloNames();
    ReplyNames();
  }

  lemma {:induction false} AsciiIsText(s: string)
    requires forall i :: 0 <= i < |s| ==> s[i] < 128 as char
    ensures IsUtf8(Ascii(s))
  {
    SevenBit(Ascii(s));
  }

  lemma TypeNames()
    ensures IsUtf8(CLIENT_HELLO) && IsUtf8(SERVER_HELLO) && IsUtf8(CLIENT_FINISHED) && IsUtf8(SERVER_FINISHED)
  {
    hide IsUtf8, Ascii;
    AsciiIsText("CLIENT_HELLO");
    AsciiIsText("SERVER_HELLO");
    AsciiIsText("CLIENT_FINISHED");
    AsciiIsText("SERVER_FINISHED");
  }

  lemma HelloNames()
    ensures DistinctKeys(ClientHello([], [], [], []).payload) && TextKeys(ClientHello([], [], [], []).payload)
  {
    hide IsUtf8;
    AsciiDiffers("epoch", "nonce", 0);
    AsciiIsText("client_id");
    AsciiIsText("epoch");
    AsciiIsText("nonce");
    AsciiIsText("pk_ephemeral");
  }

  lemma ReplyNames()
    ensures DistinctKeys(ServerHello([], [], [], []).payload) && TextKeys(ServerHello([], [], [], []).payload)
    ensures DistinctKeys(ClientFinished([], []).payload) && TextKeys(ClientFinished([], []).payload)
    ensures DistinctKeys(ServerFinished([]).payload) && TextKeys(ServerFinished([]).payload)
  {
    hide IsUtf8;
    AsciiDiffers("ct_static", "signature", 0);
    AsciiIsText("pk_server_eph");
    AsciiIsText("ct_static");
    AsciiIsText("ct_ephemeral");
    AsciiIsText("signature");
    AsciiIsText("ct_client");
    AsciiIsText("mac");
  }

  lemma MessagesAreGenuine(a: bytes, b: bytes, c: bytes, d: bytes)
    ensures Genuine(ClientHello(a, b, c, d))
    ensures Genuine(ServerHello(a, b, c, d))
    ensures Genuine(ClientFinished(a, b))
    ensures Genuine(ServerFinished(a))
  {
    hide IsUtf8, Ascii;
    FieldNames();
    SameNames(ClientHello(a, b, c, d), ClientHello([], [], [], []));
    SameNames(ServerHello(a, b, c, d), ServerHello([], [], [], []));
    SameNames(ClientFinished(a, b), ClientFinished([], []));
    SameNames(ServerFinished(a), ServerFinished([]));
  }

  lemma SameNames(m: ProtocolMessage, n: ProtocolMessage)
    requires m.msgType == n.msgType && |m.payload| == |n.payload| && Genuine(n)
    requires forall i :: 0 <= i < |m.payload| ==> m.payload[i].key == n.payload[i].key
    ensures Genuine(m)
  {
    hide IsUtf8;
  }

  lemma {:induction false} GetAt(payload: seq<Field>, i: nat)
    requires i < |payload| && DistinctKeys(payload)
    ensures Get(payload, payload[i].key) == Some(payload[i].value.Octets())
  {
    if i > 0 {
      assert payload[0].key != payload[i].key;
      GetAt(payload[1..], i - 1);
    }
  }

  lemma {:induction false} GetReceived(payload: seq<Field>, key: bytes)
    ensures Get(AsRaw(payload), key) == Get(payload, key)
  {
    if payload != [] {
      GetReceived(payload[1..], key);
      assert AsRaw(payload)[1..] == AsRaw(payload[1..]);
    }
  }

  // ---------- each call, from a fresh object ----------

  lemma StartGives(s: Suite, c: ClientState, seed: bytes, nonce: bytes)
    requires c.transcript == [] && StartHandshake(s, c, seed, nonce).result.Ok?
    ensures
      var Step(r, c') := StartHandshake(s, c, seed, nonce);
      && r.value == ClientHello(c.clientId, c.epoch, nonce, s.kemKeygen(seed).pk) && Encode(r.value).Ok?
      && ClientStarted(s, c')
      && c'.transcript == [Encode(r.value).value] && c'.ephemeral == Some(s.kemKeygen(seed))
  {
    hide Encode, Genuine;
    var kp := s.kemKeygen(seed);
    MessagesAreGenuine(c.clientId, c.epoch, nonce, kp.pk);
  }

  /** The client named in the hello, its key and the two encapsulations are what the server keeps and answers with. */
  lemma ServerHelloGives(s: Suite, v: ServerState, msg: ProtocolMessage, r: HelloCoins)
    requires v.transcript == [] && Genuine(msg) && ProcessClientHello(s, v, msg, r).result.Ok?
    ensures
      var Step(reply, v') := ProcessClientHello(s, v, msg, r);
      var id, p := Got(msg.payload, CLIENT_ID), v'.pending.value;
      && ServerStarted(s, v') && id in v.enrolled
      && Encode(msg).Ok? && Encode(reply.value).Ok?
      && v'.transcript == [Encode(msg).value, Encode(reply.value).value]
      && p.clientId == id && p.nonce == Got(msg.payload, NONCE) && p.ephemeral == s.kemKeygen(r.seed)
      && p.applicationKey
         == ServerApplicationKey(s, v, id, if Get(msg.payload, EPOCH).Some? then Got(msg.payload, EPOCH) else EPOCH_1)
      && (exists ct1, ct2, signature ::
            && reply.value == ServerHello(p.ephemeral.pk, ct1, ct2, signature)
            && s.encapsulate(v.enrolled[id], r.forStatic) == Encapsulated(p.k1, ct1)
            && s.encapsulate(Got(msg.payload, PK_EPHEMERAL), r.forEphemeral) == Encapsulated(p.k2, ct2)
            && signature == s.sign(v.sigKeys.sk, SignedHash(s, v.serverId, id, Encode(msg).value,
                                                            p.ephemeral.pk, ct1, ct2), r.signing))
  {
    hide Encode, Get, Genuine, SignedHash, IsUtf8;
    var Step(reply, v') := ProcessClientHello(s, v, msg, r);
    var fields := reply.value.payload;
    MessagesAreGenuine(fields[0].value.Octets(), fields[1].value.Octets(),
                       fields[2].value.Octets(), fields[3].value.Octets());
    var id := Got(msg.payload, CLIENT_ID);
    var e1 := s.encapsulate(v.enrolled[id], r.forStatic);
    var e2 := s.encapsulate(Got(msg.payload, PK_EPHEMERAL), r.forEphemeral);
    assert [] + [Encode(msg).value] == [Encode(msg).value];
    assert e1 == Encapsulated(e1.secret, e1.ct) && e2 == Encapsulated(e2.secret, e2.ct);
    var kp := s.kemKeygen(r.seed);
    var signed := SignedHash(s, v.serverId, id, Encode(msg).value, kp.pk, e1.ct, e2.ct);
    assert reply.value == ServerHello(kp.pk, e1.ct, e2.ct, s.sign(v.sigKeys.sk, signed, r.signing));
  }

  lemma ClientFinishedGives(s: Suite, c: ClientState, msg: ProtocolMessage, pk: bytes, coins: bytes)
    requires ClientStarted(s, c) && Genuine(msg)
    requires ProcessServerHello(s, c, msg, pk, coins).result.Ok?
    ensures
      var Step(r, c') := ProcessServerHello(s, c, msg, pk, coins);
      var i := ClientView(s, c, msg, coins);
      && WellFormed(i)
      && r.value == ClientFinished(i.ct, i.ClientTag(s)) && Encode(r.value).Ok?
      && ClientHolds(s, c', i, Encode(r.value).value)
  {
    hide Encode, Get, Genuine, SignedHash;
  }

  lemma ServerFinishedGives(s: Suite, v: ServerState, msg: ProtocolMessage)
    requires ServerStarted(s, v)
    requires ProcessClientFinished(s, v, msg).result.Ok?
    ensures
      var Step(r, v') := ProcessClientFinished(s, v, msg);
      var i := ServerView(s, v, msg);
      && WellFormed(i) && Encode(msg).Ok?
      && ServerHolds(s, v', i, Encode(msg).value)
      && (r.value.Some? <==> Get(msg.payload, MAC) == Some(i.ClientTag(s)))
      && (r.value.Some? ==> v'.accepted && r.value.value == ServerFinished(i.ServerTag(s, Encode(msg).value)))
      && (r.value.None? ==> v'.accepted == v.accepted)
  {
    hide Encode, Get, Genuine, SignedHash;
    assert (v.transcript + [Encode(msg).value])[..2] == v.transcript;
  }

  /** Two parties in the same session. */
  ghost predicate Agree(c: ClientState, v: ServerState) {
    && |c.transcript| >= 2 && |v.transcript| >= 2
    && c.transcript[0] == v.transcript[0]
    && c.transcript[1] == v.transcript[1]
    && c.transcriptHash == v.transcriptHash
    && c.finishedKey == v.finishedKey && c.finishedKey.Some?
    && c.sessionKey == v.sessionKey && c.sessionKey.Some?
  }

  /**
    A server that accepts a tag some client step emitted shares that client's session, whatever the network did to
    the messages, or the run names two inputs on which SHA-256 or HMAC under a 32-octet key collides. Below that, the
    application keys and the KEM secrets agree too, or the one extraction they enter collides.
   */
  lemma ServerAcceptance(s: Suite, c: ClientState, sh: ProtocolMessage, pk: bytes, coins: bytes,
                         v: ServerState, fin: ProtocolMessage)
    requires ClientStarted(s, c) && Genuine(sh)
    requires ProcessServerHello(s, c, sh, pk, coins).result.Ok?
    requires ServerStarted(s, v)
    requires ProcessClientFinished(s, v, fin).result.Ok? && ProcessClientFinished(s, v, fin).result.value.Some?
    requires Get(fin.payload, MAC) == Get(ProcessServerHello(s, c, sh, pk, coins).result.value.payload, MAC)
    ensures
      var a, b := ClientView(s, c, sh, coins), ServerView(s, v, fin);
      var e := ClientTagEvidence(s, a, b);
      && e.Holds(s)
      && (e.NoCollision? ==>
            && Agree(ProcessServerHello(s, c, sh, pk, coins).state, ProcessClientFinished(s, v, fin).state)
            && a.ct == Got(fin.payload, CT_CLIENT)
            && Got(ProcessServerHello(s, c, sh, pk, coins).result.value.payload, CT_CLIENT) == a.ct
            && SecretsBound(s, a, b))
  {
    var a, b := ClientView(s, c, sh, coins), ServerView(s, v, fin);
    ClientFinishedGives(s, c, sh, pk, coins);
    ServerFinishedGives(s, v, fin);
    var p := ClientFinished(a.ct, a.ClientTag(s)).payload;
    MessagesAreGenuine(a.ct, a.ClientTag(s), [], []);
    GetAt(p, 0);
    GetAt(p, 1);
    if a.Transcript() == b.Transcript() {
      SameTranscript(a, b);
    }
    ClientTagAgreement(s, a, b);
  }

  /** The same for a client that accepts a tag some server step emitted; it also fixes the CLIENT_FINISHED octets. */
  lemma ClientAcceptance(s: Suite, c: ClientState, sh: ProtocolMessage, pk: bytes, coins: bytes, sf: ProtocolMessage,
                         v: ServerState, fin: ProtocolMessage)
    requires s.DigestSized()
    requires ClientStarted(s, c) && Genuine(sh)
    requires ProcessServerHello(s, c, sh, pk, coins).result.Ok?
    requires ServerStarted(s, v)
    requires ProcessClientFinished(s, v, fin).result.Ok? && ProcessClientFinished(s, v, fin).result.value.Some?
    requires ProcessServerFinished(s, ProcessServerHello(s, c, sh, pk, coins).state, sf).result == Ok(true)
    requires Get(sf.payload, MAC) == Get(ProcessClientFinished(s, v, fin).result.value.value.payload, MAC)
    ensures
      var c' := ProcessServerHello(s, c, sh, pk, coins).state;
      var v' := ProcessClientFinished(s, v, fin).state;
      var a, b := ClientView(s, c, sh, coins), ServerView(s, v, fin);
      var e := ServerTagEvidence(s, a, c'.transcript[2], b, v'.transcript[2]);
      && e.Holds(s)
      && (e.NoCollision? ==>
            && Agree(c', v') && c'.transcript == v'.transcript
            && SecretsBound(s, a, b))
  {
    var c' := ProcessServerHello(s, c, sh, pk, coins).state;
    var v' := ProcessClientFinished(s, v, fin).state;
    var a, b := ClientView(s, c, sh, coins), ServerView(s, v, fin);
    ClientFinishedGives(s, c, sh, pk, coins);
    ServerFinishedGives(s, v, fin);
    var tag := b.ServerTag(s, Encode(fin).value);
    MessagesAreGenuine(tag, [], [], []);
    GetAt(ServerFinished(tag).payload, 0);
    if a.Transcript() == b.Transcript() {
      SameTranscript(a, b);
    }
    ServerTagAgreement(s, a, c'.transcript[2], b, v'.transcript[2]);
  }
}
