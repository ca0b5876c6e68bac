/** Completion of the RIA-QKD handshake: what an honest run ends in, and how many octets it takes. */
module HonestRun {
  import opened Bytes
  import opened Message
  import opened Handshake
  import opened Agreement
  import opened Utf8

  /** A message handed over directly, or through its byte form. */
  function Deliver(m: ProtocolMessage, wire: bool): ProtocolMessage {
    if wire && Encode(m).Ok? && Decode(Encode(m).value).Ok? then Decode(Encode(m).value).value else m
  }

  /** The receiver cannot tell the two deliveries apart. */
  ghost predicate SameContent(m: ProtocolMessage, d: ProtocolMessage) {
    && d.msgType == m.msgType
    && Encode(d) == Encode(m)
    && forall key :: Get(d.payload, key) == Get(m.payload, key)
  }

  lemma DeliveredSame(m: ProtocolMessage, wire: bool)
    requires Encode(m).Ok? && Genuine(m)
    ensures SameContent(m, Deliver(m, wire))
  {
    if wire {
      RoundTrip(m);
      Reencode(m);
      forall key
        ensures Get(AsRaw(m.payload), key) == Get(m.payload, key)
      {
        GetReceived(m.payload, key);
      }
    }
  }

  // ---------- every message of an honest run can be encoded and read ----------

  lemma ClientHelloReads(id: bytes, epoch: bytes, nonce: bytes, pk: bytes, wire: bool)
    requires Fits(id) && Fits(epoch) && Fits(nonce) && Fits(pk)
    ensures
      var m := ClientHello(id, epoch, nonce, pk);
      var p := Deliver(m, wire).payload;
      && Encode(m).Ok? && SameContent(m, Deliver(m, wire))
      && Get(p, CLIENT_ID) == Some(id) && Get(p, EPOCH) == Some(epoch)
      && Get(p, NONCE) == Some(nonce) && Get(p, PK_EPHEMERAL) == Some(pk)
  {
    hide Encode, Get, Deliver, IsUtf8, TextKeys, Ascii;
    var m := ClientHello(id, epoch, nonce, pk);
    EncodesIff(m);
    MessagesAreGenuine(id, epoch, nonce, pk);
    DeliveredSame(m, wire);
    GetAt(m.payload, 0);
    GetAt(m.payload, 1);
    GetAt(m.payload, 2);
    GetAt(m.payload, 3);
  }

  lemma ServerHelloReads(pk: bytes, ct1: bytes, ct2: bytes, signature: bytes, wire: bool)
    requires Fits(pk) && Fits(ct1) && Fits(ct2) && Fits(signature)
    ensures
      var m := ServerHello(pk, ct1, ct2, signature);
      var p := Deliver(m, wire).payload;
      && Encode(m).Ok? && SameContent(m, Deliver(m, wire))
      && Get(p, PK_SERVER_EPH) == Some(pk) && Get(p, CT_STATIC) == Some(ct1)
      && Get(p, CT_EPHEMERAL) == Some(ct2) && Get(p, SIGNATURE) == Some(signature)
  {
    hide Encode, Get, Deliver, IsUtf8, TextKeys, Ascii;
    var m := ServerHello(pk, ct1, ct2, signature);
    EncodesIff(m);
    MessagesAreGenuine(pk, ct1, ct2, signature);
    DeliveredSame(m, wire);
    GetAt(m.payload, 0);
    GetAt(m.payload, 1);
    GetAt(m.payload, 2);
    GetAt(m.payload, 3);
  }

  lemma FinishedReads(ct: bytes, mac: bytes, wire: bool)
    requires Fits(ct) && Fits(mac)
    ensures
      var m := ClientFinished(ct, mac);
      var p := Deliver(m, wire).payload;
      && Encode(m).Ok? && SameContent(m, Deliver(m, wire))
      && Get(p, CT_CLIENT) == Some(ct) && Get(p, MAC) == Some(mac)
    ensures
      var m := ServerFinished(mac);
      && Encode(m).Ok? && SameContent(m, Deliver(m, wire)) && Get(Deliver(m, wire).payload, MAC) == Some(mac)
  {
    hide Encode, Get, Deliver, IsUtf8, TextKeys, Ascii;
    var m, m' := ClientFinished(ct, mac), ServerFinished(mac);
    EncodesIff(m);
    EncodesIff(m');
    MessagesAreGenuine(ct, mac, [], []);
    MessagesAreGenuine(mac, [], [], []);
    DeliveredSame(m, wire);
    DeliveredSame(m', wire);
    GetAt(m.payload, 0);
    GetAt(m.payload, 1);
    GetAt(m'.payload, 0);
  }

  // ---------- the run ----------

  /** Randomness and the four delivery choices of one run. */
  datatype Choices = Choices(seed: bytes, nonce: bytes, server: HelloCoins, coins: bytes,
                             wire1: bool, wire2: bool, wire3: bool, wire4: bool)

  /** Fresh objects, an enrolled client, matching identities and a matching application key. */
  ghost predicate Honest(s: Suite, c: ClientState, v: ServerState, x: Choices) {
    && s.DigestSized() && s.Correct() && s.Fits()
    && c.transcript == [] && v.transcript == []
    && (exists seed :: c.staticKeys == s.kemKeygen(seed))
    && (exists seed :: v.sigKeys == s.sigKeygen(seed))
    && c.clientId in v.enrolled && v.enrolled[c.clientId] == c.staticKeys.pk
    && v.serverId == c.expectedServerId
    && c.applicationKey == ServerApplicationKey(s, v, c.clientId, c.epoch)
    && IsUtf8(c.clientId) && Fits(c.clientId) && Fits(c.epoch) && Fits(x.nonce)
  }

  /** The five calls of a run; each argument is what the call before it returned, as delivered. */
  datatype Trace = Trace(hello: Step<ClientState, ProtocolMessage>, serverHello: Step<ServerState, ProtocolMessage>,
                         finished: Step<ClientState, ProtocolMessage>,
                         serverFinished: Step<ServerState, Option<ProtocolMessage>>,
                         accept: Step<ClientState, bool>)

  ghost predicate IsRun(s: Suite, c: ClientState, v: ServerState, x: Choices, t: Trace) {
    && t.hello == StartHandshake(s, c, x.seed, x.nonce)
    && (t.hello.result.Ok? ==>
          t.serverHello == ProcessClientHello(s, v, Deliver(t.hello.result.value, x.wire1), x.server))
    && (t.serverHello.result.Ok? ==>
          t.finished == ProcessServerHello(s, t.hello.state, Deliver(t.serverHello.result.value, x.wire2),
                                           v.sigKeys.pk, x.coins))
    && (t.finished.result.Ok? ==>
          t.serverFinished == ProcessClientFinished(s, t.serverHello.state, Deliver(t.finished.result.value, x.wire3)))
    && (t.serverFinished.result.Ok? && t.serverFinished.result.value.Some? ==>
          t.accept == ProcessServerFinished(s, t.finished.state, Deliver(t.serverFinished.result.value.value, x.wire4)))
  }

  // How far a run got, and the octets of the messages it produced.

  ghost predicate Reached1(t: Trace) {
    t.hello.result.Ok? && Encode(t.hello.result.value).Ok?
  }

  ghost predicate Reached2(t: Trace) {
    Reached1(t) && t.serverHello.result.Ok? && Encode(t.serverHello.result.value).Ok?
  }

  ghost predicate Reached3(t: Trace) {
    Reached2(t) && t.finished.result.Ok? && Encode(t.finished.result.value).Ok?
  }

  ghost predicate Reached4(t: Trace) {
    && Reached3(t) && t.serverFinished.result.Ok? && t.serverFinished.result.value.Some?
    && Encode(t.serverFinished.result.value.value).Ok?
  }

  ghost function Octets1(t: Trace): bytes requires Reached1(t) { Encode(t.hello.result.value).value }
  ghost function Octets2(t: Trace): bytes requires Reached2(t) { Encode(t.serverHello.result.value).value }
  ghost function Octets3(t: Trace): bytes requires Reached3(t) { Encode(t.finished.result.value).value }
  ghost function Octets4(t: Trace): bytes requires Reached4(t) { Encode(t.serverFinished.result.value.value).value }

  lemma HonestHello(s: Suite, c: ClientState, v: ServerState, x: Choices, t: Trace)
    requires Honest(s, c, v, x) && IsRun(s, c, v, x, t)
    ensures Reached1(t)
    ensures t.hello.result.value == ClientHello(c.clientId, c.epoch, x.nonce, s.kemKeygen(x.seed).pk)
    ensures t.hello.state == c.(ephemeral := Some(s.kemKeygen(x.seed)), nonce := Some(x.nonce),
                                transcript := [Octets1(t)], sent := c.sent + |Octets1(t)|)
  {
    hide Encode;
    ClientHelloReads(c.clientId, c.epoch, x.nonce, s.kemKeygen(x.seed).pk, false);
  }

  lemma HonestServerHello(s: Suite, c: ClientState, v: ServerState, x: Choices, t: Trace)
    requires Honest(s, c, v, x) && IsRun(s, c, v, x, t)
    ensures Reached2(t)
    ensures
      var kp := s.kemKeygen(x.server.seed);
      var e1 := s.encapsulate(c.staticKeys.pk, x.server.forStatic);
      var e2 := s.encapsulate(s.kemKeygen(x.seed).pk, x.server.forEphemeral);
      var b, h := Octets1(t), Octets2(t);
      var signed := SignedHash(s, v.serverId, c.clientId, b, kp.pk, e1.ct, e2.ct);
      && t.serverHello.result.value
         == ServerHello(kp.pk, e1.ct, e2.ct, s.sign(v.sigKeys.sk, signed, x.server.signing))
      && t.serverHello.state == v.(
           transcript := [b, h], received := v.received + |b|, sent := v.sent + |h|,
           pending := Some(Pending(kp, e1.secret, e2.secret, c.clientId, x.nonce, c.applicationKey)))
  {
    hide Encode, Get, Deliver, StartHandshake, ProcessServerHello, ProcessClientFinished;
    HonestHello(s, c, v, x, t);
    var pk := s.kemKeygen(x.seed).pk;
    ClientHelloReads(c.clientId, c.epoch, x.nonce, pk, x.wire1);
    var kp := s.kemKeygen(x.server.seed);
    var e1 := s.encapsulate(c.staticKeys.pk, x.server.forStatic);
    var e2 := s.encapsulate(pk, x.server.forEphemeral);
    var signed := SignedHash(s, v.serverId, c.clientId, Octets1(t), kp.pk, e1.ct, e2.ct);
    ServerHelloReads(kp.pk, e1.ct, e2.ct, s.sign(v.sigKeys.sk, signed, x.server.signing), false);
  }

  /** The inputs both parties derive their keys from, given the octets of the two hellos. */
  function RunInputs(s: Suite, c: ClientState, x: Choices, b: bytes, h: bytes): Inputs {
    var e1 := s.encapsulate(c.staticKeys.pk, x.server.forStatic);
    var e2 := s.encapsulate(s.kemKeygen(x.seed).pk, x.server.forEphemeral);
    var e3 := s.encapsulate(s.kemKeygen(x.server.seed).pk, x.coins);
    Inputs(b, h, e3.ct, c.applicationKey, e1.secret + e2.secret + e3.secret)
  }

  lemma HonestFinished(s: Suite, c: ClientState, v: ServerState, x: Choices, t: Trace)
    requires Honest(s, c, v, x) && IsRun(s, c, v, x, t)
    ensures Reached3(t)
    ensures
      var b, h, f := Octets1(t), Octets2(t), Octets3(t);
      var i := RunInputs(s, c, x, b, h);
      && t.finished.result.value == ClientFinished(i.ct, i.ClientTag(s))
      && t.finished.state == t.hello.state.(
           transcript := [b, h, f], received := c.received + |h|, sent := c.sent + |b| + |f|,
           transcriptHash := Some(i.Tr(s)), finishedKey := Some(i.FinishedKey(s)), sessionKey := Some(i.SessionKey(s)))
  {
    hide Encode, Get, Deliver, StartHandshake, ProcessClientHello, ProcessClientFinished;
    HonestHello(s, c, v, x, t);
    HonestServerHello(s, c, v, x, t);
    var p := t.serverHello.result.value.payload;
    ServerHelloReads(p[0].value.octets, p[1].value.octets, p[2].value.octets, p[3].value.octets, x.wire2);
    var b, h := Octets1(t), Octets2(t);
    var i := RunInputs(s, c, x, b, h);
    FinishedReads(i.ct, i.ClientTag(s), false);
    assert [b] + [h] == [b, h];
  }

  lemma HonestServerFinished(s: Suite, c: ClientState, v: ServerState, x: Choices, t: Trace)
    requires Honest(s, c, v, x) && IsRun(s, c, v, x, t)
    ensures Reached4(t)
    ensures
      var b, h, f := Octets1(t), Octets2(t), Octets3(t);
      var i := RunInputs(s, c, x, b, h);
      && t.serverFinished.result == Ok(Some(ServerFinished(i.ServerTag(s, f))))
      && t.serverFinished.state == t.serverHello.state.(
           transcript := [b, h, f], received := v.received + |b| + |f|, sent := v.sent + |h| + |Octets4(t)|,
           transcriptHash := Some(i.Tr(s)), finishedKey := Some(i.FinishedKey(s)), sessionKey := Some(i.SessionKey(s)),
           accepted := true)
  {
    hide Encode, Get, Deliver, StartHandshake, ProcessClientHello, ProcessServerHello;
    HonestServerHello(s, c, v, x, t);
    HonestFinished(s, c, v, x, t);
    var b, h, f := Octets1(t), Octets2(t), Octets3(t);
    var i := RunInputs(s, c, x, b, h);
    FinishedReads(i.ct, i.ClientTag(s), x.wire3);
    FinishedReads([], i.ServerTag(s, f), false);
    assert [b, h] + [f] == [b, h, f];
  }

  lemma HonestAccept(s: Suite, c: ClientState, v: ServerState, x: Choices, t: Trace)
    requires Honest(s, c, v, x) && IsRun(s, c, v, x, t)
    ensures Reached4(t) && t.accept.result == Ok(true)
    ensures t.accept.state == t.finished.state.(
              transcript := t.finished.state.transcript + [Octets4(t)],
              received := t.finished.state.received + |Octets4(t)|, accepted := true)
  {
    hide Encode, Get, Deliver, StartHandshake, ProcessClientHello, ProcessServerHello, ProcessClientFinished;
    HonestServerHello(s, c, v, x, t);
    HonestFinished(s, c, v, x, t);
    HonestServerFinished(s, c, v, x, t);
    var i := RunInputs(s, c, x, Octets1(t), Octets2(t));
    FinishedReads([], i.ServerTag(s, Octets3(t)), x.wire4);
  }

  /** Every honest run completes: both sides accept and hold the same keys. */
  lemma HonestRunCompletes(s: Suite, c: ClientState, v: ServerState, x: Choices, t: Trace)
    requires Honest(s, c, v, x) && IsRun(s, c, v, x, t)
    ensures Reached4(t) && t.accept.result == Ok(true)
    ensures t.accept.state.accepted && t.serverFinished.state.accepted
    ensures Agree(t.accept.state, t.serverFinished.state)
  {
    hide Encode, Honest, IsRun;
    HonestFinished(s, c, v, x, t);
    HonestServerFinished(s, c, v, x, t);
    HonestAccept(s, c, v, x, t);
  }

  /** A delivered message is again one a `ProtocolMessage` object can hold. */
  lemma DeliveredGenuine(m: ProtocolMessage, wire: bool)
    requires Encode(m).Ok? && Genuine(m)
    ensures Genuine(Deliver(m, wire))
  {
    hide Encode, IsUtf8;
    RoundTrip(m);
  }

  /** The hypotheses of the acceptance results are met by every honest run. */
  lemma HonestRunMeetsAcceptance(s: Suite, c: ClientState, v: ServerState, x: Choices, t: Trace)
    requires Honest(s, c, v, x) && IsRun(s, c, v, x, t)
    ensures Reached4(t)
    ensures
      var sh, fin := Deliver(t.serverHello.result.value, x.wire2), Deliver(t.finished.result.value, x.wire3);
      var sf := Deliver(t.serverFinished.result.value.value, x.wire4);
      && ClientStarted(s, t.hello.state) && Genuine(sh) && ServerStarted(s, t.serverHello.state)
      && t.finished == ProcessServerHello(s, t.hello.state, sh, v.sigKeys.pk, x.coins)
      && t.serverFinished == ProcessClientFinished(s, t.serverHello.state, fin)
      && ProcessServerFinished(s, t.finished.state, sf).result == Ok(true)
      && Get(fin.payload, MAC) == Get(t.finished.result.value.payload, MAC)
      && Get(sf.payload, MAC) == Get(t.serverFinished.result.value.value.payload, MAC)
  {
    hide Encode, Get, Deliver, Genuine, IsUtf8, StartHandshake, ProcessClientHello, ProcessServerHello,
         ProcessClientFinished, ProcessServerFinished, ClientStarted, ServerStarted, SignedHash, Inputs.ClientTag,
         Inputs.ServerTag;
    HonestHello(s, c, v, x, t);
    HonestServerHello(s, c, v, x, t);
    HonestFinished(s, c, v, x, t);
    HonestServerFinished(s, c, v, x, t);
    HonestAccept(s, c, v, x, t);
    var hello, sh := t.hello.result.value, t.serverHello.result.value;
    var p := sh.payload;
    MessagesAreGenuine(c.clientId, c.epoch, x.nonce, s.kemKeygen(x.seed).pk);
    MessagesAreGenuine(p[0].value.octets, p[1].value.octets, p[2].value.octets, p[3].value.octets);
    DeliveredGenuine(hello, x.wire1);
    DeliveredGenuine(sh, x.wire2);
    StartGives(s, c, x.seed, x.nonce);
    ServerHelloGives(s, v, Deliver(hello, x.wire1), x.server);
    var i := RunInputs(s, c, x, Octets1(t), Octets2(t));
    MessagesAreGenuine(i.ct, i.ClientTag(s), [], []);
    MessagesAreGenuine(i.ServerTag(s, Octets3(t)), [], [], []);
    DeliveredSame(t.finished.result.value, x.wire3);
    DeliveredSame(t.serverFinished.result.value.value, x.wire4);
  }
}
