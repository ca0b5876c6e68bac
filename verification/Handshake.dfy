/** The RIA-QKD handshake of `common/protocol.py`: what every call does to the two parties' state. */
module Handshake {
  import opened Bytes
  import opened Message
  import opened Utf8

  datatype KeyPair = KeyPair(pk: bytes, sk: bytes)
  datatype Encapsulated = Encapsulated(secret: bytes, ct: bytes)

  /** The primitives, with the randomness they draw as an explicit argument. */
  datatype Suite = Suite(
    hash: bytes -> bytes,
    hmac: (bytes, bytes) -> bytes,
    kemKeygen: bytes -> KeyPair,
    encapsulate: (bytes, bytes) -> Encapsulated,
    decapsulate: (bytes, bytes) -> bytes,
    sigKeygen: bytes -> KeyPair,
    sign: (bytes, bytes, bytes) -> bytes,
    verify: (bytes, bytes, bytes) -> bool)
  {
    /** SHA-256 and HMAC-SHA-256 write 32 octets. */
    ghost predicate DigestSized() {
      && (forall m :: |hash(m)| == 32)
      && (forall k, m :: |hmac(k, m)| == 32)
    }

    /** Decapsulation inverts encapsulation, and a signature verifies. */
    ghost predicate Correct() {
      && (forall seed, coins ::
            var kp, e := kemKeygen(seed), encapsulate(kemKeygen(seed).pk, coins);
            decapsulate(kp.sk, e.ct) == e.secret)
      && (forall seed, m, coins ::
            var kp := sigKeygen(seed);
            verify(kp.pk, m, sign(kp.sk, m, coins)))
    }

    /** Keys, ciphertexts and signatures fit the 16-bit length fields. */
    ghost predicate Fits() {
      && (forall seed :: |kemKeygen(seed).pk| <= 0xffff)
      && (forall pk, coins :: |encapsulate(pk, coins).ct| <= 0xffff)
      && (forall sk, m, coins :: |sign(sk, m, coins)| <= 0xffff)
    }

    /** The HMAC key `HKDFWrapper.extract` uses for a salt. */
    function Salt(salt: bytes): bytes {
      if salt == [] then Zeros(32) else salt
    }

    /** `HKDFWrapper.extract` */
    function Extract(salt: bytes, ikm: bytes): bytes {
      hmac(Salt(salt), ikm)
    }

    /** `HKDFWrapper.expand(prk, info, 32)`: one block, see `Rfc5869.OneBlock`. */
    function Expand(prk: bytes, info: bytes): bytes {
      hmac(prk, info + [0x01])
    }
  }

  const CLIENT_HELLO := Ascii("CLIENT_HELLO")
  const SERVER_HELLO := Ascii("SERVER_HELLO")
  const CLIENT_FINISHED := Ascii("CLIENT_FINISHED")
  const SERVER_FINISHED := Ascii("SERVER_FINISHED")
  const CLIENT_ID := Ascii("client_id")
  const EPOCH := Ascii("epoch")
  const NONCE := Ascii("nonce")
  const PK_EPHEMERAL := Ascii("pk_ephemeral")
  const PK_SERVER_EPH := Ascii("pk_server_eph")
  const CT_STATIC := Ascii("ct_static")
  const CT_EPHEMERAL := Ascii("ct_ephemeral")
  const SIGNATURE := Ascii("signature")
  const CT_CLIENT := Ascii("ct_client")
  const MAC := Ascii("mac")
  const SERVER_ID := Ascii("RIA-QKD-GW")
  const SIGNATURE_PREFIX := Ascii("RIA-QKD-V1-Server")
  const CL_FIN := Ascii("CL_FIN")
  const SV_FIN := Ascii("SV_FIN")
  const EPOCH_1: bytes := [0, 0, 0, 1]

  function ClientHello(clientId: bytes, epoch: bytes, nonce: bytes, pk: bytes): ProtocolMessage {
    ProtocolMessage(CLIENT_HELLO, [Field(CLIENT_ID, Text(clientId)), Field(EPOCH, Raw(epoch)),
                                   Field(NONCE, Raw(nonce)), Field(PK_EPHEMERAL, Raw(pk))])
  }

  function ServerHello(pk: bytes, ctStatic: bytes, ctEphemeral: bytes, signature: bytes): ProtocolMessage {
    ProtocolMessage(SERVER_HELLO, [Field(PK_SERVER_EPH, Raw(pk)), Field(CT_STATIC, Raw(ctStatic)),
                                   Field(CT_EPHEMERAL, Raw(ctEphemeral)), Field(SIGNATURE, Raw(signature))])
  }

  function ClientFinished(ct: bytes, mac: bytes): ProtocolMessage {
    ProtocolMessage(CLIENT_FINISHED, [Field(CT_CLIENT, Raw(ct)), Field(MAC, Raw(mac))])
  }

  function ServerFinished(mac: bytes): ProtocolMessage {
    ProtocolMessage(SERVER_FINISHED, [Field(MAC, Raw(mac))])
  }

  /** `payload[key]`, as octets */
  function Get(payload: seq<Field>, key: bytes): Option<bytes> {
    if payload == [] then None
    else if payload[0].key == key then Some(payload[0].value.Octets())
    else Get(payload[1..], key)
  }

  // ---------- key schedule ----------

  /** Everything a party's keys and tags depend on. */
  datatype Inputs = Inputs(hello: bytes, serverHello: bytes, ct: bytes, applicationKey: bytes, ikm: bytes) {
    function Transcript(): bytes {
      hello + serverHello + ct
    }

    function Tr(s: Suite): bytes {
      s.hash(Transcript())
    }

    function Prk(s: Suite): bytes {
      s.Extract(applicationKey, ikm)
    }

    function FinishedInfo(s: Suite): bytes {
      Ascii("finished") + Tr(s)
    }

    function FinishedKey(s: Suite): bytes {
      s.Expand(Prk(s), FinishedInfo(s))
    }

    function SessionKey(s: Suite): bytes {
      s.Expand(Prk(s), Ascii("session") + Tr(s))
    }

    function ClientTag(s: Suite): bytes {
      s.hmac(FinishedKey(s), Tr(s) + CL_FIN)
    }

    /** The transcript hash that also covers the CLIENT_FINISHED octets. */
    function Tr2(s: Suite, finished: bytes): bytes {
      s.hash(Tr(s) + finished)
    }

    function ServerTag(s: Suite, finished: bytes): bytes {
      s.hmac(FinishedKey(s), Tr2(s, finished) + SV_FIN)
    }
  }

  /** `derive_demo_application_key` */
  function DemoApplicationKey(s: Suite, clientId: bytes): bytes {
    s.hash(Ascii("RIA-QKD-demo-ak") + clientId)
  }

  /** `derive_application_key` */
  function ApplicationKey(s: Suite, masterKey: bytes, clientId: bytes, epoch: bytes): bytes {
    s.Expand(s.Extract([], masterKey), Ascii("APP_KEY_") + clientId + epoch)
  }

  function SignedHash(s: Suite, serverId: bytes, clientId: bytes, hello: bytes,
                      pk: bytes, ctStatic: bytes, ctEphemeral: bytes): bytes {
    s.hash(SIGNATURE_PREFIX + serverId + clientId + hello + pk + ctStatic + ctEphemeral)
  }

  // ---------- the client ----------

  datatype ClientState = ClientState(
    clientId: bytes, applicationKey: bytes, expectedServerId: bytes, epoch: bytes, staticKeys: KeyPair,
    ephemeral: Option<KeyPair>, nonce: Option<bytes>, transcript: seq<bytes>, transcriptHash: Option<bytes>,
    finishedKey: Option<bytes>, sessionKey: Option<bytes>, accepted: bool, sent: nat, received: nat)

  datatype Step<+S, +R> = Step(result: Result<R>, state: S)

  function NewClient(s: Suite, clientId: bytes, staticKeys: KeyPair, applicationKey: bytes,
                     expectedServerId: bytes, epoch: bytes): ClientState {
    var key := if applicationKey == [] then DemoApplicationKey(s, clientId) else applicationKey;
    ClientState(clientId, key, expectedServerId, epoch, staticKeys, None, None, [], None, None, None, false, 0, 0)
  }

  function StartHandshake(s: Suite, c: ClientState, seed: bytes, nonce: bytes): Step<ClientState, ProtocolMessage> {
    var kp := s.kemKeygen(seed);
    var c1 := c.(ephemeral := Some(kp), nonce := Some(nonce));
    var msg := ClientHello(c.clientId, c.epoch, nonce, kp.pk);
    match Encode(msg)
    case Err(e) => Step(Err(e), c1)
    case Ok(b) => Step(Ok(msg), c1.(transcript := c1.transcript + [b], sent := c1.sent + |b|))
  }

  /** The inputs of the client's key schedule after the SERVER_HELLO that carries these fields. */
  function ClientInputs(s: Suite, c: ClientState, serverHello: bytes,
                        pk: bytes, ctStatic: bytes, ctEphemeral: bytes, coins: bytes): Inputs
    requires c.ephemeral.Some? && c.transcript != []
  {
    var k1 := s.decapsulate(c.staticKeys.sk, ctStatic);
    var k2 := s.decapsulate(c.ephemeral.value.sk, ctEphemeral);
    var e := s.encapsulate(pk, coins);
    Inputs(c.transcript[0], (c.transcript + [serverHello])[1], e.ct, c.applicationKey, k1 + k2 + e.secret)
  }

  /** The keys, the tag and the CLIENT_FINISHED message. */
  function ClientFinishes(s: Suite, c: ClientState, i: Inputs): Step<ClientState, ProtocolMessage> {
    var c1 := c.(transcriptHash := Some(i.Tr(s)), finishedKey := Some(i.FinishedKey(s)),
                 sessionKey := Some(i.SessionKey(s)));
    var finished := ClientFinished(i.ct, i.ClientTag(s));
    match Encode(finished)
    case Err(e) => Step(Err(e), c1)
    case Ok(f) => Step(Ok(finished), c1.(transcript := c1.transcript + [f], sent := c1.sent + |f|))
  }

  function ProcessServerHello(s: Suite, c: ClientState, msg: ProtocolMessage, serverPk: bytes, coins: bytes)
    : Step<ClientState, ProtocolMessage>
  {
    var p := msg.payload;
    var pk, ctStatic := Get(p, PK_SERVER_EPH), Get(p, CT_STATIC);
    var ctEphemeral, signature := Get(p, CT_EPHEMERAL), Get(p, SIGNATURE);
    if msg.msgType != SERVER_HELLO then Step(Err(AssertionError), c)
    else if pk.None? || ctStatic.None? || ctEphemeral.None? || signature.None? then Step(Err(KeyError), c)
    else if Encode(msg).Err? then Step(Err(Encode(msg).error), c)
    else
      var b := Encode(msg).value;
      var c1 := c.(received := c.received + |b|);
      if c.transcript == [] then Step(Err(IndexError), c1)
      else
        var c2 := c1.(transcript := c1.transcript + [b]);
        var signed := SignedHash(s, c.expectedServerId, c.clientId, c.transcript[0],
                                 pk.value, ctStatic.value, ctEphemeral.value);
        if !s.verify(serverPk, signed, signature.value) then Step(Err(ValueError), c2)
        else if c.ephemeral.None? then Step(Err(TypeError), c2)
        else
          ClientFinishes(s, c2, ClientInputs(s, c, b, pk.value, ctStatic.value, ctEphemeral.value, coins))
  }

  function ProcessServerFinished(s: Suite, c: ClientState, msg: ProtocolMessage): Step<ClientState, bool> {
    if msg.msgType != SERVER_FINISHED then Step(Err(AssertionError), c)
    else
      match Encode(msg)
      case Err(e) => Step(Err(e), c)
      case Ok(b) =>
        var c1 := c.(received := c.received + |b|, transcript := c.transcript + [b]);
        var mac := Get(msg.payload, MAC);
        if c.finishedKey.None? then Step(Err(ValueError), c1)
        else if |c1.transcript| < 3 then Step(Err(IndexError), c1)
        else if c.transcriptHash.None? then Step(Err(TypeError), c1)
        else if mac.None? then Step(Err(KeyError), c1)
        else
          var tr2 := s.hash(c.transcriptHash.value + c1.transcript[2]);
          var ok := s.hmac(c.finishedKey.value, tr2 + SV_FIN) == mac.value;
          Step(Ok(ok), c1.(accepted := ok))
  }

  // ---------- the server ----------

  /** What `process_client_hello` leaves for `process_client_finished`. */
  datatype Pending = Pending(ephemeral: KeyPair, k1: bytes, k2: bytes, clientId: bytes, nonce: bytes,
                             applicationKey: bytes)

  datatype ServerState = ServerState(
    masterKey: Option<bytes>, sigKeys: KeyPair, enrolled: map<bytes, bytes>, serverId: bytes,
    pending: Option<Pending>, transcript: seq<bytes>, transcriptHash: Option<bytes>,
    finishedKey: Option<bytes>, sessionKey: Option<bytes>, accepted: bool, sent: nat, received: nat)

  function NewServer(masterKey: Option<bytes>, sigKeys: KeyPair, enrolled: map<bytes, bytes>, serverId: bytes)
    : ServerState
  {
    ServerState(masterKey, sigKeys, enrolled, serverId, None, [], None, None, None, false, 0, 0)
  }

  function ServerApplicationKey(s: Suite, v: ServerState, clientId: bytes, epoch: bytes): bytes {
    if v.masterKey.Some? then ApplicationKey(s, v.masterKey.value, clientId, epoch)
    else DemoApplicationKey(s, clientId)
  }

  /** The randomness of one `process_client_hello`. */
  datatype HelloCoins = HelloCoins(seed: bytes, forStatic: bytes, forEphemeral: bytes, signing: bytes)

  /** The ephemeral key, the two encapsulations and the signed SERVER_HELLO for an enrolled client. */
  function ServerReplies(s: Suite, v: ServerState, clientId: bytes, epoch: bytes, nonce: bytes, pk: bytes,
                         r: HelloCoins)
    : Step<ServerState, ProtocolMessage>
    requires clientId in v.enrolled && v.transcript != []
  {
    var key := ServerApplicationKey(s, v, clientId, epoch);
    var kp := s.kemKeygen(r.seed);
    var e1 := s.encapsulate(v.enrolled[clientId], r.forStatic);
    var e2 := s.encapsulate(pk, r.forEphemeral);
    var signed := SignedHash(s, v.serverId, clientId, v.transcript[0], kp.pk, e1.ct, e2.ct);
    var hello := ServerHello(kp.pk, e1.ct, e2.ct, s.sign(v.sigKeys.sk, signed, r.signing));
    var v1 := v.(pending := Some(Pending(kp, e1.secret, e2.secret, clientId, nonce, key)));
    match Encode(hello)
    case Err(e) => Step(Err(e), v1)
    case Ok(h) => Step(Ok(hello), v1.(transcript := v1.transcript + [h], sent := v1.sent + |h|))
  }

  function ProcessClientHello(s: Suite, v: ServerState, msg: ProtocolMessage, r: HelloCoins)
    : Step<ServerState, ProtocolMessage>
  {
    var p := msg.payload;
    var clientId, nonce, pk := Get(p, CLIENT_ID), Get(p, NONCE), Get(p, PK_EPHEMERAL);
    if msg.msgType != CLIENT_HELLO then Step(Err(AssertionError), v)
    else if clientId.None? then Step(Err(KeyError), v)
    else if !IsUtf8(clientId.value) then Step(Err(ValueError), v)
    else if nonce.None? || pk.None? then Step(Err(KeyError), v)
    else if clientId.value !in v.enrolled then Step(Err(ValueError), v)
    else if Encode(msg).Err? then Step(Err(Encode(msg).error), v)
    else
      var epoch := if Get(p, EPOCH).Some? then Get(p, EPOCH).value else EPOCH_1;
      var b := Encode(msg).value;
      var v1 := v.(transcript := v.transcript + [b], received := v.received + |b|);
      ServerReplies(s, v1, clientId.value, epoch, nonce.value, pk.value, r)
  }

  function ServerInputs(s: Suite, v: ServerState, ct: bytes): Inputs
    requires v.pending.Some? && |v.transcript| >= 2
  {
    var p := v.pending.value;
    var k3 := s.decapsulate(p.ephemeral.sk, ct);
    Inputs(v.transcript[0], v.transcript[1], ct, p.applicationKey, p.k1 + p.k2 + k3)
  }

  /** The keys, the tag check and the SERVER_FINISHED message. */
  function ServerFinishes(s: Suite, v: ServerState, i: Inputs, b: bytes, mac: bytes)
    : Step<ServerState, Option<ProtocolMessage>>
  {
    var v1 := v.(transcriptHash := Some(i.Tr(s)), finishedKey := Some(i.FinishedKey(s)),
                 sessionKey := Some(i.SessionKey(s)));
    if i.ClientTag(s) != mac then Step(Ok(None), v1)
    else
      var finished := ServerFinished(i.ServerTag(s, b));
      match Encode(finished)
      case Err(e) => Step(Err(e), v1.(accepted := true))
      case Ok(f) => Step(Ok(Some(finished)), v1.(accepted := true, sent := v1.sent + |f|))
  }

  function ProcessClientFinished(s: Suite, v: ServerState, msg: ProtocolMessage)
    : Step<ServerState, Option<ProtocolMessage>>
  {
    var ct, mac := Get(msg.payload, CT_CLIENT), Get(msg.payload, MAC);
    if msg.msgType != CLIENT_FINISHED then Step(Err(AssertionError), v)
    else if ct.None? || mac.None? then Step(Err(KeyError), v)
    else
      match Encode(msg)
      case Err(e) => Step(Err(e), v)
      case Ok(b) =>
        var v1 := v.(transcript := v.transcript + [b], received := v.received + |b|);
        if v.pending.None? then Step(Err(TypeError), v1)
        else if |v1.transcript| < 2 then Step(Err(IndexError), v1)
        else
          ServerFinishes(s, v1, ServerInputs(s, v1, ct.value), b, mac.value)
  }
}
