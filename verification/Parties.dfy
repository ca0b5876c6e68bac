/** `RIAQKDClient` and `RIAQKDServer` of `common/protocol.py`: objects whose methods update their fields. */
module Parties {
  import opened Bytes
  import opened Message
  import opened Utf8
  import opened Handshake

  /** The lines of `process_server_hello` and `process_client_finished` that derive keys from the transcript. */
  method KeySchedule(s: Suite, t0: bytes, t1: bytes, ct: bytes, applicationKey: bytes, ikm: bytes)
    returns (tr: bytes, finishedKey: bytes, sessionKey: bytes, tag: bytes)
    ensures
      var i := Inputs(t0, t1, ct, applicationKey, ikm);
      tr == i.Tr(s) && finishedKey == i.FinishedKey(s) && sessionKey == i.SessionKey(s) && tag == i.ClientTag(s)
  {
    tr := s.hash(t0 + t1 + ct);
    var prk := s.Extract(applicationKey, ikm);
    finishedKey := s.Expand(prk, Ascii("finished") + tr);
    sessionKey := s.Expand(prk, Ascii("session") + tr);
    tag := s.hmac(finishedKey, tr + CL_FIN);
  }

  class Client {
    const suite: Suite
    const clientId: bytes
    const applicationKey: bytes
    const expectedServerId: bytes
    const epoch: bytes
    const staticKeys: KeyPair
    var ephemeral: Option<KeyPair>
    var nonce: Option<bytes>
    var transcript: seq<bytes>
    var transcriptHash: Option<bytes>
    var finishedKey: Option<bytes>
    var sessionKey: Option<bytes>
    var accepted: bool
    var bytesSent: nat
    var bytesReceived: nat

    ghost function State(): ClientState
      reads this
    {
      ClientState(clientId, applicationKey, expectedServerId, epoch, staticKeys, ephemeral, nonce, transcript,
                  transcriptHash, finishedKey, sessionKey, accepted, bytesSent, bytesReceived)
    }

    /** `RIAQKDClient.__init__` */
    constructor (suite: Suite, clientId: bytes, staticKeys: Option<KeyPair>, staticSeed: bytes,
                 applicationKey: bytes, expectedServerId: bytes, epoch: bytes)
      ensures this.suite == suite
      ensures
        var keys := if staticKeys.Some? then staticKeys.value else suite.kemKeygen(staticSeed);
        State() == NewClient(suite, clientId, keys, applicationKey, expectedServerId, epoch)
    {
      this.suite := suite;
      this.clientId := clientId;
      this.applicationKey := if applicationKey != [] then applicationKey else DemoApplicationKey(suite, clientId);
      this.expectedServerId := expectedServerId;
      this.epoch := epoch;
      this.staticKeys := if staticKeys.Some? then staticKeys.value else suite.kemKeygen(staticSeed);
      ephemeral, nonce, transcript, transcriptHash := None, None, [], None;
      finishedKey, sessionKey, accepted := None, None, false;
      bytesSent, bytesReceived := 0, 0;
    }

    /** `start_handshake` */
    method Start(seed: bytes, nonce: bytes) returns (r: Result<ProtocolMessage>)
      modifies this
      ensures Step(r, State()) == StartHandshake(suite, old(State()), seed, nonce)
    {
      hide Encode;
      ephemeral := Some(suite.kemKeygen(seed));
      this.nonce := Some(nonce);
      var msg := ClientHello(clientId, epoch, nonce, ephemeral.value.pk);
      var b := ToBytes(msg);
      if b.Err? {
        return Err(b.error);
      }
      transcript := transcript + [b.value];
      bytesSent := bytesSent + |b.value|;
      return Ok(msg);
    }

    /** `process_server_hello` */
    method TakeServerHello(msg: ProtocolMessage, serverPk: bytes, coins: bytes) returns (r: Result<ProtocolMessage>)
      modifies this
      ensures Step(r, State()) == ProcessServerHello(suite, old(State()), msg, serverPk, coins)
    {
      hide Encode, Get, Ascii, SignedHash, ClientFinishes;
      if msg.msgType != SERVER_HELLO {
        return Err(AssertionError);
      }
      var pk, ctStatic := Get(msg.payload, PK_SERVER_EPH), Get(msg.payload, CT_STATIC);
      var ctEphemeral, signature := Get(msg.payload, CT_EPHEMERAL), Get(msg.payload, SIGNATURE);
      if pk.None? || ctStatic.None? || ctEphemeral.None? || signature.None? {
        return Err(KeyError);
      }
      var b := ToBytes(msg);
      if b.Err? {
        return Err(b.error);
      }
      bytesReceived := bytesReceived + |b.value|;
      if transcript == [] {
        return Err(IndexError);
      }
      var signed := SignedHash(suite, expectedServerId, clientId, transcript[0],
                               pk.value, ctStatic.value, ctEphemeral.value);
      transcript := transcript + [b.value];
      if !suite.verify(serverPk, signed, signature.value) {
        return Err(ValueError);
      }
      var k1 := suite.decapsulate(staticKeys.sk, ctStatic.value);
      if ephemeral.None? {
        return Err(TypeError);
      }
      var k2 := suite.decapsulate(ephemeral.value.sk, ctEphemeral.value);
      var e3 := suite.encapsulate(pk.value, coins);
      r := Finish(e3.ct, k1 + k2 + e3.secret);
    }

    /** The rest of `process_server_hello`, once the three secrets are there. */
    method Finish(ct: bytes, ikm: bytes) returns (r: Result<ProtocolMessage>)
      requires |transcript| >= 2
      modifies this
      ensures Step(r, State()) ==
        ClientFinishes(suite, old(State()), Inputs(old(transcript[0]), old(transcript[1]), ct, applicationKey, ikm))
    {
      hide Encode, Inputs.Tr, Inputs.FinishedKey, Inputs.SessionKey, Inputs.ClientTag;
      var tr, fk, sk, tag := KeySchedule(suite, transcript[0], transcript[1], ct, applicationKey, ikm);
      transcriptHash, finishedKey, sessionKey := Some(tr), Some(fk), Some(sk);
      var finished := ClientFinished(ct, tag);
      var f := ToBytes(finished);
      if f.Err? {
        return Err(f.error);
      }
      transcript := transcript + [f.value];
      bytesSent := bytesSent + |f.value|;
      return Ok(finished);
    }

    /** `process_server_finished` */
    method TakeServerFinished(msg: ProtocolMessage) returns (r: Result<bool>)
      modifies this
      ensures Step(r, State()) == ProcessServerFinished(suite, old(State()), msg)
    {
      hide Encode, Get;
      if msg.msgType != SERVER_FINISHED {
        return Err(AssertionError);
      }
      var b := ToBytes(msg);
      if b.Err? {
        return Err(b.error);
      }
      bytesReceived := bytesReceived + |b.value|;
      transcript := transcript + [b.value];
      if finishedKey.None? {
        return Err(ValueError);
      }
      if |transcript| < 3 {
        return Err(IndexError);
      }
      if transcriptHash.None? {
        return Err(TypeError);
      }
      var tr2 := suite.hash(transcriptHash.value + transcript[2]);
      var mac := Get(msg.payload, MAC);
      if mac.None? {
        return Err(KeyError);
      }
      accepted := suite.hmac(finishedKey.value, tr2 + SV_FIN) == mac.value;
      return Ok(accepted);
    }
  }

  class Server {
    const suite: Suite
    const masterKey: Option<bytes>
    const sigKeys: KeyPair
    const serverId: bytes
    var enrolled: map<bytes, bytes>
    var pending: Option<Pending>
    var transcript: seq<bytes>
    var transcriptHash: Option<bytes>
    var finishedKey: Option<bytes>
    var sessionKey: Option<bytes>
    var accepted: bool
    var bytesSent: nat
    var bytesReceived: nat

    ghost function State(): ServerState
      reads this
    {
      ServerState(masterKey, sigKeys, enrolled, serverId, pending, transcript, transcriptHash,
                  finishedKey, sessionKey, accepted, bytesSent, bytesReceived)
    }

    /** `RIAQKDServer.__init__` */
    constructor (suite: Suite, masterKey: Option<bytes>, sigKeys: Option<KeyPair>, sigSeed: bytes,
                 enrolled: map<bytes, bytes>, serverId: bytes)
      ensures this.suite == suite
      ensures
        var keys := if sigKeys.Some? then sigKeys.value else suite.sigKeygen(sigSeed);
        State() == NewServer(masterKey, keys, enrolled, serverId)
    {
      this.suite := suite;
      this.masterKey := masterKey;
      this.sigKeys := if sigKeys.Some? then sigKeys.value else suite.sigKeygen(sigSeed);
      this.serverId := serverId;
      this.enrolled := enrolled;
      pending, transcript, transcriptHash := None, [], None;
      finishedKey, sessionKey, accepted := None, None, false;
      bytesSent, bytesReceived := 0, 0;
    }

    /** `enroll_client` */
    method Enroll(clientId: bytes, pkStatic: bytes)
      modifies this
      ensures State() == old(State()).(enrolled := old(enrolled)[clientId := pkStatic])
    {
      enrolled := enrolled[clientId := pkStatic];
    }

    /** `process_client_hello` */
    method TakeClientHello(msg: ProtocolMessage, coins: HelloCoins) returns (r: Result<ProtocolMessage>)
      modifies this
      ensures Step(r, State()) == ProcessClientHello(suite, old(State()), msg, coins)
    {
      hide Encode, Get, Ascii, IsUtf8, ServerReplies;
      if msg.msgType != CLIENT_HELLO {
        return Err(AssertionError);
      }
      var clientId, epoch := Get(msg.payload, CLIENT_ID), Get(msg.payload, EPOCH);
      var nonce, pk := Get(msg.payload, NONCE), Get(msg.payload, PK_EPHEMERAL);
      if clientId.None? {
        return Err(KeyError);
      }
      if !IsUtf8(clientId.value) {
        return Err(ValueError);
      }
      if nonce.None? || pk.None? {
        return Err(KeyError);
      }
      if clientId.value !in enrolled {
        return Err(ValueError);
      }
      var b := ToBytes(msg);
      if b.Err? {
        return Err(b.error);
      }
      transcript := transcript + [b.value];
      bytesReceived := bytesReceived + |b.value|;
      r := Reply(clientId.value, if epoch.Some? then epoch.value else EPOCH_1, nonce.value, pk.value, coins);
    }

    /** The rest of `process_client_hello`, for a client that is enrolled. */
    method Reply(clientId: bytes, epoch: bytes, nonce: bytes, pk: bytes, coins: HelloCoins)
      returns (r: Result<ProtocolMessage>)
      requires clientId in enrolled && transcript != []
      modifies this
      ensures Step(r, State()) == ServerReplies(suite, old(State()), clientId, epoch, nonce, pk, coins)
    {
      hide Encode, SignedHash, ServerHello, ApplicationKey, DemoApplicationKey;
      var appKey := if masterKey.Some? then ApplicationKey(suite, masterKey.value, clientId, epoch)
                    else DemoApplicationKey(suite, clientId);
      var kp := suite.kemKeygen(coins.seed);
      var e1 := suite.encapsulate(enrolled[clientId], coins.forStatic);
      var e2 := suite.encapsulate(pk, coins.forEphemeral);
      var signed := SignedHash(suite, serverId, clientId, transcript[0], kp.pk, e1.ct, e2.ct);
      var hello := ServerHello(kp.pk, e1.ct, e2.ct, suite.sign(sigKeys.sk, signed, coins.signing));
      pending := Some(Pending(kp, e1.secret, e2.secret, clientId, nonce, appKey));
      var h := ToBytes(hello);
      if h.Err? {
        return Err(h.error);
      }
      transcript := transcript + [h.value];
      bytesSent := bytesSent + |h.value|;
      return Ok(hello);
    }

    /** `process_client_finished` */
    method TakeClientFinished(msg: ProtocolMessage) returns (r: Result<Option<ProtocolMessage>>)
      modifies this
      ensures Step(r, State()) == ProcessClientFinished(suite, old(State()), msg)
    {
      hide Encode, Get, Ascii, ServerFinishes;
      if msg.msgType != CLIENT_FINISHED {
        return Err(AssertionError);
      }
      var ct, mac := Get(msg.payload, CT_CLIENT), Get(msg.payload, MAC);
      if ct.None? || mac.None? {
        return Err(KeyError);
      }
      var b := ToBytes(msg);
      if b.Err? {
        return Err(b.error);
      }
      transcript := transcript + [b.value];
      bytesReceived := bytesReceived + |b.value|;
      if pending.None? {
        return Err(TypeError);
      }
      var p := pending.value;
      var k3 := suite.decapsulate(p.ephemeral.sk, ct.value);
      if |transcript| < 2 {
        return Err(IndexError);
      }
      r := Finish(ct.value, p.applicationKey, p.k1 + p.k2 + k3, b.value, mac.value);
    }

    /** The rest of `process_client_finished`, once the three secrets are there. */
    method Finish(ct: bytes, applicationKey: bytes, ikm: bytes, b: bytes, mac: bytes)
      returns (r: Result<Option<ProtocolMessage>>)
      requires |transcript| >= 2
      modifies this
      ensures Step(r, State()) ==
        ServerFinishes(suite, old(State()),
                       Inputs(old(transcript[0]), old(transcript[1]), ct, applicationKey, ikm), b, mac)
    {
      hide Encode, Inputs.Tr, Inputs.FinishedKey, Inputs.SessionKey, Inputs.ClientTag;
      var tr, fk, sk, tag := KeySchedule(suite, transcript[0], transcript[1], ct, applicationKey, ikm);
      transcriptHash, finishedKey, sessionKey := Some(tr), Some(fk), Some(sk);
      if tag != mac {
        return Ok(None);
      }
      var tr2 := suite.hash(tr + b);
      var finished := ServerFinished(suite.hmac(finishedKey.value, tr2 + SV_FIN));
      accepted := true;
      var f := ToBytes(finished);
      if f.Err? {
        return Err(f.error);
      }
      bytesSent := bytesSent + |f.value|;
      return Ok(Some(finished));
    }
  }
}
