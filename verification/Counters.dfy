/** The octet counters of the two parties, over every run whose messages are delivered. */
module Counters {
  import opened Bytes
  import opened Message
  import opened Utf8
  import opened Handshake
  import opened Agreement
  import opened HonestRun

  // ---------- sizes ----------

  /** `ProtocolMessage.size()` of the four messages. */
  lemma MessageSizes(a: bytes, b: bytes, c: bytes, d: bytes)
    requires Fits(a) && Fits(b) && Fits(c) && Fits(d)
    ensures Encode(ClientHello(a, b, c, d)).Ok? && Encode(ServerHello(a, b, c, d)).Ok?
    ensures Encode(ClientFinished(a, b)).Ok? && Encode(ServerFinished(a)).Ok?
    ensures |Encode(ClientHello(a, b, c, d)).value| == 57 + |a| + |b| + |c| + |d|
    ensures |Encode(ServerHello(a, b, c, d)).value| == 69 + |a| + |b| + |c| + |d|
    ensures |Encode(ClientFinished(a, b)).value| == 35 + |a| + |b|
    ensures |Encode(ServerFinished(a)).value| == 23 + |a|
  {
    hide Encode;
    ClientHelloReads(a, b, c, d, false);
    ServerHelloReads(a, b, c, d, false);
    FinishedReads(a, b, false);
    FinishedReads([], a, false);
    Size(ClientHello(a, b, c, d));
    Size(ServerHello(a, b, c, d));
    Size(ClientFinished(a, b));
    Size(ServerFinished(a));
    FourFields(ClientHello(a, b, c, d).payload);
    FourFields(ServerHello(a, b, c, d).payload);
    OneOrTwoFields(ClientFinished(a, b).payload);
    OneOrTwoFields(ServerFinished(a).payload);
  }

  /** Octets of one field in the byte form. */
  function FieldSize(f: Field): nat {
    3 + |f.key| + |f.value.Octets()|
  }

  lemma OneOrTwoFields(p: seq<Field>)
    ensures |p| == 1 ==> FieldsSize(p) == FieldSize(p[0])
    ensures |p| == 2 ==> FieldsSize(p) == FieldSize(p[0]) + FieldSize(p[1])
  {
    if |p| == 1 {
      assert p[..0] == [];
    } else if |p| == 2 {
      assert p[..1][..0] == [] && p[..1][0] == p[0];
      assert FieldsSize(p[..1]) == FieldSize(p[0]);
    }
  }

  lemma FourFields(p: seq<Field>)
    requires |p| == 4
    ensures FieldsSize(p) == FieldSize(p[0]) + FieldSize(p[1]) + FieldSize(p[2]) + FieldSize(p[3])
  {
    OneOrTwoFields(p[..2]);
    assert p[..3][..2] == p[..2];
    assert FieldsSize(p[..3]) == FieldsSize(p[..2]) + FieldSize(p[2]);
  }

  // ---------- what every call adds ----------

  /** Octets of the message a call returned; none when it raised. */
  function Returned(r: Result<ProtocolMessage>): nat {
    if r.Ok? && Encode(r.value).Ok? then |Encode(r.value).value| else 0
  }

  ghost predicate IsClientHello(m: ProtocolMessage, id: bytes) {
    Encode(m).Ok? && exists a, b, c :: m == ClientHello(id, a, b, c)
  }

  ghost predicate IsServerHello(m: ProtocolMessage) {
    Encode(m).Ok? && exists a, b, c, d :: m == ServerHello(a, b, c, d)
  }

  ghost predicate IsClientFinished(m: ProtocolMessage) {
    Encode(m).Ok? && exists a, b :: m == ClientFinished(a, b)
  }

  ghost predicate IsServerFinished(m: ProtocolMessage) {
    Encode(m).Ok? && exists a :: m == ServerFinished(a)
  }

  /** `start_handshake` counts what it returns. */
  lemma StartCounts(s: Suite, c: ClientState, seed: bytes, nonce: bytes)
    ensures
      var Step(r, c') := StartHandshake(s, c, seed, nonce);
      && c'.sent == c.sent + Returned(r) && c'.received == c.received
      && (r.Ok? ==> IsClientHello(r.value, c.clientId))
  {
    hide Encode;
  }

  /** `process_client_hello` counts the hello of an enrolled client and what it returns; of others nothing. */
  lemma ClientHelloCounts(s: Suite, v: ServerState, m: ProtocolMessage, id: bytes, wire: bool, r: HelloCoins)
    requires IsClientHello(m, id) && IsUtf8(id)
    ensures
      var Step(reply, v') := ProcessClientHello(s, v, Deliver(m, wire), r);
      && v'.received == v.received + (if id in v.enrolled then |Encode(m).value| else 0)
      && v'.sent == v.sent + Returned(reply)
      && (reply.Ok? ==> id in v.enrolled && IsServerHello(reply.value))
      && (id !in v.enrolled ==> reply == Err(ValueError))
  {
    hide Encode, Get, Deliver, Genuine, IsUtf8, SignedHash;
    var epoch, nonce, pk :| m == ClientHello(id, epoch, nonce, pk);
    EncodesIff(m);
    assert m.payload[0] in m.payload && m.payload[1] in m.payload;
    assert m.payload[2] in m.payload && m.payload[3] in m.payload;
    ClientHelloReads(id, epoch, nonce, pk, wire);
  }

  /** `process_server_hello` counts its argument and what it returns, also when it rejects the signature. */
  lemma ServerHelloCounts(s: Suite, c: ClientState, m: ProtocolMessage, wire: bool, serverPk: bytes, coins: bytes)
    requires IsServerHello(m)
    ensures
      var Step(r, c') := ProcessServerHello(s, c, Deliver(m, wire), serverPk, coins);
      && c'.received == c.received + |Encode(m).value| && c'.sent == c.sent + Returned(r)
      && (r.Ok? ==> IsClientFinished(r.value))
  {
    hide Encode, Get, Deliver, Genuine, SignedHash;
    var pk, ct1, ct2, signature :| m == ServerHello(pk, ct1, ct2, signature);
    EncodesIff(m);
    assert m.payload[0] in m.payload && m.payload[1] in m.payload;
    assert m.payload[2] in m.payload && m.payload[3] in m.payload;
    ServerHelloReads(pk, ct1, ct2, signature, wire);
  }

  /** What a call that may return nothing returned. */
  function Answered(r: Result<Option<ProtocolMessage>>): nat {
    if r.Ok? && r.value.Some? then Returned(Ok(r.value.value)) else 0
  }

  /** `process_client_finished` counts its argument and what it returns, also when it rejects the tag. */
  lemma ClientFinishedCounts(s: Suite, v: ServerState, m: ProtocolMessage, wire: bool)
    requires IsClientFinished(m)
    ensures
      var Step(r, v') := ProcessClientFinished(s, v, Deliver(m, wire));
      && v'.received == v.received + |Encode(m).value| && v'.sent == v.sent + Answered(r)
      && (r.Ok? && r.value.Some? ==> IsServerFinished(r.value.value))
  {
    hide Encode, Get, Deliver, Genuine, Inputs.ClientTag, Inputs.ServerTag;
    var ct, mac :| m == ClientFinished(ct, mac);
    EncodesIff(m);
    assert m.payload[0] in m.payload && m.payload[1] in m.payload;
    FinishedReads(ct, mac, wire);
  }

  /** `process_server_finished` counts its argument, whatever it makes of it. */
  lemma ServerFinishedCounts(s: Suite, c: ClientState, m: ProtocolMessage, wire: bool)
    requires IsServerFinished(m)
    ensures
      var c' := ProcessServerFinished(s, c, Deliver(m, wire)).state;
      c'.received == c.received + |Encode(m).value| && c'.sent == c.sent
  {
    hide Encode, Get, Deliver, Genuine;
    var mac :| m == ServerFinished(mac);
    EncodesIff(m);
    assert m.payload[0] in m.payload;
    FinishedReads([], mac, wire);
  }

  // ---------- the balance ----------

  /** Octets sent by one party and not yet counted as received by the other. */
  function InFlight(c: ClientState, v: ServerState): (int, int) {
    (c.sent - v.received, v.sent - c.received)
  }

  /**
    After every call of every run, with any keys, signatures and tags, right or wrong: what one side has sent is what
    the other has counted, plus the one message in flight. The exception is the hello of a client that is not
    enrolled, which the server rejects before it counts.
   */
  lemma CountersBalance(s: Suite, c: ClientState, v: ServerState, x: Choices, t: Trace)
    requires IsRun(s, c, v, x, t) && IsUtf8(c.clientId)
    requires InFlight(c, v) == (0, 0)
    ensures InFlight(t.hello.state, v) == (Returned(t.hello.result), 0)
    ensures t.hello.result.Ok? ==>
      InFlight(t.hello.state, t.serverHello.state)
      == (if c.clientId in v.enrolled then 0 else Returned(t.hello.result), Returned(t.serverHello.result))
    ensures t.hello.result.Ok? && t.serverHello.result.Ok? ==>
      InFlight(t.finished.state, t.serverHello.state) == (Returned(t.finished.result), 0)
    ensures t.hello.result.Ok? && t.serverHello.result.Ok? && t.finished.result.Ok? ==>
      InFlight(t.finished.state, t.serverFinished.state) == (0, Answered(t.serverFinished.result))
    ensures t.hello.result.Ok? && t.serverHello.result.Ok? && t.finished.result.Ok?
            && t.serverFinished.result.Ok? && t.serverFinished.result.value.Some? ==>
      InFlight(t.accept.state, t.serverFinished.state) == (0, 0)
  {
    hide Encode, StartHandshake, ProcessClientHello, ProcessServerHello, ProcessClientFinished, ProcessServerFinished,
         Deliver, IsUtf8;
    StartCounts(s, c, x.seed, x.nonce);
    if t.hello.result.Ok? {
      ClientHelloCounts(s, v, t.hello.result.value, c.clientId, x.wire1, x.server);
      if t.serverHello.result.Ok? {
        ServerHelloCounts(s, t.hello.state, t.serverHello.result.value, x.wire2, v.sigKeys.pk, x.coins);
        if t.finished.result.Ok? {
          ClientFinishedCounts(s, t.serverHello.state, t.finished.result.value, x.wire3);
          if t.serverFinished.result.Ok? && t.serverFinished.result.value.Some? {
            ServerFinishedCounts(s, t.finished.state, t.serverFinished.result.value.value, x.wire4);
          }
        }
      }
    }
  }

  /** ML-KEM-512 and ML-DSA-44 lengths. */
  ghost predicate Nominal(s: Suite) {
    && (forall seed :: |s.kemKeygen(seed).pk| == 800)
    && (forall pk, coins :: |s.encapsulate(pk, coins).ct| == 768)
    && (forall sk, m, coins :: |s.sign(sk, m, coins)| == 2420)
  }

  /** The four sizes of an honest run with those lengths, for any client identity. */
  lemma NominalSizes(s: Suite, c: ClientState, v: ServerState, x: Choices, t: Trace)
    requires Honest(s, c, v, x) && IsRun(s, c, v, x, t) && Nominal(s)
    requires |c.epoch| == 4 && |x.nonce| == 32
    ensures Reached4(t)
    ensures |Octets1(t)| == 893 + |c.clientId| && |Octets2(t)| == 4825 && |Octets3(t)| == 835 && |Octets4(t)| == 55
  {
    hide Encode, IsRun;
    HonestHello(s, c, v, x, t);
    HonestServerHello(s, c, v, x, t);
    HonestFinished(s, c, v, x, t);
    HonestServerFinished(s, c, v, x, t);
    var p := t.serverHello.result.value.payload;
    MessageSizes(c.clientId, c.epoch, x.nonce, s.kemKeygen(x.seed).pk);
    MessageSizes(p[0].value.octets, p[1].value.octets, p[2].value.octets, p[3].value.octets);
    var i := RunInputs(s, c, x, Octets1(t), Octets2(t));
    MessageSizes(i.ct, i.ClientTag(s), [], []);
    MessageSizes(i.ServerTag(s, Octets3(t)), [], [], []);
  }

  /** The handshake bytes the artifact reports, as both sides count them. */
  lemma NominalTotal(s: Suite, c: ClientState, v: ServerState, x: Choices, t: Trace)
    requires Honest(s, c, v, x) && IsRun(s, c, v, x, t) && Nominal(s)
    requires c.sent == c.received == v.sent == v.received == 0
    requires |c.epoch| == 4 && |x.nonce| == 32
    ensures t.accept.state.sent + t.accept.state.received == 6608 + |c.clientId|
    ensures t.serverFinished.state.sent + t.serverFinished.state.received == 6608 + |c.clientId|
  {
    hide Encode, IsRun, Honest, Nominal;
    NominalSizes(s, c, v, x, t);
    HonestHello(s, c, v, x, t);
    HonestServerHello(s, c, v, x, t);
    HonestFinished(s, c, v, x, t);
    HonestServerFinished(s, c, v, x, t);
    HonestAccept(s, c, v, x, t);
  }
}
