/** The five calls on a client and a server object, and the octet count of `benchmarks/measure_overhead.py`. */
module Overhead {
  import opened Bytes
  import opened Message
  import opened Utf8
  import opened Handshake
  import opened Parties
  import opened Agreement
  import opened HonestRun
  import opened Counters

  /** A message handed over as an object, or as the octets of `to_bytes` read by `from_bytes`. */
  method Transport(m: ProtocolMessage, wire: bool) returns (d: ProtocolMessage)
    ensures d == Deliver(m, wire)
  {
    hide Encode, Decode;
    if !wire {
      return m;
    }
    var b := ToBytes(m);
    if b.Err? {
      return m;
    }
    var r := FromBytes(b.value);
    d := if r.Ok? then r.value else m;
  }

  /** What a run returns and leaves in the two objects: it ends at the first call that raises or returns nothing. */
  function Ending(t: Trace, v: ServerState): (Result<bool>, ClientState, ServerState) {
    if t.hello.result.Err? then (Err(t.hello.result.error), t.hello.state, v)
    else if t.serverHello.result.Err? then (Err(t.serverHello.result.error), t.hello.state, t.serverHello.state)
    else if t.finished.result.Err? then (Err(t.finished.result.error), t.finished.state, t.serverHello.state)
    else if t.serverFinished.result.Err? then
      (Err(t.serverFinished.result.error), t.finished.state, t.serverFinished.state)
    else if t.serverFinished.result.value.None? then (Ok(false), t.finished.state, t.serverFinished.state)
    else (t.accept.result, t.accept.state, t.serverFinished.state)
  }

  /** `size()`, for a message whose byte form exists. */
  method Size(m: ProtocolMessage) returns (n: nat)
    requires Encode(m).Ok?
    ensures n == |Encode(m).value|
  {
    var b := ToBytes(m);
    n := |b.value|;
  }

  /**
    The five calls, each on what the call before it returned: the objects go through the states of a run, and a run
    that raises nothing ends with the counters balanced. Between honest fresh objects both sides accept and agree.
   */
  method RunHandshake(client: Client, server: Server, x: Choices)
    returns (r: Result<bool>, sizes: seq<nat>, ghost t: Trace)
    requires client.suite == server.suite
    modifies client, server
    ensures IsRun(client.suite, old(client.State()), old(server.State()), x, t)
    ensures (r, client.State(), server.State()) == Ending(t, old(server.State()))
    ensures r == Ok(true) ==> sizes == SizesOf(t)
    ensures
      && r.Ok? && IsUtf8(client.clientId)
      && InFlight(old(client.State()), old(server.State())) == (0, 0) ==>
        InFlight(client.State(), server.State()) == (0, 0)
    ensures Honest(client.suite, old(client.State()), old(server.State()), x) ==>
      && r == Ok(true) && Reached4(t)
      && client.accepted && server.accepted && Agree(client.State(), server.State())
  {
    hide Encode, IsUtf8, Honest, Agree, StartHandshake, ProcessClientHello, ProcessServerHello,
         ProcessClientFinished, ProcessServerFinished, Deliver, InFlight, Returned, Answered, IsRun, Ending, SizesOf;
    ghost var c, v := client.State(), server.State();
    t := RunOf(client.suite, c, v, x);
    Outcomes(client.suite, c, v, x, t);
    r, sizes := FiveCalls(client, server, x, t);
  }

  /** The sizes of the four messages of a run. */
  ghost function SizesOf(t: Trace): seq<nat> {
    [Returned(t.hello.result), Returned(t.serverHello.result), Returned(t.finished.result),
     Answered(t.serverFinished.result)]
  }

  method FiveCalls(client: Client, server: Server, x: Choices, ghost t: Trace)
    returns (r: Result<bool>, sizes: seq<nat>)
    requires client.suite == server.suite && IsRun(client.suite, client.State(), server.State(), x, t)
    modifies client, server
    ensures (r, client.State(), server.State()) == Ending(t, old(server.State()))
    ensures r == Ok(true) ==> sizes == SizesOf(t)
  {
    hide Encode, StartHandshake, ProcessClientHello, ProcessServerHello, ProcessClientFinished,
         ProcessServerFinished, Deliver;
    sizes := [];
    var msg1 := client.Start(x.seed, x.nonce);
    if msg1.Err? {
      return Err(msg1.error), sizes;
    }
    var in1 := Transport(msg1.value, x.wire1);
    var msg2 := server.TakeClientHello(in1, x.server);
    if msg2.Err? {
      return Err(msg2.error), sizes;
    }
    var in2 := Transport(msg2.value, x.wire2);
    var msg3 := client.TakeServerHello(in2, server.sigKeys.pk, x.coins);
    if msg3.Err? {
      return Err(msg3.error), sizes;
    }
    var in3 := Transport(msg3.value, x.wire3);
    var msg4 := server.TakeClientFinished(in3);
    if msg4.Err? {
      return Err(msg4.error), sizes;
    }
    if msg4.value.None? {
      return Ok(false), sizes;
    }
    var in4 := Transport(msg4.value.value, x.wire4);
    r := client.TakeServerFinished(in4);
    if r == Ok(true) {
      ReturnedEncodes(client.suite, old(client.State()), old(server.State()), x, t);
      var n1 := Size(msg1.value);
      var n2 := Size(msg2.value);
      var n3 := Size(msg3.value);
      var n4 := Size(msg4.value.value);
      sizes := [n1, n2, n3, n4];
    }
  }

  /** The run that these objects and choices determine. */
  ghost function RunOf(s: Suite, c: ClientState, v: ServerState, x: Choices): (t: Trace)
    ensures IsRun(s, c, v, x, t)
  {
    hide StartHandshake, ProcessClientHello, ProcessServerHello, ProcessClientFinished, ProcessServerFinished, Deliver;
    var hello := StartHandshake(s, c, x.seed, x.nonce);
    var serverHello := if hello.result.Err? then Step(Err(ValueError), v)
                       else ProcessClientHello(s, v, Deliver(hello.result.value, x.wire1), x.server);
    var finished := if serverHello.result.Err? then Step(Err(ValueError), hello.state)
                    else ProcessServerHello(s, hello.state, Deliver(serverHello.result.value, x.wire2),
                                            v.sigKeys.pk, x.coins);
    var serverFinished := if finished.result.Err? then Step(Err(ValueError), serverHello.state)
                          else ProcessClientFinished(s, serverHello.state, Deliver(finished.result.value, x.wire3));
    var accept := if serverFinished.result.Err? || serverFinished.result.value.None?
                  then Step(Err(ValueError), finished.state)
                  else ProcessServerFinished(s, finished.state, Deliver(serverFinished.result.value.value, x.wire4));
    Trace(hello, serverHello, finished, serverFinished, accept)
  }

  /** A message that a call returned has a byte form. */
  lemma ReturnedEncodes(s: Suite, c: ClientState, v: ServerState, x: Choices, t: Trace)
    requires IsRun(s, c, v, x, t)
    ensures t.hello.result.Ok? ==> Encode(t.hello.result.value).Ok?
    ensures t.hello.result.Ok? && t.serverHello.result.Ok? ==> Encode(t.serverHello.result.value).Ok?
    ensures t.serverHello.result.Ok? && t.finished.result.Ok? ==> Encode(t.finished.result.value).Ok?
    ensures t.finished.result.Ok? && t.serverFinished.result.Ok? && t.serverFinished.result.value.Some? ==>
      Encode(t.serverFinished.result.value.value).Ok?
  {
    hide Encode, Get, Deliver, IsUtf8, SignedHash, Inputs.ClientTag, Inputs.ServerTag, ProcessServerFinished;
  }

  /** How a run can end. */
  lemma Outcomes(s: Suite, c: ClientState, v: ServerState, x: Choices, t: Trace)
    requires IsRun(s, c, v, x, t)
    ensures
      var (r, c', v') := Ending(t, v);
      && (Honest(s, c, v, x) ==> r == Ok(true) && Reached4(t) && c'.accepted && v'.accepted && Agree(c', v'))
      && (r.Ok? && IsUtf8(c.clientId) && InFlight(c, v) == (0, 0) ==> InFlight(c', v') == (0, 0))
  {
    hide Encode, IsUtf8, Honest, Agree, IsRun;
    if Honest(s, c, v, x) {
      HonestRunCompletes(s, c, v, x, t);
    }
    if IsUtf8(c.clientId) && InFlight(c, v) == (0, 0) {
      CountersBalance(s, c, v, x, t);
    }
  }

  const TEST_CLIENT := Ascii("test_client")

  datatype Report = Report(clientHello: nat, serverHello: nat, clientFinished: nat, serverFinished: nat,
                           totalHandshake: nat, clientAuthPayload: nat, overhead: int)

  /**
    `measure_ria_qkd`: two fresh objects, one enrolment, five calls. The RuntimeError (None) never happens, and with
    the ML-KEM-512 and ML-DSA-44 lengths the report is the one the artifact documents.
   */
  method MeasureRiaQkd(s: Suite, masterKey: bytes, staticSeed: bytes, sigSeed: bytes, x: Choices)
    returns (r: Option<Report>)
    requires s.DigestSized() && s.Correct() && s.Fits() && |x.nonce| == 32
    ensures r.Some?
    ensures Nominal(s) ==> r == Some(Report(904, 4825, 835, 55, 6619, 835, 69))
  {
    hide Encode, IsUtf8, IsRun, Ending, Agree, Suite.Correct, Suite.Fits, ApplicationKey;
    var applicationKey := ApplicationKey(s, masterKey, TEST_CLIENT, EPOCH_1);
    var client := new Client(s, TEST_CLIENT, None, staticSeed, applicationKey, SERVER_ID, EPOCH_1);
    var server := new Server(s, Some(masterKey), None, sigSeed, map[], SERVER_ID);
    server.Enroll(TEST_CLIENT, client.staticKeys.pk);
    ghost var c, v := client.State(), server.State();
    FreshAreHonest(s, masterKey, staticSeed, sigSeed, x, c, v);
    var ok, sizes, t := RunHandshake(client, server, x);
    if ok != Ok(true) {
      return None;
    }
    var total := sizes[0] + sizes[1] + sizes[2] + sizes[3];
    var overhead: int := sizes[1] as int - (800 + 2 * 768 + 2420);
    r := Some(Report(sizes[0], sizes[1], sizes[2], sizes[3], total, sizes[2], overhead));
    if Nominal(s) {
      NominalSizes(s, c, v, x, t);
    }
  }

  /** Fresh objects, the demo identity enrolled, and the application key both sides derive from the master key. */
  lemma FreshAreHonest(s: Suite, masterKey: bytes, staticSeed: bytes, sigSeed: bytes, x: Choices,
                       c: ClientState, v: ServerState)
    requires s.DigestSized() && s.Correct() && s.Fits() && |x.nonce| == 32
    requires c == NewClient(s, TEST_CLIENT, s.kemKeygen(staticSeed),
                            ApplicationKey(s, masterKey, TEST_CLIENT, EPOCH_1), SERVER_ID, EPOCH_1)
    requires v == NewServer(Some(masterKey), s.sigKeygen(sigSeed), map[TEST_CLIENT := c.staticKeys.pk], SERVER_ID)
    ensures Honest(s, c, v, x) && InFlight(c, v) == (0, 0)
  {
    hide IsUtf8, Suite.Correct, Suite.Fits;
    assert |ApplicationKey(s, masterKey, TEST_CLIENT, EPOCH_1)| == 32;
    AsciiIsText("test_client");
  }
}
