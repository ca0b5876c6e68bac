/**
  The multi-handshake loops of `run_client` and `run_server` in `network/bench_network_1000.py`, as steps of two
  processes over two byte streams. A step runs from one receive to the next; verification outcomes are arbitrary.
 */
module Session {
  import opened Bytes
  import opened Framing
  import opened Wire

  /** How a round ended for the client. */
  datatype Outcome = BadSignature | BadClientTag | BadServerTag | Success

  datatype ClientPc = Sending | AwaitM2 | AwaitM4 | Ended | ClientRaised
  datatype ServerPc = AwaitM1 | AwaitM3 | Finished | Disconnected | ServerRaised

  /** `rounds` counts the warm-up in. */
  datatype State = State(
    rounds: nat, warmup: nat,
    cpc: ClientPc, i: nat, errors: nat, latencies: seq<nat>, m1: M1, m3: M3,
    spc: ServerPc, completed: nat, m2: M2, tag: bytes,
    c2s: bytes, s2c: bytes,
    log: seq<Outcome>)

  const NO_M1 := M1([], [], [], [])
  const NO_M2 := M2([], [], [], [])
  const NO_M3 := M3([], [])

  function Start(rounds: nat, warmup: nat): State {
    State(rounds, warmup, Sending, 0, 0, [], NO_M1, NO_M3, LoopTop(0, rounds), 0, NO_M2, [], [], [], [])
  }

  /** `while completed < n_total` */
  function LoopTop(completed: nat, rounds: nat): ServerPc {
    if completed < rounds then AwaitM1 else Finished
  }

  // ---------- the client ----------

  /** What one client step draws or finds out. */
  datatype ClientChoice = ClientChoice(m1: M1, m3: M3, signatureOk: bool, tagOk: bool) {
    ghost predicate Valid() {
      && Fits(m1.id) && Fits(m1.pk) && |m1.epoch| == 4 && |m1.nonce| == 32
      && Fits(m3.ct) && |m3.tag| == 32
    }
  }

  /** `errors += 1; continue`, or the end of a successful round. */
  function EndRound(st: State, o: Outcome): State {
    st.(cpc := Sending, i := st.i + 1, log := st.log + [o],
        errors := if o.Success? then st.errors else st.errors + 1,
        latencies := if o.Success? && st.i >= st.warmup then st.latencies + [st.i] else st.latencies)
  }

  /** The next client step; None while it is blocked in a receive, and after its end. */
  function ClientStep(st: State, x: ClientChoice): Option<State> {
    match st.cpc
    case Sending =>
      if st.i >= st.rounds then Some(st.(cpc := Ended))
      else (
        match BuildM1(x.m1)
        case Err(_) => Some(st.(cpc := ClientRaised))
        case Ok(b) => Some(st.(cpc := AwaitM2, m1 := x.m1, c2s := st.c2s + Frame(b))))
    case AwaitM2 => (
      match TakeFrame(st.s2c)
      case None => if st.spc.AwaitM1? || st.spc.AwaitM3? then None else Some(st.(cpc := ClientRaised))
      case Some((b, rest)) =>
        var st1 := st.(s2c := rest);
        if ParseM2(b).Err? then Some(st1.(cpc := ClientRaised))
        else if !x.signatureOk then Some(EndRound(st1.(c2s := st.c2s + Frame(FAIL)), BadSignature))
        else (
          match BuildM3(x.m3)
          case Err(_) => Some(st1.(cpc := ClientRaised))
          case Ok(b3) => Some(st1.(cpc := AwaitM4, m3 := x.m3, c2s := st.c2s + Frame(b3)))))
    case AwaitM4 => (
      match TakeFrame(st.s2c)
      case None => if st.spc.AwaitM1? || st.spc.AwaitM3? then None else Some(st.(cpc := ClientRaised))
      case Some((b, rest)) =>
        var o := if b == FAIL then BadClientTag else if !x.tagOk then BadServerTag else Success;
        Some(EndRound(st.(s2c := rest), o)))
    case Ended => None
    case ClientRaised => None
  }

  // ---------- the server ----------

  datatype ServerChoice = ServerChoice(m2: M2, tag: bytes, tagOk: bool) {
    ghost predicate Valid() {
      && Fits(m2.pk) && Fits(m2.ct1) && Fits(m2.ct2) && Fits(m2.sig)
      && |tag| == 32
    }
  }

  predicate ClientGone(st: State) {
    st.cpc.Ended? || st.cpc.ClientRaised?
  }

  function ServerStep(st: State, y: ServerChoice): Option<State> {
    match st.spc
    case AwaitM1 => (
      match TakeFrame(st.c2s)
      case None => if ClientGone(st) then Some(st.(spc := Disconnected)) else None
      case Some((b, rest)) =>
        var st1 := st.(c2s := rest);
        if ParseM1(b).Err? then Some(st1.(spc := ServerRaised))
        else (
          match BuildM2(y.m2)
          case Err(_) => Some(st1.(spc := ServerRaised))
          case Ok(b2) => Some(st1.(spc := AwaitM3, m2 := y.m2, s2c := st.s2c + Frame(b2)))))
    case AwaitM3 => (
      match TakeFrame(st.c2s)
      case None => if ClientGone(st) then Some(st.(spc := Disconnected)) else None
      case Some((b, rest)) =>
        var st1 := st.(c2s := rest);
        if b == FAIL then Some(st1.(spc := LoopTop(st.completed, st.rounds)))
        else if ParseM3(b).Err? then Some(st1.(spc := ServerRaised))
        else if !y.tagOk then Some(st1.(spc := LoopTop(st.completed, st.rounds), s2c := st.s2c + Frame(FAIL)))
        else Some(st1.(spc := LoopTop(st.completed + 1, st.rounds), completed := st.completed + 1, tag := y.tag,
                       s2c := st.s2c + Frame(y.tag))))
    case Finished => None
    case Disconnected => None
    case ServerRaised => None
  }

  // ---------- runs ----------

  datatype Turn = ClientTurn(x: ClientChoice) | ServerTurn(y: ServerChoice) {
    ghost predicate Valid() {
      if ClientTurn? then x.Valid() else y.Valid()
    }
  }

  function Take(st: State, turn: Turn): Option<State> {
    match turn
    case ClientTurn(x) => ClientStep(st, x)
    case ServerTurn(y) => ServerStep(st, y)
  }

  /** Any interleaving; a turn given to a blocked process changes nothing. */
  function Run(st: State, turns: seq<Turn>): State {
    if turns == [] then st
    else
      var before := Run(st, turns[..|turns| - 1]);
      match Take(before, turns[|turns| - 1])
      case Some(after) => after
      case None => before
  }

  // ---------- what the log says ----------

  /** Rounds the server counts as completed: its own check passed, whatever the client made of m4. */
  function Completions(log: seq<Outcome>): nat {
    if log == [] then 0
    else
      var o := log[|log| - 1];
      Completions(log[..|log| - 1]) + if o.Success? || o.BadServerTag? then 1 else 0
  }

  function Errors(log: seq<Outcome>): nat {
    if log == [] then 0 else Errors(log[..|log| - 1]) + if log[|log| - 1].Success? then 0 else 1
  }

  /** The successful rounds after the warm-up, in order. */
  function Measured(log: seq<Outcome>, warmup: nat): seq<nat> {
    if log == [] then []
    else
      var k := |log| - 1;
      Measured(log[..k], warmup) + if log[k].Success? && k >= warmup then [k] else []
  }

  lemma Extend(log: seq<Outcome>, warmup: nat, o: Outcome)
    ensures Completions(log + [o]) == Completions(log) + if o.Success? || o.BadServerTag? then 1 else 0
    ensures Errors(log + [o]) == Errors(log) + if o.Success? then 0 else 1
    ensures Measured(log + [o], warmup)
            == Measured(log, warmup) + if o.Success? && |log| >= warmup then [|log|] else []
  {
    assert (log + [o])[..|log|] == log;
  }

  lemma {:induction false} CompletionsBound(log: seq<Outcome>)
    ensures Completions(log) <= |log|
    ensures Completions(log) == |log| <==> forall o :: o in log ==> o.Success? || o.BadServerTag?
  {
    if log != [] {
      var front, last := log[..|log| - 1], log[|log| - 1];
      CompletionsBound(front);
      assert forall o :: o in log <==> o in front || o == last;
    }
  }

  // ---------- the invariant ----------

  /** The frames the invariant speaks about; their contents are what their senders last built. */
  function F1(st: State): bytes
    requires BuildM1(st.m1).Ok?
  {
    Frame(BuildM1(st.m1).value)
  }

  function F2(st: State): bytes
    requires BuildM2(st.m2).Ok?
  {
    Frame(BuildM2(st.m2).value)
  }

  function F3(st: State): bytes
    requires BuildM3(st.m3).Ok?
  {
    Frame(BuildM3(st.m3).value)
  }

  ghost predicate GoodM1(m: M1) {
    Fits(m.id) && Fits(m.pk) && |m.epoch| == 4 && |m.nonce| == 32 && BuildM1(m).Ok?
  }

  ghost predicate GoodM2(m: M2) {
    Fits(m.pk) && Fits(m.ct1) && Fits(m.ct2) && Fits(m.sig) && BuildM2(m).Ok?
  }

  ghost predicate GoodM3(m: M3) {
    Fits(m.ct) && |m.tag| == 32 && BuildM3(m).Ok?
  }

  /** The tag the server computed last is on its way. */
  predicate TagSent(st: State) {
    |st.tag| == 32 && st.s2c == Frame(st.tag)
  }

  /** Which control points can be reached together, and what is then in the two streams. */
  ghost predicate InStep(st: State) {
    match (st.cpc, st.spc)
    case (Sending, AwaitM1) => st.c2s == [] && st.s2c == [] && st.completed == Completions(st.log)
    case (Sending, AwaitM3) => st.c2s == Frame(FAIL) && st.s2c == [] && st.completed == Completions(st.log)
    case (Sending, Finished) => st.c2s == [] && st.s2c == [] && st.completed == Completions(st.log)
    case (AwaitM2, AwaitM1) =>
      st.i < st.rounds && GoodM1(st.m1) && st.c2s == F1(st) && st.s2c == [] && st.completed == Completions(st.log)
    case (AwaitM2, AwaitM3) =>
      && st.i < st.rounds && GoodM1(st.m1) && st.completed == Completions(st.log)
      && ((GoodM2(st.m2) && st.c2s == [] && st.s2c == F2(st)) || (st.c2s == Frame(FAIL) + F1(st) && st.s2c == []))
    case (AwaitM4, AwaitM3) =>
      st.i < st.rounds && GoodM3(st.m3) && st.c2s == F3(st) && st.s2c == [] && st.completed == Completions(st.log)
    case (AwaitM4, AwaitM1) =>
      && st.i < st.rounds && st.c2s == []
      && ((st.s2c == Frame(FAIL) && st.completed == Completions(st.log))
          || (TagSent(st) && st.completed == Completions(st.log) + 1))
    case (AwaitM4, Finished) =>
      st.i < st.rounds && st.c2s == [] && TagSent(st) && st.completed == Completions(st.log) + 1
    case (Ended, AwaitM1) => st.i == st.rounds && st.c2s == [] && st.s2c == [] && st.completed == Completions(st.log)
    case (Ended, AwaitM3) =>
      st.i == st.rounds && st.c2s == Frame(FAIL) && st.s2c == [] && st.completed == Completions(st.log)
    case (Ended, Disconnected) =>
      st.i == st.rounds && st.c2s == [] && st.s2c == [] && st.completed == Completions(st.log)
    case (Ended, Finished) => st.i == st.rounds && st.c2s == [] && st.s2c == [] && st.completed == Completions(st.log)
    case _ => false
  }

  ghost predicate Counted(st: State) {
    && |st.log| == st.i <= st.rounds
    && st.errors == Errors(st.log)
    && st.latencies == Measured(st.log, st.warmup)
    && st.completed <= st.rounds
    && (st.spc.Finished? <==> st.completed == st.rounds)
  }

  ghost predicate Inv(st: State) {
    InStep(st) && Counted(st)
  }

  lemma StartInv(rounds: nat, warmup: nat)
    ensures Inv(Start(rounds, warmup))
  {}

  /** One frame in a stream is taken whole; a second one behind it stays. */
  lemma FramesIn(m: bytes, rest: bytes)
    requires |m| < FRAME_LIMIT
    ensures TakeFrame(Frame(m)) == Some((m, [])) && TakeFrame(Frame(m) + rest) == Some((m, rest))
  {
    TakeWhole(m, []);
    TakeWhole(m, rest);
    assert Frame(m) + [] == Frame(m);
  }

  lemma Built(m1: M1, m2: M2, m3: M3)
    ensures Fits(m1.id) && Fits(m1.pk) && |m1.epoch| == 4 && |m1.nonce| == 32 ==>
      GoodM1(m1) && |BuildM1(m1).value| < FRAME_LIMIT && ParseM1(BuildM1(m1).value) == Ok(m1)
    ensures Fits(m2.pk) && Fits(m2.ct1) && Fits(m2.ct2) && Fits(m2.sig) ==>
      GoodM2(m2) && |BuildM2(m2).value| < FRAME_LIMIT && ParseM2(BuildM2(m2).value) == Ok(m2)
    ensures Fits(m3.ct) && |m3.tag| == 32 ==>
      && GoodM3(m3) && |BuildM3(m3).value| < FRAME_LIMIT
      && ParseM3(BuildM3(m3).value) == Ok(m3) && BuildM3(m3).value != FAIL
  {
    if Fits(m1.id) && Fits(m1.pk) && |m1.epoch| == 4 && |m1.nonce| == 32 {
      M1RoundTrip(m1);
    }
    if Fits(m2.pk) && Fits(m2.ct1) && Fits(m2.ct2) && Fits(m2.sig) {
      M2RoundTrip(m2);
    }
    if Fits(m3.ct) && |m3.tag| == 32 {
      M3RoundTrip(m3);
      NotFail(m3);
    }
  }

  lemma ClientKeeps(st: State, x: ClientChoice)
    requires Inv(st) && x.Valid() && ClientStep(st, x).Some?
    ensures Inv(ClientStep(st, x).value)
  {
    hide Frame, TakeFrame, BuildM1, BuildM2, BuildM3, ParseM1, ParseM2, ParseM3, Completions, Errors, Measured;
    Built(x.m1, st.m2, x.m3);
    Extend(st.log, st.warmup, BadSignature);
    Extend(st.log, st.warmup, BadClientTag);
    Extend(st.log, st.warmup, BadServerTag);
    Extend(st.log, st.warmup, Success);
    CompletionsBound(st.log);
    match st.cpc
    case Sending =>
    case AwaitM2 =>
      NothingToTake();
      if st.s2c != [] {
        FramesIn(BuildM2(st.m2).value, []);
      }
    case AwaitM4 =>
      NothingToTake();
      if TagSent(st) {
        FailIsNoTag(st);
      }
      if st.s2c == Frame(FAIL) {
        FramesIn(FAIL, []);
      } else if st.s2c != [] {
        assert |FAIL| == 4;
        FramesIn(st.tag, []);
      }
  }

  lemma FailIsNoTag(st: State)
    requires TagSent(st)
    ensures st.s2c != Frame(FAIL)
  {}

  lemma NothingToTake()
    ensures TakeFrame([]) == None
  {}

  lemma ServerKeeps(st: State, y: ServerChoice)
    requires Inv(st) && y.Valid() && ServerStep(st, y).Some?
    ensures Inv(ServerStep(st, y).value)
  {
    hide Frame, TakeFrame, BuildM1, BuildM2, BuildM3, ParseM1, ParseM2, ParseM3, Completions, Errors, Measured;
    Built(st.m1, y.m2, st.m3);
    CompletionsBound(st.log);
    NothingToTake();
    match st.spc
    case AwaitM1 =>
      if st.c2s != [] {
        FramesIn(BuildM1(st.m1).value, []);
      }
    case AwaitM3 =>
      if st.cpc.AwaitM4? {
        FramesIn(BuildM3(st.m3).value, []);
      } else if st.cpc.AwaitM2? && st.c2s != [] {
        FramesIn(FAIL, F1(st));
      } else {
        FramesIn(FAIL, []);
      }
  }

  // ---------- what every run keeps ----------

  ghost predicate AllValid(turns: seq<Turn>) {
    forall t :: t in turns ==> t.Valid()
  }

  lemma {:induction false} RunKeeps(rounds: nat, warmup: nat, turns: seq<Turn>)
    requires AllValid(turns)
    ensures Inv(Run(Start(rounds, warmup), turns))
    ensures Run(Start(rounds, warmup), turns).rounds == rounds && Run(Start(rounds, warmup), turns).warmup == warmup
  {
    hide Inv, ClientStep, ServerStep;
    if turns == [] {
      StartInv(rounds, warmup);
    } else {
      var before := Run(Start(rounds, warmup), turns[..|turns| - 1]);
      RunKeeps(rounds, warmup, turns[..|turns| - 1]);
      assert turns[|turns| - 1].Valid();
      StepKeeps(before, turns[|turns| - 1]);
    }
  }

  lemma StepKeeps(st: State, turn: Turn)
    requires Inv(st) && turn.Valid()
    ensures Take(st, turn).Some? ==>
      Inv(Take(st, turn).value) && Take(st, turn).value.rounds == st.rounds && Take(st, turn).value.warmup == st.warmup
  {
    hide InStep, Counted, ParseM1, ParseM2, ParseM3, BuildM1, BuildM2, BuildM3, Frame, TakeFrame;
    match turn
    case ClientTurn(x) =>
      if ClientStep(st, x).Some? {
        ClientKeeps(st, x);
      }
    case ServerTurn(y) =>
      if ServerStep(st, y).Some? {
        ServerKeeps(st, y);
      }
  }

  /** Client to server there is only ever nothing, [m1], [m3], [FAIL] or [FAIL, m1]; the other way one frame at most. */
  lemma Queues(rounds: nat, warmup: nat, turns: seq<Turn>)
    requires AllValid(turns)
    ensures
      var st := Run(Start(rounds, warmup), turns);
      && (|| st.c2s == []
          || (BuildM1(st.m1).Ok? && st.c2s == F1(st))
          || (BuildM3(st.m3).Ok? && st.c2s == F3(st))
          || st.c2s == Frame(FAIL)
          || (BuildM1(st.m1).Ok? && st.c2s == Frame(FAIL) + F1(st)))
      && (|| st.s2c == []
          || (BuildM2(st.m2).Ok? && st.s2c == F2(st))
          || TagSent(st)
          || st.s2c == Frame(FAIL))
  {
    hide Frame, Run;
    RunKeeps(rounds, warmup, turns);
  }

  /** No exception, and every frame is read as what it was sent as, with the fields that were sent. */
  lemma NothingMisread(rounds: nat, warmup: nat, turns: seq<Turn>)
    requires AllValid(turns)
    ensures
      var st := Run(Start(rounds, warmup), turns);
      && !st.cpc.ClientRaised? && !st.spc.ServerRaised?
      && (st.spc.AwaitM1? && TakeFrame(st.c2s).Some? ==> ParseM1(TakeFrame(st.c2s).value.0) == Ok(st.m1))
      && (st.cpc.AwaitM2? && TakeFrame(st.s2c).Some? ==> ParseM2(TakeFrame(st.s2c).value.0) == Ok(st.m2))
      && (st.spc.AwaitM3? && TakeFrame(st.c2s).Some? ==>
            var b := TakeFrame(st.c2s).value.0;
            if st.cpc.AwaitM4? then b != FAIL && ParseM3(b) == Ok(st.m3) else b == FAIL)
      && (st.cpc.AwaitM4? && TakeFrame(st.s2c).Some? ==>
            var b := TakeFrame(st.s2c).value.0;
            if st.completed == Completions(st.log) then b == FAIL else b == st.tag && |b| == 32)
  {
    hide Frame, TakeFrame, BuildM1, BuildM2, BuildM3, ParseM1, ParseM2, ParseM3, Completions, Run;
    RunKeeps(rounds, warmup, turns);
    var st := Run(Start(rounds, warmup), turns);
    Built(st.m1, st.m2, st.m3);
    NothingToTake();
    if st.c2s != [] {
      if st.spc.AwaitM1? {
        FramesIn(BuildM1(st.m1).value, []);
      } else if st.cpc.AwaitM4? {
        FramesIn(BuildM3(st.m3).value, []);
      } else if st.cpc.AwaitM2? {
        FramesIn(FAIL, F1(st));
      } else {
        FramesIn(FAIL, []);
      }
    }
    if st.s2c != [] {
      if st.cpc.AwaitM2? {
        FramesIn(BuildM2(st.m2).value, []);
      } else if TagSent(st) {
        FramesIn(st.tag, []);
        FailIsNoTag(st);
      } else {
        FramesIn(FAIL, []);
      }
    }
  }

  /** Until the client has ended its rounds one of the two can move. */
  lemma NeverStuck(rounds: nat, warmup: nat, turns: seq<Turn>, x: ClientChoice, y: ServerChoice)
    requires AllValid(turns)
    ensures
      var st := Run(Start(rounds, warmup), turns);
      !st.cpc.Ended? ==> ClientStep(st, x).Some? || ServerStep(st, y).Some?
  {
    hide Inv, ClientStep, ServerStep, Run;
    RunKeeps(rounds, warmup, turns);
    var st := Run(Start(rounds, warmup), turns);
    if !st.cpc.Ended? {
      OneCanMove(st, x, y);
    }
  }

  lemma OneCanMove(st: State, x: ClientChoice, y: ServerChoice)
    requires Inv(st) && !st.cpc.Ended?
    ensures ClientStep(st, x).Some? || ServerStep(st, y).Some?
  {
    hide Frame, TakeFrame, BuildM1, BuildM2, BuildM3, ParseM1, ParseM2, ParseM3, Completions;
    Built(st.m1, st.m2, st.m3);
    NothingToTake();
    if st.c2s != [] {
      if st.spc.AwaitM1? {
        FramesIn(BuildM1(st.m1).value, []);
      } else if st.cpc.AwaitM4? {
        FramesIn(BuildM3(st.m3).value, []);
      } else if st.cpc.AwaitM2? {
        FramesIn(FAIL, F1(st));
      }
    } else if st.s2c == Frame(FAIL) {
      FramesIn(FAIL, []);
    } else if TagSent(st) {
      FramesIn(st.tag, []);
    } else if st.cpc.AwaitM2? {
      FramesIn(BuildM2(st.m2).value, []);
    }
  }

  /** Steps left at most: it goes down with every step, so no run goes on for ever. */
  function Remaining(st: State): nat {
    (if st.i <= st.rounds then 10 * (st.rounds - st.i) else 0)
    + (match st.cpc case Sending => 6 case AwaitM2 => 4 case AwaitM4 => 2 case _ => 0)
    + (if st.c2s == [] then 0 else if st.cpc.AwaitM2? && st.spc.AwaitM3? then 2 else 1)
    + (if st.spc.AwaitM1? || st.spc.AwaitM3? then 1 else 0)
  }

  lemma ClientStepCounts(st: State, x: ClientChoice)
    requires Inv(st) && x.Valid() && ClientStep(st, x).Some?
    ensures Remaining(ClientStep(st, x).value) < Remaining(st)
  {
    hide Frame, TakeFrame, BuildM1, BuildM2, BuildM3, ParseM1, ParseM2, ParseM3, Completions, Errors, Measured;
    ClientKeeps(st, x);
    Built(x.m1, st.m2, x.m3);
  }

  lemma ServerStepCounts(st: State, y: ServerChoice)
    requires Inv(st) && y.Valid() && ServerStep(st, y).Some?
    ensures Remaining(ServerStep(st, y).value) < Remaining(st)
  {
    hide Frame, TakeFrame, BuildM1, BuildM2, BuildM3, ParseM1, ParseM2, ParseM3, Completions, Errors, Measured;
    ServerKeeps(st, y);
    NothingToTake();
    Built(st.m1, y.m2, st.m3);
    if st.cpc.AwaitM2? && st.spc.AwaitM3? && st.c2s != [] {
      FramesIn(FAIL, F1(st));
    }
  }

  // ---------- accounting ----------

  /** The counters of both sides at every moment, in terms of the round outcomes. */
  lemma Accounts(rounds: nat, warmup: nat, turns: seq<Turn>)
    requires AllValid(turns)
    ensures
      var st := Run(Start(rounds, warmup), turns);
      && st.errors == Errors(st.log) && |st.log| == st.i <= rounds
      && st.latencies == Measured(st.log, st.warmup)
      && st.completed == Completions(st.log) + (if st.cpc.AwaitM4? && TagSent(st) then 1 else 0)
      && st.completed <= rounds
  {
    hide Run, Completions, Errors, Measured;
    RunKeeps(rounds, warmup, turns);
    var st := Run(Start(rounds, warmup), turns);
    if st.cpc.AwaitM4? && TagSent(st) {
      FailIsNoTag(st);
    }
  }

  /** A run is over when neither side can move, whatever it would draw. */
  ghost predicate Over(st: State) {
    && (forall x: ClientChoice :: x.Valid() ==> ClientStep(st, x).None?)
    && (forall y: ServerChoice :: y.Valid() ==> ServerStep(st, y).None?)
  }

  /** A failure marker crossed in one direction or the other. */
  ghost predicate FailCrossed(log: seq<Outcome>) {
    BadSignature in log || BadClientTag in log
  }

  /**
    Every run that is over has the client at the end of its rounds; the server ends its loop exactly when no failure
    marker crossed, and otherwise finds its peer gone.
   */
  lemma AtTheEnd(rounds: nat, warmup: nat, turns: seq<Turn>)
    requires AllValid(turns) && Over(Run(Start(rounds, warmup), turns))
    ensures
      var st := Run(Start(rounds, warmup), turns);
      && st.cpc.Ended? && st.i == rounds == |st.log|
      && st.completed == Completions(st.log)
      && (st.spc.Finished? <==> !FailCrossed(st.log))
      && (st.spc.Disconnected? <==> FailCrossed(st.log))
      && (st.completed == rounds <==> !FailCrossed(st.log))
      && st.c2s == [] && st.s2c == []
  {
    hide Run, Completions, TakeFrame, BuildM1, BuildM2, BuildM3, ParseM1, ParseM2, ParseM3;
    var st := Run(Start(rounds, warmup), turns);
    RunKeeps(rounds, warmup, turns);
    var x := ClientChoice(M1([], Zeros(4), Zeros(32), []), M3([], Zeros(32)), true, true);
    var y := ServerChoice(M2([], [], [], []), Zeros(32), true);
    assert x.Valid() && y.Valid();
    NeverStuck(rounds, warmup, turns, x, y);
    NothingToTake();
    FramesIn(FAIL, []);
    assert !st.spc.AwaitM1? && !st.spc.AwaitM3?;
    CompletionsBound(st.log);
    assert FailCrossed(st.log) <==> exists o :: o in st.log && !(o.Success? || o.BadServerTag?);
  }

  /** `latencies` holds exactly the successful rounds from the warm-up on, each once and in order. */
  lemma {:induction false} MeasuredIs(log: seq<Outcome>, warmup: nat)
    ensures forall k :: k in Measured(log, warmup) <==> warmup <= k < |log| && log[k].Success?
    ensures forall a, b :: 0 <= a < b < |Measured(log, warmup)| ==> Measured(log, warmup)[a] < Measured(log, warmup)[b]
  {
    if log != [] {
      var k := |log| - 1;
      var front := log[..k];
      MeasuredIs(front, warmup);
      var m := Measured(front, warmup);
      assert Measured(log, warmup) == m + if log[k].Success? && k >= warmup then [k] else [];
      assert forall a :: 0 <= a < |m| ==> m[a] in m;
    }
  }
}
