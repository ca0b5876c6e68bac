/** What the log of `Session` records: the outcome of every round, told by the checks that were made in it. */
module Verdicts {
  import opened Bytes
  import opened Framing
  import opened Wire
  import opened Session

  /** The checks of one round, as far as they were made: the signature, the client's tag, the server's tag. */
  datatype Checks = Checks(signature: Option<bool>, clientTag: Option<bool>, serverTag: Option<bool>)

  const NONE_YET := Checks(None, None, None)

  /**
    The checks observed after one more turn, from the outside: which process moved, what it was waiting for, which
    frame was next, and what its verification function returned. Nothing of what the step records is used.
   */
  function Observe(h: seq<Checks>, st: State, turn: Turn): seq<Checks> {
    match turn
    case ClientTurn(x) =>
      if st.cpc.Sending? && st.i < st.rounds then h + [NONE_YET]
      else if h == [] then h
      else if st.cpc.AwaitM2? && TakeFrame(st.s2c).Some? then Last(h, h[|h| - 1].(signature := Some(x.signatureOk)))
      else if st.cpc.AwaitM4? && TakeFrame(st.s2c).Some? && TakeFrame(st.s2c).value.0 != FAIL
      then Last(h, h[|h| - 1].(serverTag := Some(x.tagOk)))
      else h
    case ServerTurn(y) =>
      if h != [] && st.spc.AwaitM3? && TakeFrame(st.c2s).Some? && TakeFrame(st.c2s).value.0 != FAIL
      then Last(h, h[|h| - 1].(clientTag := Some(y.tagOk)))
      else h
  }

  /** The list with another last element. */
  function Last(h: seq<Checks>, c: Checks): (r: seq<Checks>)
    requires h != []
    ensures |r| == |h|
  {
    h[..|h| - 1] + [c]
  }

  function Observed(st: State, turns: seq<Turn>): seq<Checks> {
    if turns == [] then []
    else
      var front, turn := turns[..|turns| - 1], turns[|turns| - 1];
      Observe(Observed(st, front), Run(st, front), turn)
  }

  /** The checks behind each outcome. */
  function Behind(o: Outcome): Checks {
    match o
    case BadSignature => Checks(Some(false), None, None)
    case BadClientTag => Checks(Some(true), Some(false), None)
    case BadServerTag => Checks(Some(true), Some(true), Some(false))
    case Success => Checks(Some(true), Some(true), Some(true))
  }

  /** Rounds in which the server's check of the client's tag held. */
  function Passed(h: seq<Checks>): nat {
    if h == [] then 0 else Passed(h[..|h| - 1]) + if h[|h| - 1].clientTag == Some(true) then 1 else 0
  }

  /** The log tells the finished rounds; the last element is the round under way. */
  ghost predicate Told(st: State, h: seq<Checks>) {
    && |h| == st.i + (if st.cpc.AwaitM2? || st.cpc.AwaitM4? then 1 else 0)
    && |st.log| == st.i
    && (forall k :: 0 <= k < |st.log| ==> h[k] == Behind(st.log[k]))
    && st.completed == Passed(h)
    && (st.cpc.AwaitM2? ==> h[st.i] == NONE_YET)
    && (st.cpc.AwaitM4? ==>
          h[st.i] == Checks(Some(true), if st.spc.AwaitM3? then None else Some(st.s2c != Frame(FAIL)), None))
  }

  lemma PassedLast(h: seq<Checks>, c: Checks)
    ensures Passed(h + [c]) == Passed(h) + if c.clientTag == Some(true) then 1 else 0
  {
    assert (h + [c])[..|h|] == h;
  }

  lemma ClientTells(st: State, h: seq<Checks>, x: ClientChoice)
    requires Inv(st) && Told(st, h) && x.Valid()
    ensures
      match ClientStep(st, x)
      case Some(st') => Told(st', Observe(h, st, ClientTurn(x)))
      case None => Observe(h, st, ClientTurn(x)) == h
  {
    hide Frame, TakeFrame, BuildM1, BuildM2, BuildM3, ParseM1, ParseM2, ParseM3, Completions, Errors, Measured, Passed;
    Built(x.m1, st.m2, x.m3);
    NothingToTake();
    PassedLast(h, NONE_YET);
    match st.cpc
    case AwaitM2 =>
      RoundUnderWay(h);
      if st.s2c != [] {
        FramesIn(BuildM2(st.m2).value, []);
        PassedLast(h[..|h| - 1], h[|h| - 1].(signature := Some(x.signatureOk)));
      }
    case AwaitM4 =>
      RoundUnderWay(h);
      if TagSent(st) {
        FailIsNoTag(st);
        FramesIn(st.tag, []);
        assert |FAIL| == 4;
        PassedLast(h[..|h| - 1], h[|h| - 1].(serverTag := Some(x.tagOk)));
      } else if st.s2c != [] {
        FramesIn(FAIL, []);
      }
    case _ =>
  }

  lemma RoundUnderWay(h: seq<Checks>)
    ensures h != [] ==> h == h[..|h| - 1] + [h[|h| - 1]]
    ensures h != [] ==> Passed(h) == Passed(h[..|h| - 1]) + if h[|h| - 1].clientTag == Some(true) then 1 else 0
  {
    hide Passed;
    if h != [] {
      assert h == h[..|h| - 1] + [h[|h| - 1]];
      PassedLast(h[..|h| - 1], h[|h| - 1]);
    }
  }

  lemma ServerTells(st: State, h: seq<Checks>, y: ServerChoice)
    requires Inv(st) && Told(st, h) && y.Valid()
    ensures
      match ServerStep(st, y)
      case Some(st') => Told(st', Observe(h, st, ServerTurn(y)))
      case None => Observe(h, st, ServerTurn(y)) == h
  {
    hide Frame, TakeFrame, BuildM1, BuildM2, BuildM3, ParseM1, ParseM2, ParseM3, Completions, Errors, Measured, Passed;
    Built(st.m1, y.m2, st.m3);
    NothingToTake();
    RoundUnderWay(h);
    match st.spc
    case AwaitM3 =>
      if st.cpc.AwaitM4? {
        FramesIn(BuildM3(st.m3).value, []);
        PassedLast(h[..|h| - 1], h[|h| - 1].(clientTag := Some(y.tagOk)));
        TagIsNotFail(y.tag);
      } else if st.cpc.AwaitM2? && st.c2s != [] {
        FramesIn(FAIL, F1(st));
      } else {
        FramesIn(FAIL, []);
      }
    case _ =>
  }

  lemma TagIsNotFail(tag: bytes)
    requires |tag| == 32
    ensures [] + Frame(tag) == Frame(tag) != Frame(FAIL) && [] + Frame(FAIL) == Frame(FAIL)
  {
    assert |FAIL| == 4;
  }

  /** In every run the history of checks and the state agree. */
  lemma {:induction false} RunTells(rounds: nat, warmup: nat, turns: seq<Turn>)
    requires AllValid(turns)
    ensures Told(Run(Start(rounds, warmup), turns), Observed(Start(rounds, warmup), turns))
  {
    hide Inv, Told, ClientStep, ServerStep, Observe;
    var start := Start(rounds, warmup);
    if turns == [] {
      NothingTold(rounds, warmup);
    } else {
      var front, turn := turns[..|turns| - 1], turns[|turns| - 1];
      RunTells(rounds, warmup, front);
      RunKeeps(rounds, warmup, front);
      assert turn.Valid();
      match turn
      case ClientTurn(x) => ClientTells(Run(start, front), Observed(start, front), x);
      case ServerTurn(y) => ServerTells(Run(start, front), Observed(start, front), y);
    }
  }

  lemma NothingTold(rounds: nat, warmup: nat)
    ensures Told(Start(rounds, warmup), [])
  {}

  /** Whether all three checks of a round were made and held. */
  predicate AllGood(c: Checks) {
    c == Checks(Some(true), Some(true), Some(true))
  }

  /**
    In every run, for every finished round: it is in the log as a bad signature exactly when the signature check
    failed, as a bad client tag exactly when the server's check failed, as a bad server tag exactly when the client's
    last check failed, and as a success exactly when all three were made and held. The latencies are the rounds with
    all three from the warm-up on, and the server has completed the rounds in which its own check held.
   */
  lemma OutcomesTold(rounds: nat, warmup: nat, turns: seq<Turn>)
    requires AllValid(turns)
    ensures
      var st, h := Run(Start(rounds, warmup), turns), Observed(Start(rounds, warmup), turns);
      && |st.log| == st.i <= |h|
      && (forall k :: 0 <= k < st.i ==>
            && (st.log[k].BadSignature? <==> h[k].signature == Some(false))
            && (st.log[k].BadClientTag? <==> h[k].clientTag == Some(false))
            && (st.log[k].BadServerTag? <==> h[k].serverTag == Some(false))
            && (st.log[k].Success? <==> AllGood(h[k])))
      && (forall k :: k in st.latencies <==> warmup <= k < st.i && AllGood(h[k]))
      && st.completed == Passed(h)
  {
    hide Run, Observed, Passed, InStep;
    RunTells(rounds, warmup, turns);
    RunKeeps(rounds, warmup, turns);
    MeasuredIs(Run(Start(rounds, warmup), turns).log, warmup);
  }
}
