/**
  The concurrent benchmark `network/bench_network_concurrency.py`: N pairs of a client process and a worker process,
  each pair over its own two byte streams, and one list that all workers append to. A pair runs the rounds of
  `Session` behind an enrolment; either process may die at any moment.
 */
module Concurrency {
  import opened Bytes
  import opened Framing
  import opened Wire
  import opened Session
  import Handshake

  const N_WARMUP: nat := 5

  // ---------- one client and its worker ----------

  datatype ClientPhase = Connecting | AwaitKey | InRounds
  datatype WorkerPhase = AwaitEnrolment | InLoop

  /**
    `id`, `pk` and `key` belong to the client, `enrolled` to the worker's own copy of the context. `todo` is a latency
    that is measured and not yet appended, `measured` the history of all of them, and `denied` counts how often the
    worker answered FAIL to an m1. A dead process stays where it was in `link`.
   */
  datatype Pair = Pair(
    id: bytes, pk: bytes, client: ClientPhase, key: bytes, clientDead: bool,
    worker: WorkerPhase, enrolled: map<bytes, bytes>, workerDead: bool, todo: Option<real>, measured: seq<real>,
    denied: nat, link: State)

  /** The next step of `client_worker`; None while it is blocked and after its end. */
  function ClientMove(p: Pair, x: ClientChoice): Option<Pair> {
    if p.clientDead then None
    else
      match p.client
      case Connecting => (
        match BuildEnrollment(p.id, p.pk)
        case Err(_) => Some(p.(clientDead := true))
        case Ok(b) => Some(p.(client := AwaitKey, link := p.link.(c2s := p.link.c2s + Frame(b)))))
      case AwaitKey => (
        match TakeFrame(p.link.s2c)
        case None => if p.workerDead then Some(p.(clientDead := true)) else None
        case Some((key, rest)) => Some(p.(client := InRounds, key := key, link := p.link.(s2c := rest))))
      case InRounds =>
        match ClientStep(p.link, x.(m1 := M1(p.id, Handshake.EPOCH_1, x.m1.nonce, x.m1.pk)))
        case Some(link) => Some(p.(link := link))
        case None => if p.workerDead && !p.link.cpc.Ended? then Some(p.(clientDead := true)) else None
  }

  /** `ctx.enrolled.get(cli_id)` gives None for the m1 that is next in the stream. */
  predicate Unknown(p: Pair) {
    && p.link.spc.AwaitM1?
    && (match TakeFrame(p.link.c2s)
        case None => false
        case Some((b, _)) => ParseM1(b).Ok? && ParseM1(b).value.id !in p.enrolled)
  }

  /** The next step of `server_worker`; in its loop an exception is a `break`, before it the process ends. */
  function WorkerMove(p: Pair, srvPk: bytes, y: ServerChoice, latency: real): Option<Pair> {
    if p.workerDead then None
    else
      match p.worker
      case AwaitEnrolment => (
        match TakeFrame(p.link.c2s)
        case None => if p.clientDead then Some(p.(workerDead := true)) else None
        case Some((enr, rest)) =>
          match ParseEnrollment(enr)
          case Err(_) => Some(p.(workerDead := true))
          case Ok((id, pk)) =>
            Some(p.(worker := InLoop, enrolled := p.enrolled[id := pk],
                    link := p.link.(c2s := rest, s2c := p.link.s2c + Frame(srvPk)))))
      case InLoop =>
        if p.todo.Some? then Some(p.(todo := None))
        else if Unknown(p) then
          Some(p.(denied := p.denied + 1,
                  link := p.link.(c2s := TakeFrame(p.link.c2s).value.1, s2c := p.link.s2c + Frame(FAIL))))
        else
          match ServerStep(p.link, y)
          case None => if p.clientDead && !p.link.spc.Finished? && !p.link.spc.Disconnected?
                       then Some(p.(workerDead := true)) else None
          case Some(link) =>
            if link.completed > p.link.completed && link.completed > N_WARMUP
            then Some(p.(link := link, todo := Some(latency), measured := p.measured + [latency]))
            else Some(p.(link := link))
  }

  /** The loop is left through its condition, with nothing left to append. */
  predicate Done(p: Pair) {
    p.worker.InLoop? && p.link.spc.Finished? && p.todo.None? && !p.workerDead
  }

  predicate Stopped(p: Pair) {
    p.workerDead || Done(p) || p.link.spc.Disconnected? || p.link.spc.ServerRaised?
  }

  // ---------- all of them, and the shared list ----------

  /** An element of the manager list, with the worker that appended it. */
  datatype Entry = Entry(worker: nat, latency: real)

  datatype System = System(hs: nat, srvPk: bytes, pairs: seq<Pair>, shared: seq<Entry>)

  datatype Event =
    | OfClient(w: nat, x: ClientChoice)
    | OfWorker(w: nat, y: ServerChoice, latency: real)
    | ClientDies(w: nat)
    | WorkerDies(w: nat)
  {
    ghost predicate Valid() {
      match this
      case OfClient(_, x) => x.Valid()
      case OfWorker(_, y, _) => y.Valid()
      case _ => true
    }
  }

  datatype Identity = Identity(id: bytes, pk: bytes) {
    ghost predicate Valid() {
      Fits(id) && Fits(pk)
    }
  }

  function NewPair(c: Identity, hs: nat): Pair {
    Pair(c.id, c.pk, Connecting, [], false, AwaitEnrolment, map[], false, None, [], 0,
         Session.Start(hs + N_WARMUP, N_WARMUP))
  }

  function Start(hs: nat, srvPk: bytes, clients: seq<Identity>): System {
    System(hs, srvPk, seq(|clients|, k requires 0 <= k < |clients| => NewPair(clients[k], hs)), [])
  }

  /** One step of one process; None when it cannot take one. */
  function Next(sys: System, e: Event): Option<System> {
    if e.w >= |sys.pairs| then None
    else
      var p := sys.pairs[e.w];
      match e
      case OfClient(w, x) => (
        match ClientMove(p, x)
        case None => None
        case Some(p') => Some(sys.(pairs := sys.pairs[w := p'])))
      case OfWorker(w, y, latency) => (
        match WorkerMove(p, sys.srvPk, y, latency)
        case None => None
        case Some(p') =>
          var shared := if p.todo.Some? && p'.todo.None? then sys.shared + [Entry(w, p.todo.value)] else sys.shared;
          Some(sys.(pairs := sys.pairs[w := p'], shared := shared)))
      case ClientDies(w) =>
        if p.clientDead || p.link.cpc.Ended? then None
        else Some(sys.(pairs := sys.pairs[w := p.(clientDead := true)]))
      case WorkerDies(w) =>
        if Stopped(p) then None else Some(sys.(pairs := sys.pairs[w := p.(workerDead := true)]))
  }

  function Interleave(sys: System, events: seq<Event>): System {
    if events == [] then sys
    else
      var before := Interleave(sys, events[..|events| - 1]);
      match Next(before, events[|events| - 1])
      case Some(after) => after
      case None => before
  }

  // ---------- what one pair keeps ----------

  function AfterWarmup(completed: nat): nat {
    if completed > N_WARMUP then completed - N_WARMUP else 0
  }

  /**
    The two processes of a pair are in step, the worker knows exactly its client's key and never denied it, and it
    has measured one latency for every handshake completed after the warm-up.
   */
  ghost predicate PairInv(p: Pair, hs: nat, srvPk: bytes) {
    && Fits(p.id) && Fits(p.pk)
    && p.link.rounds == hs + N_WARMUP && p.link.warmup == N_WARMUP
    && Joint(p, srvPk)
    && p.denied == 0
    && p.enrolled == (if p.worker.InLoop? then map[p.id := p.pk] else map[])
    && (p.client.InRounds? ==> p.key == srvPk)
    && |p.measured| == AfterWarmup(p.link.completed)
    && (p.workerDead && p.worker.InLoop? && p.link.spc.Finished? ==> p.todo.Some?)
    && (p.todo.Some? ==> p.worker.InLoop? && p.measured != [] && p.measured[|p.measured| - 1] == p.todo.value)
  }

  ghost predicate Joint(p: Pair, srvPk: bytes) {
    var start := Session.Start(p.link.rounds, p.link.warmup);
    match (p.client, p.worker)
    case (Connecting, AwaitEnrolment) => p.link == start
    case (AwaitKey, AwaitEnrolment) =>
      BuildEnrollment(p.id, p.pk).Ok? && p.link == start.(c2s := Frame(BuildEnrollment(p.id, p.pk).value))
    case (AwaitKey, InLoop) => p.link == start.(s2c := Frame(srvPk))
    case (InRounds, InLoop) => Session.Inv(p.link) && (p.link.cpc.AwaitM2? ==> p.link.m1.id == p.id)
    case _ => false
  }

  /** The measured latencies that have reached the list: all but the one still to be appended. */
  function Appended(p: Pair): seq<real> {
    if p.todo.Some? && p.measured != [] then p.measured[..|p.measured| - 1] else p.measured
  }

  lemma EnrolmentFits(id: bytes, pk: bytes)
    requires Fits(id) && Fits(pk)
    ensures BuildEnrollment(id, pk).Ok? && |BuildEnrollment(id, pk).value| < FRAME_LIMIT
  {}

  lemma ClientMoveKeeps(p: Pair, hs: nat, srvPk: bytes, x: ClientChoice)
    requires PairInv(p, hs, srvPk) && x.Valid() && |srvPk| < FRAME_LIMIT && ClientMove(p, x).Some?
    ensures PairInv(ClientMove(p, x).value, hs, srvPk)
    ensures
      var p' := ClientMove(p, x).value;
      p'.todo == p.todo && p'.measured == p.measured && p'.id == p.id && p'.pk == p.pk
  {
    hide Frame, TakeFrame, BuildEnrollment, ParseEnrollment, Session.Inv, BuildM1, BuildM2, BuildM3, ParseM2;
    EnrolmentFits(p.id, p.pk);
    Session.StartInv(p.link.rounds, p.link.warmup);
    match p.client
    case Connecting =>
      assert [] + Frame(BuildEnrollment(p.id, p.pk).value) == Frame(BuildEnrollment(p.id, p.pk).value);
    case AwaitKey =>
      FramesIn(srvPk, []);
      NothingToTake();
    case InRounds =>
      var own := x.(m1 := M1(p.id, Handshake.EPOCH_1, x.m1.nonce, x.m1.pk));
      assert own.Valid();
      if ClientStep(p.link, own).Some? {
        ClientKeeps(p.link, own);
      }
  }

  /** In step with its client, a worker never finds an unknown identity in an m1. */
  lemma NeverUnknown(p: Pair, hs: nat, srvPk: bytes)
    requires PairInv(p, hs, srvPk) && p.worker.InLoop?
    ensures !Unknown(p)
  {
    hide Frame, TakeFrame, BuildM1, BuildM2, BuildM3, ParseM1, ParseM2, ParseM3, Completions, Errors, Measured;
    NothingToTake();
    if p.link.spc.AwaitM1? && p.link.c2s != [] {
      Built(p.link.m1, p.link.m2, p.link.m3);
      FramesIn(BuildM1(p.link.m1).value, []);
    }
  }

  lemma EnrolmentKeeps(p: Pair, hs: nat, srvPk: bytes, y: ServerChoice, latency: real)
    requires PairInv(p, hs, srvPk) && |srvPk| < FRAME_LIMIT && p.worker.AwaitEnrolment?
    requires WorkerMove(p, srvPk, y, latency).Some?
    ensures
      var p' := WorkerMove(p, srvPk, y, latency).value;
      PairInv(p', hs, srvPk) && p'.id == p.id && p'.pk == p.pk && p'.todo == p.todo && p'.measured == p.measured
  {
    hide Frame, TakeFrame, BuildEnrollment, ParseEnrollment, Session.Inv, ServerStep, Unknown;
    EnrolmentFits(p.id, p.pk);
    NothingToTake();
    EnrollmentRoundTrip(p.id, p.pk);
    FramesIn(BuildEnrollment(p.id, p.pk).value, []);
    assert [] + Frame(srvPk) == Frame(srvPk);
  }

  lemma LoopMoveKeeps(p: Pair, hs: nat, srvPk: bytes, y: ServerChoice, latency: real)
    requires PairInv(p, hs, srvPk) && y.Valid() && p.worker.InLoop? && p.todo.None?
    requires WorkerMove(p, srvPk, y, latency).Some?
    ensures
      var p' := WorkerMove(p, srvPk, y, latency).value;
      PairInv(p', hs, srvPk) && p'.id == p.id && p'.pk == p.pk && Appended(p') == Appended(p)
  {
    hide Frame, TakeFrame, BuildEnrollment, ParseEnrollment, Session.Inv, BuildM1, BuildM2, BuildM3, ParseM1, ParseM3,
         Unknown;
    NeverUnknown(p, hs, srvPk);
    NothingToTake();
    if p.client.InRounds? && ServerStep(p.link, y).Some? {
      ServerKeeps(p.link, y);
    }
  }

  lemma WorkerMoveKeeps(p: Pair, hs: nat, srvPk: bytes, y: ServerChoice, latency: real)
    requires PairInv(p, hs, srvPk) && y.Valid() && |srvPk| < FRAME_LIMIT && WorkerMove(p, srvPk, y, latency).Some?
    ensures
      var p' := WorkerMove(p, srvPk, y, latency).value;
      && PairInv(p', hs, srvPk) && p'.id == p.id && p'.pk == p.pk
      && Appended(p') == Appended(p) + (if p.todo.Some? && p'.todo.None? then [p.todo.value] else [])
  {
    hide Joint, BuildEnrollment, ParseEnrollment, TakeFrame, ServerStep, Unknown;
    if p.worker.AwaitEnrolment? {
      EnrolmentKeeps(p, hs, srvPk, y, latency);
    } else if p.todo.None? {
      LoopMoveKeeps(p, hs, srvPk, y, latency);
    } else {
      JointForgets(p, srvPk);
    }
  }

  lemma JointForgets(p: Pair, srvPk: bytes)
    requires Joint(p, srvPk)
    ensures Joint(p.(todo := None), srvPk)
  {
    hide Session.Inv;
  }

  /** While both processes of a pair live and the client has rounds left, one of them can move. */
  lemma PairMoves(p: Pair, hs: nat, srvPk: bytes, x: ClientChoice, y: ServerChoice, latency: real)
    requires PairInv(p, hs, srvPk) && |srvPk| < FRAME_LIMIT
    requires !p.clientDead && !p.workerDead && !p.link.cpc.Ended?
    ensures ClientMove(p, x).Some? || WorkerMove(p, srvPk, y, latency).Some?
  {
    hide Frame, TakeFrame, BuildEnrollment, ParseEnrollment, Session.Inv, BuildM1, ParseM1, ClientStep, ServerStep;
    EnrolmentFits(p.id, p.pk);
    match (p.client, p.worker)
    case (AwaitKey, AwaitEnrolment) => FramesIn(BuildEnrollment(p.id, p.pk).value, []);
    case (AwaitKey, InLoop) => FramesIn(srvPk, []);
    case (InRounds, InLoop) =>
      OneCanMove(p.link, x.(m1 := M1(p.id, Handshake.EPOCH_1, x.m1.nonce, x.m1.pk)), y);
    case _ =>
  }

  /** A worker whose client has ended its rounds is done exactly when no failure marker crossed and neither died. */
  lemma PairEnds(p: Pair, hs: nat, srvPk: bytes)
    requires PairInv(p, hs, srvPk) && p.client.InRounds? && p.link.cpc.Ended? && Stopped(p)
    ensures p.link.i == |p.link.log| == hs + N_WARMUP
    ensures Done(p) <==> !p.workerDead && !FailCrossed(p.link.log)
  {
    hide Frame, Errors, Measured, Completions;
    CompletionsBound(p.link.log);
    assert FailCrossed(p.link.log) <==> exists o :: o in p.link.log && !(o.Success? || o.BadServerTag?);
  }

  // ---------- what all interleavings keep ----------

  /** The latencies that worker w put into the list, in order. */
  function OfWorker(shared: seq<Entry>, w: nat): seq<real> {
    if shared == [] then []
    else
      var last := shared[|shared| - 1];
      OfWorker(shared[..|shared| - 1], w) + if last.worker == w then [last.latency] else []
  }

  lemma OneMoreEntry(shared: seq<Entry>, e: Entry, w: nat)
    ensures OfWorker(shared + [e], w) == OfWorker(shared, w) + if e.worker == w then [e.latency] else []
  {
    assert (shared + [e])[..|shared|] == shared;
  }

  ghost predicate SystemInv(sys: System, hs: nat, srvPk: bytes, clients: seq<Identity>) {
    && sys.hs == hs && sys.srvPk == srvPk && |sys.pairs| == |clients|
    && (forall w :: 0 <= w < |clients| ==>
          && PairInv(sys.pairs[w], hs, srvPk)
          && sys.pairs[w].id == clients[w].id && sys.pairs[w].pk == clients[w].pk
          && OfWorker(sys.shared, w) == Appended(sys.pairs[w]))
    && (forall e :: e in sys.shared ==> e.worker < |clients|)
  }

  lemma NextKeeps(sys: System, hs: nat, srvPk: bytes, clients: seq<Identity>, e: Event)
    requires SystemInv(sys, hs, srvPk, clients) && |srvPk| < FRAME_LIMIT && e.Valid() && Next(sys, e).Some?
    ensures SystemInv(Next(sys, e).value, hs, srvPk, clients)
  {
    hide ClientMove, WorkerMove, PairInv, Appended, OfWorker, ClientChoice.Valid, ServerChoice.Valid, Stopped;
    var p := sys.pairs[e.w];
    assert PairInv(p, hs, srvPk);
    match e
    case OfClient(w, x) =>
      ClientMoveKeeps(p, hs, srvPk, x);
      SameAppended(p, ClientMove(p, x).value);
    case OfWorker(w, y, latency) =>
      WorkerMoveKeeps(p, hs, srvPk, y, latency);
      forall k: nat | k < |clients|
        ensures OfWorker(Next(sys, e).value.shared, k) == Appended(Next(sys, e).value.pairs[k])
      {
        if p.todo.Some? {
          OneMoreEntry(sys.shared, Entry(w, p.todo.value), k);
        }
      }
    case ClientDies(w) =>
      DeathKeeps(p, hs, srvPk);
    case WorkerDies(w) =>
      DeathKeeps(p, hs, srvPk);
  }

  lemma SameAppended(p: Pair, p': Pair)
    requires p'.todo == p.todo && p'.measured == p.measured
    ensures Appended(p') == Appended(p)
  {}

  lemma DeathKeeps(p: Pair, hs: nat, srvPk: bytes)
    requires PairInv(p, hs, srvPk)
    ensures PairInv(p.(clientDead := true), hs, srvPk)
    ensures !Stopped(p) ==> PairInv(p.(workerDead := true), hs, srvPk)
    ensures Appended(p.(clientDead := true)) == Appended(p) == Appended(p.(workerDead := true))
  {
    hide Session.Inv;
  }

  ghost predicate AllWellFormed(srvPk: bytes, clients: seq<Identity>, events: seq<Event>) {
    && |srvPk| < FRAME_LIMIT
    && (forall c :: c in clients ==> c.Valid())
    && (forall e :: e in events ==> e.Valid())
  }

  lemma {:induction false} InterleavingKeeps(hs: nat, srvPk: bytes, clients: seq<Identity>, events: seq<Event>)
    requires AllWellFormed(srvPk, clients, events)
    ensures SystemInv(Interleave(Start(hs, srvPk, clients), events), hs, srvPk, clients)
  {
    hide SystemInv, Next, Event.Valid;
    if events == [] {
      StartKeeps(hs, srvPk, clients);
    } else {
      var front, e := events[..|events| - 1], events[|events| - 1];
      InterleavingKeeps(hs, srvPk, clients, front);
      assert e.Valid();
      if Next(Interleave(Start(hs, srvPk, clients), front), e).Some? {
        NextKeeps(Interleave(Start(hs, srvPk, clients), front), hs, srvPk, clients, e);
      }
    }
  }

  lemma StartKeeps(hs: nat, srvPk: bytes, clients: seq<Identity>)
    requires forall c :: c in clients ==> c.Valid()
    ensures SystemInv(Start(hs, srvPk, clients), hs, srvPk, clients)
  {
    forall w: nat | w < |clients|
      ensures PairInv(NewPair(clients[w], hs), hs, srvPk)
    {
      assert clients[w] in clients;
    }
  }

  /**
    In every interleaving of N clients and N workers, with any of them dying at any moment: every pair is in step, no
    worker answers FAIL to an m1, and every worker looks up the key its own client enrolled.
   */
  lemma PairsInStep(hs: nat, srvPk: bytes, clients: seq<Identity>, events: seq<Event>, w: nat)
    requires AllWellFormed(srvPk, clients, events) && w < |clients|
    ensures
      var sys := Interleave(Start(hs, srvPk, clients), events);
      |sys.pairs| == |clients| &&
      var p := sys.pairs[w];
      && p.denied == 0 && (p.worker.InLoop? ==> !Unknown(p))
      && (p.client.InRounds? ==> p.worker.InLoop? && p.key == srvPk && Session.Inv(p.link))
      && (p.worker.InLoop? ==> p.enrolled == map[clients[w].id := clients[w].pk])
      && (p.worker.InLoop? && p.link.spc.AwaitM1? && TakeFrame(p.link.c2s).Some? ==>
            var m := ParseM1(TakeFrame(p.link.c2s).value.0);
            m == Ok(p.link.m1) && m.value.id == clients[w].id)
  {
    hide Interleave, Session.Inv, Frame, TakeFrame, ParseM1, BuildM1, Unknown;
    InterleavingKeeps(hs, srvPk, clients, events);
    var p := Interleave(Start(hs, srvPk, clients), events).pairs[w];
    assert PairInv(p, hs, srvPk);
    if p.worker.InLoop? {
      NeverUnknown(p, hs, srvPk);
      if p.link.spc.AwaitM1? && TakeFrame(p.link.c2s).Some? {
        FirstInStream(p, hs, srvPk);
      }
    }
  }

  lemma FirstInStream(p: Pair, hs: nat, srvPk: bytes)
    requires PairInv(p, hs, srvPk) && p.worker.InLoop? && p.link.spc.AwaitM1? && TakeFrame(p.link.c2s).Some?
    ensures ParseM1(TakeFrame(p.link.c2s).value.0) == Ok(p.link.m1) && p.link.m1.id == p.id
  {
    hide Frame, TakeFrame, BuildM1, BuildM2, BuildM3, ParseM1, ParseM2, ParseM3, Completions, Errors, Measured;
    NothingToTake();
    Built(p.link.m1, p.link.m2, p.link.m3);
    FramesIn(BuildM1(p.link.m1).value, []);
  }

  // ---------- what the list ends as ----------

  /** Entries of the first n workers. */
  function CountUpTo(shared: seq<Entry>, n: nat): nat {
    if n == 0 then 0 else CountUpTo(shared, n - 1) + |OfWorker(shared, n - 1)|
  }

  lemma {:induction false} CountOneMore(shared: seq<Entry>, e: Entry, n: nat)
    ensures CountUpTo(shared + [e], n) == CountUpTo(shared, n) + if e.worker < n then 1 else 0
  {
    if n > 0 {
      CountOneMore(shared, e, n - 1);
      OneMoreEntry(shared, e, n - 1);
    }
  }

  lemma {:induction false} CountNothing(n: nat)
    ensures CountUpTo([], n) == 0
  {
    if n > 0 {
      CountNothing(n - 1);
    }
  }

  /** Every entry belongs to one worker. */
  lemma {:induction false} CountAll(shared: seq<Entry>, n: nat)
    requires forall e :: e in shared ==> e.worker < n
    ensures CountUpTo(shared, n) == |shared|
  {
    if shared == [] {
      CountNothing(n);
    } else {
      var front, last := shared[..|shared| - 1], shared[|shared| - 1];
      assert shared == front + [last] && last in shared;
      CountAll(front, n);
      CountOneMore(front, last, n);
    }
  }

  lemma OneMoreQuota(n: nat, hs: nat)
    ensures (n + 1) * hs == n * hs + hs
  {}

  /** With every worker at its quota the total is the product, and only then. */
  lemma {:induction false} Quota(shared: seq<Entry>, n: nat, hs: nat)
    requires forall w :: 0 <= w < n ==> |OfWorker(shared, w)| <= hs
    ensures CountUpTo(shared, n) <= n * hs
    ensures CountUpTo(shared, n) == n * hs <==> forall w :: 0 <= w < n ==> |OfWorker(shared, w)| == hs
  {
    hide OfWorker;
    if n > 0 {
      Quota(shared, n - 1, hs);
      OneMoreQuota(n - 1, hs);
      assert |OfWorker(shared, n - 1)| <= hs;
      assert CountUpTo(shared, n) == n * hs <==>
             CountUpTo(shared, n - 1) == (n - 1) * hs && |OfWorker(shared, n - 1)| == hs;
    }
  }

  lemma QuotaOfOne(p: Pair, hs: nat, srvPk: bytes)
    requires PairInv(p, hs, srvPk)
    ensures |Appended(p)| <= AfterWarmup(p.link.completed) <= hs
    ensures |Appended(p)| == AfterWarmup(p.link.completed) <==> p.todo.None?
    ensures Stopped(p) && hs > 0 ==> (|Appended(p)| == hs <==> Done(p))
  {
    hide InStep, Completions, Errors, Measured;
  }

  /**
    In every interleaving, with any deaths: what a worker has put into the list are the latencies of its handshakes
    after the warm-up, in order and all but the one it is about to append; and once all workers have stopped, the
    list holds clients times handshakes entries exactly when every worker left its loop through its condition.
   */
  lemma SharedList(hs: nat, srvPk: bytes, clients: seq<Identity>, events: seq<Event>)
    requires AllWellFormed(srvPk, clients, events)
    ensures
      var sys := Interleave(Start(hs, srvPk, clients), events);
      && |sys.pairs| == |clients|
      && (forall e :: e in sys.shared ==> e.worker < |clients|)
      && (forall w :: 0 <= w < |clients| ==>
            var p := sys.pairs[w];
            && OfWorker(sys.shared, w) == Appended(p)
            && |OfWorker(sys.shared, w)| == AfterWarmup(p.link.completed) - (if p.todo.Some? then 1 else 0))
      && |sys.shared| <= |clients| * hs
      && ((forall w :: 0 <= w < |clients| ==> Stopped(sys.pairs[w])) && hs > 0 ==>
            (|sys.shared| == |clients| * hs <==> forall w :: 0 <= w < |clients| ==> Done(sys.pairs[w])))
  {
    hide Interleave, PairInv, Stopped, Done, OfWorker, CountUpTo, AfterWarmup;
    InterleavingKeeps(hs, srvPk, clients, events);
    var sys := Interleave(Start(hs, srvPk, clients), events);
    forall w: nat | w < |clients|
      ensures |OfWorker(sys.shared, w)| <= hs
      ensures OfWorker(sys.shared, w) == Appended(sys.pairs[w])
      ensures |OfWorker(sys.shared, w)|
              == AfterWarmup(sys.pairs[w].link.completed) - (if sys.pairs[w].todo.Some? then 1 else 0)
      ensures Stopped(sys.pairs[w]) && hs > 0 ==> (|OfWorker(sys.shared, w)| == hs <==> Done(sys.pairs[w]))
    {
      assert PairInv(sys.pairs[w], hs, srvPk);
      QuotaOfOne(sys.pairs[w], hs, srvPk);
      AppendedLength(sys.pairs[w], hs, srvPk);
    }
    CountAll(sys.shared, |clients|);
    Quota(sys.shared, |clients|, hs);
  }

  lemma AppendedLength(p: Pair, hs: nat, srvPk: bytes)
    requires PairInv(p, hs, srvPk)
    ensures |Appended(p)| == AfterWarmup(p.link.completed) - (if p.todo.Some? then 1 else 0)
  {
    hide Joint;
  }
}
