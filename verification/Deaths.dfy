/** When the processes of `Concurrency` block and when they die: the ends of a pair never wait for ever. */
module Deaths {
  import opened Bytes
  import opened Framing
  import opened Wire
  import opened Session
  import opened Concurrency
  import Handshake

  /** The client is in a receive. */
  predicate ClientWaits(p: Pair) {
    p.client.AwaitKey? || (p.client.InRounds? && (p.link.cpc.AwaitM2? || p.link.cpc.AwaitM4?))
  }

  /** The worker is in a receive. */
  predicate WorkerWaits(p: Pair) {
    p.worker.AwaitEnrolment? || (p.todo.None? && (p.link.spc.AwaitM1? || p.link.spc.AwaitM3?))
  }

  /**
    A living client is blocked exactly at its end, or in a receive from a living worker with nothing in the stream; it
    dies in a step exactly in such a receive from a dead worker.
   */
  lemma ClientFate(p: Pair, hs: nat, srvPk: bytes, x: ClientChoice)
    requires PairInv(p, hs, srvPk) && |srvPk| < FRAME_LIMIT && x.Valid() && !p.clientDead
    ensures ClientMove(p, x).None? <==> p.link.cpc.Ended? || (ClientWaits(p) && p.link.s2c == [] && !p.workerDead)
    ensures ClientMove(p, x).Some? ==>
      (ClientMove(p, x).value.clientDead <==> ClientWaits(p) && p.link.s2c == [] && p.workerDead)
  {
    hide Frame, TakeFrame, BuildEnrollment, ParseEnrollment, BuildM1, BuildM2, BuildM3, ParseM1, ParseM2, ParseM3,
         Completions, Errors, Measured, ServerStep;
    EnrolmentFits(p.id, p.pk);
    NothingToTake();
    FramesIn(srvPk, []);
    if p.link.cpc.AwaitM2? && p.link.s2c != [] {
      Built(p.link.m1, p.link.m2, p.link.m3);
      FramesIn(BuildM2(p.link.m2).value, []);
    }
    if p.link.cpc.AwaitM4? && p.link.s2c != [] {
      if p.link.s2c == Frame(FAIL) {
        FramesIn(FAIL, []);
      } else {
        FramesIn(p.link.tag, []);
      }
    }
  }

  /** In the loop, what the step of `Session` does. */
  lemma LoopStep(p: Pair, hs: nat, srvPk: bytes, y: ServerChoice)
    requires PairInv(p, hs, srvPk) && p.worker.InLoop?
    ensures ServerStep(p.link, y).None? <==>
      || p.link.spc.Finished? || p.link.spc.Disconnected?
      || (p.link.c2s == [] && !p.link.cpc.Ended?)
    ensures !p.link.spc.ServerRaised?
  {
    hide Frame, TakeFrame, BuildM1, BuildM2, BuildM3, ParseM1, ParseM2, ParseM3, Completions, Errors, Measured;
    NothingToTake();
    if p.link.spc.AwaitM1? || p.link.spc.AwaitM3? {
      ToTake(p, hs, srvPk);
    }
  }

  /** The same for a living worker; when its client has ended, it leaves its loop instead of dying. */
  lemma WorkerFate(p: Pair, hs: nat, srvPk: bytes, y: ServerChoice, latency: real)
    requires PairInv(p, hs, srvPk) && |srvPk| < FRAME_LIMIT && y.Valid() && !p.workerDead
    ensures WorkerMove(p, srvPk, y, latency).None? <==>
      || (Stopped(p) && p.todo.None?)
      || (WorkerWaits(p) && p.link.c2s == [] && !p.clientDead && !p.link.cpc.Ended?)
    ensures WorkerMove(p, srvPk, y, latency).Some? ==>
      (WorkerMove(p, srvPk, y, latency).value.workerDead
       <==> WorkerWaits(p) && p.link.c2s == [] && p.clientDead && !p.link.cpc.Ended?)
  {
    hide Frame, TakeFrame, BuildEnrollment, ParseEnrollment, BuildM1, BuildM2, BuildM3, ParseM1, ParseM2, ParseM3,
         Completions, Errors, Measured, ClientStep, ServerStep, Unknown;
    EnrolmentFits(p.id, p.pk);
    NothingToTake();
    if p.worker.AwaitEnrolment? {
      EnrollmentRoundTrip(p.id, p.pk);
      FramesIn(BuildEnrollment(p.id, p.pk).value, []);
    } else {
      NeverUnknown(p, hs, srvPk);
      LoopStep(p, hs, srvPk, y);
    }
  }

  /** What is in the stream of a worker in its loop can be taken. */
  lemma ToTake(p: Pair, hs: nat, srvPk: bytes)
    requires PairInv(p, hs, srvPk) && p.worker.InLoop? && (p.link.spc.AwaitM1? || p.link.spc.AwaitM3?)
    ensures p.link.c2s != [] ==> TakeFrame(p.link.c2s).Some?
  {
    hide Frame, TakeFrame, BuildM1, BuildM2, BuildM3, ParseM1, ParseM2, ParseM3, Completions, Errors, Measured;
    Built(p.link.m1, p.link.m2, p.link.m3);
    if p.link.c2s != [] {
      if p.link.spc.AwaitM1? {
        FramesIn(BuildM1(p.link.m1).value, []);
      } else if p.link.cpc.AwaitM4? {
        FramesIn(BuildM3(p.link.m3).value, []);
      } else if p.link.cpc.AwaitM2? {
        FramesIn(FAIL, F1(p.link));
      } else {
        FramesIn(FAIL, []);
      }
    }
  }

  /**
    In every interleaving: who waits for a dead process, or for a client that has ended, is not left waiting; and
    nobody dies in a step but in a receive from a process that is gone.
   */
  lemma NoOrphans(hs: nat, srvPk: bytes, clients: seq<Identity>, events: seq<Event>, w: nat,
                  x: ClientChoice, y: ServerChoice, latency: real)
    requires AllWellFormed(srvPk, clients, events) && w < |clients| && x.Valid() && y.Valid()
    ensures |Interleave(Concurrency.Start(hs, srvPk, clients), events).pairs| == |clients|
    ensures
      var p := Interleave(Concurrency.Start(hs, srvPk, clients), events).pairs[w];
      && (!p.clientDead && p.workerDead && !p.link.cpc.Ended? ==> ClientMove(p, x).Some?)
      && (!Stopped(p) && (p.clientDead || p.link.cpc.Ended?) ==> WorkerMove(p, srvPk, y, latency).Some?)
      && (!p.clientDead && !p.workerDead ==>
            && (ClientMove(p, x).Some? ==> !ClientMove(p, x).value.clientDead)
            && (WorkerMove(p, srvPk, y, latency).Some? ==> !WorkerMove(p, srvPk, y, latency).value.workerDead))
  {
    hide PairInv, ClientMove, WorkerMove, Interleave, Stopped, ClientWaits, WorkerWaits;
    InterleavingKeeps(hs, srvPk, clients, events);
    var p := Interleave(Concurrency.Start(hs, srvPk, clients), events).pairs[w];
    if !p.clientDead {
      ClientFate(p, hs, srvPk, x);
    }
    if !p.workerDead {
      WorkerFate(p, hs, srvPk, y, latency);
    }
    StoppedWhenDead(p);
  }

  lemma StoppedWhenDead(p: Pair)
    ensures p.workerDead ==> Stopped(p)
  {}

  /** Nobody kills another process. */
  lemma OthersLive(p: Pair, srvPk: bytes, e: Event)
    ensures e.OfClient? && ClientMove(p, e.x).Some? ==> ClientMove(p, e.x).value.workerDead == p.workerDead
    ensures e.OfWorker? && WorkerMove(p, srvPk, e.y, e.latency).Some? ==>
      WorkerMove(p, srvPk, e.y, e.latency).value.clientDead == p.clientDead
  {
    hide ClientStep, ServerStep, TakeFrame, Frame, BuildEnrollment, ParseEnrollment, Unknown;
  }

  /** Without a death from outside nobody ever dies, and every pair has its rounds and five more. */
  lemma {:induction false} NobodyDies(hs: nat, srvPk: bytes, clients: seq<Identity>, events: seq<Event>, w: nat)
    requires AllWellFormed(srvPk, clients, events) && w < |clients|
    requires forall e :: e in events ==> !e.ClientDies? && !e.WorkerDies?
    ensures |Interleave(Concurrency.Start(hs, srvPk, clients), events).pairs| == |clients|
    ensures
      var p := Interleave(Concurrency.Start(hs, srvPk, clients), events).pairs[w];
      !p.clientDead && !p.workerDead && p.link.rounds == hs + 5 && p.link.warmup == 5
  {
    hide Joint, ClientMove, WorkerMove, Stopped, ClientWaits, WorkerWaits, Appended;
    InterleavingKeeps(hs, srvPk, clients, events);
    if events != [] {
      var front, e := events[..|events| - 1], events[|events| - 1];
      NobodyDies(hs, srvPk, clients, front, w);
      InterleavingKeeps(hs, srvPk, clients, front);
      assert e in events;
      var p := Interleave(Concurrency.Start(hs, srvPk, clients), front).pairs[w];
      if e.w == w {
        OthersLive(p, srvPk, e);
        match e
        case OfClient(_, x) => ClientFate(p, hs, srvPk, x);
        case OfWorker(_, y, latency) => WorkerFate(p, hs, srvPk, y, latency);
        case _ =>
      }
    }
  }

  // ---------- what no honest client sends ----------

  /** A client whose identity or key does not fit its length field dies before it sends anything. */
  lemma EnrolmentIff(p: Pair, x: ClientChoice)
    requires !p.clientDead && p.client.Connecting?
    ensures ClientMove(p, x).Some?
    ensures
      var p' := ClientMove(p, x).value;
      && (p'.clientDead <==> !Fits(p.id) || !Fits(p.pk))
      && (p'.clientDead ==> p'.link == p.link)
  {}

  /** The worker's first frame, whatever it is: it enrols what the frame says, or the process ends. */
  lemma FirstFrame(p: Pair, srvPk: bytes, y: ServerChoice, latency: real, b: bytes, rest: bytes)
    requires !p.workerDead && p.worker.AwaitEnrolment? && |b| < FRAME_LIMIT && p.link.c2s == Frame(b) + rest
    ensures WorkerMove(p, srvPk, y, latency).Some?
    ensures
      var p', e := WorkerMove(p, srvPk, y, latency).value, ParseEnrollment(b);
      && (p'.workerDead <==> e.Err?)
      && (p'.worker.InLoop? <==> e.Ok?)
      && (e.Ok? ==> p'.link.c2s == rest && p'.link.s2c == p.link.s2c + Frame(srvPk))
      && (e.Ok? ==> forall id :: id in p'.enrolled <==> id == e.value.0 || id in p.enrolled)
      && (e.Ok? ==> p'.enrolled[e.value.0] == e.value.1)
  {
    hide Frame, TakeFrame, ParseEnrollment;
    FramesIn(b, rest);
  }

  /** An m1 with an identity that is not enrolled is answered with FAIL and starts no handshake. */
  lemma Stranger(p: Pair, srvPk: bytes, y: ServerChoice, latency: real, m1: M1, rest: bytes)
    requires !p.workerDead && p.worker.InLoop? && p.todo.None? && p.link.spc.AwaitM1?
    requires Fits(m1.id) && Fits(m1.pk) && |m1.epoch| == 4 && |m1.nonce| == 32 && m1.id !in p.enrolled
    requires BuildM1(m1).Ok? && p.link.c2s == Frame(BuildM1(m1).value) + rest
    ensures WorkerMove(p, srvPk, y, latency).Some?
    ensures
      var p' := WorkerMove(p, srvPk, y, latency).value;
      && p'.denied == p.denied + 1 && !p'.workerDead && p'.enrolled == p.enrolled
      && p'.link.c2s == rest && p'.link.s2c == p.link.s2c + Frame(Ascii("FAIL"))
      && p'.link.spc.AwaitM1? && p'.link.completed == p.link.completed && p'.measured == p.measured
  {
    hide Frame, TakeFrame, BuildM1, ParseM1, Ascii;
    Built(m1, NO_M2, NO_M3);
    FramesIn(BuildM1(m1).value, rest);
  }
}
