/** The thread pool and the handshake between the main loop and a worker, as steps of
    threads that interleave in any order.  Locks and semaphores have their usual meaning. */
module ThreadSteps {
  import opened Wrappers

  /** A request handed to the pool: which append call it was, the connection, m_state. */
  datatype Job = Job(number: nat, conn: nat, writing: bool)

  /** Where the main loop is: append is Lock, Push, Unlock, Post; the busy loop is Spin,
      Check, Clear. */
  datatype MainPc =
    | Idle
    | Lock(job: Job) | Push(job: Job) | Unlock(job: Job) | Post(job: Job)
    | Spin(job: Job) | Check(job: Job) | Clear(job: Job)

  /** Where a worker is in run().  `FlagFirst` occurs only in the intended order of the two
      stores behind a failure, `FlagAfter` only in the order as written. */
  datatype WorkerPc =
    | Wait | Acquire | Pop
    | Release(job: Job) | Serve(job: Job)
    | FlagFirst(job: Job) | Ack(job: Job, ok: bool) | FlagAfter(job: Job)
    | Process(job: Job)

  datatype Owner = Main | Worker(i: nat)

  /** What the main loop did about an acknowledged request. */
  datatype Decision = Decision(job: Job, ok: bool, closed: bool)

  /** `improv` and `flag` are the connections whose improv and timer_flag are 1.  The last
      six fields are history: the requests pushed, popped and acknowledged, the result of
      the one being handled once it is acknowledged, the decisions of the main loop, and
      whether a timer_flag was ever tested with its store still to come. */
  datatype Pool = Pool(
    flagFirst: bool, maxRequests: nat,
    main: MainPc, workers: seq<WorkerPc>, queue: seq<Job>, sem: nat, lock: Option<Owner>,
    improv: set<nat>, flag: set<nat>, refused: bool,
    pushed: seq<Job>, popped: seq<Job>, acked: seq<Job>,
    result: Option<bool>, decisions: seq<Decision>, hasty: bool)

  function Start(flagFirst: bool, threads: nat, maxRequests: nat): Pool {
    Pool(flagFirst, maxRequests, Idle, seq(threads, _ => Wait), [], 0, None,
         {}, {}, false, [], [], [], None, [], false)
  }

  /** A step: the main loop gets an event or a new connection, or goes on; a worker goes
      on.  `ok` is the result of read() or write(); `init` says that a finished write()
      reset the connection. */
  datatype Step =
    | Event(conn: nat, writing: bool)
    | Connect(conn: nat)
    | MainStep
    | WorkerStep(i: nat, ok: bool, init: bool)

  predicate Enabled(s: Pool, step: Step) {
    match step
    case Event(_, _) => s.main.Idle?
    case Connect(_) => s.main.Idle?
    case MainStep =>
      (match s.main
       case Idle => false
       case Lock(_) => s.lock == None
       case Spin(job) => job.conn in s.improv
       case _ => true)
    case WorkerStep(i, _, _) =>
      i < |s.workers| &&
      (match s.workers[i]
       case Wait => s.sem > 0
       case Acquire => s.lock == None
       case _ => true)
  }

  function Next(s: Pool, step: Step): Pool
    requires Enabled(s, step)
  {
    match step
    case Event(conn, writing) => s.(main := Lock(Job(|s.pushed|, conn, writing)))
    case Connect(conn) => s.(improv := s.improv - {conn}, flag := s.flag - {conn})
    case MainStep => NextMain(s)
    case WorkerStep(i, ok, init) => NextWorker(s, i, ok, init)
  }

  /** append, and the wait for the acknowledgement. */
  function NextMain(s: Pool): Pool
    requires Enabled(s, MainStep)
  {
    match s.main
    case Lock(job) => s.(main := Push(job), lock := Some(Main))
    case Push(job) =>
      if |s.queue| > s.maxRequests then s.(main := Spin(job), lock := None, refused := true)
      else s.(main := Unlock(job), queue := s.queue + [job], pushed := s.pushed + [job])
    case Unlock(job) => s.(main := Post(job), lock := None)
    case Post(job) => s.(main := Spin(job), sem := s.sem + 1)
    case Spin(job) => s.(main := Check(job))
    case Check(job) =>
      var closed := job.conn in s.flag;
      var ok := s.result == Some(true);
      s.(main := Clear(job), flag := s.flag - {job.conn},
         decisions := s.decisions + [Decision(job, ok, closed)],
         hasty := s.hasty || FlagAfter(job) in s.workers)
    case Clear(job) => s.(main := Idle, improv := s.improv - {job.conn}, result := None)
  }

  /** Where a worker goes next. */
  function NextPc(s: Pool, w: WorkerPc, ok: bool): WorkerPc {
    match w
    case Wait => Acquire
    case Acquire => Pop
    case Pop => if s.queue == [] then Wait else Release(s.queue[0])
    case Release(job) => Serve(job)
    case Serve(job) => if !ok && s.flagFirst then FlagFirst(job) else Ack(job, ok)
    case FlagFirst(job) => Ack(job, false)
    case Ack(job, true) => if job.writing then Wait else Process(job)
    case Ack(job, false) => if s.flagFirst then Wait else FlagAfter(job)
    case FlagAfter(_) => Wait
    case Process(_) => Wait
  }

  /** One action of run(). */
  function NextWorker(s: Pool, i: nat, ok: bool, init: bool): Pool
    requires Enabled(s, WorkerStep(i, ok, init))
  {
    var w := s.workers[i];
    var pops := w.Pop? && s.queue != [];
    var resets := w.Serve? && w.job.writing && ok && init;
    s.(workers := s.workers[i := NextPc(s, w, ok)],
       sem := if w.Wait? then s.sem - 1 else s.sem,
       lock := if w.Acquire? then Some(Worker(i)) else if w.Release? || (w.Pop? && !pops) then None else s.lock,
       queue := if pops then s.queue[1..] else s.queue,
       popped := if pops then s.popped + [s.queue[0]] else s.popped,
       improv := if w.Ack? then s.improv + {w.job.conn} else if resets then s.improv - {w.job.conn} else s.improv,
       flag := if w.FlagFirst? || w.FlagAfter? then s.flag + {w.job.conn}
               else if resets then s.flag - {w.job.conn} else s.flag,
       acked := if w.Ack? then s.acked + [w.job] else s.acked,
       result := if w.Ack? then Some(w.ok) else s.result)
  }

  // ---- classes of workers ----

  /** Past the semaphore, and not past pop_front. */
  predicate Reserved(w: WorkerPc) { w.Acquire? || w.Pop? }

  /** Holding a request whose improv is not set yet. */
  predicate Unacked(w: WorkerPc) { w.Release? || w.Serve? || w.FlagFirst? || w.Ack? }

  predicate Flagging(w: WorkerPc) { w.FlagAfter? }

  /** Failed with timer_flag set and improv still to be set. */
  predicate Flagged(w: WorkerPc) { w.Ack? && !w.ok }

  // ---- the invariant ----

  /** The request between Push and Clear, if any. */
  predicate Handling(m: MainPc) { m.Unlock? || m.Post? || m.Spin? || m.Check? || m.Clear? }

  predicate LockInv(s: Pool) {
    && (s.lock == Some(Main) <==> s.main.Push? || s.main.Unlock?)
    && (forall i :: 0 <= i < |s.workers| ==>
          (s.lock == Some(Worker(i)) <==> s.workers[i].Pop? || s.workers[i].Release?))
    && (s.lock.Some? && s.lock.value.Worker? ==> s.lock.value.i < |s.workers|)
  }

  /** Every queued request has its semaphore unit, its reserved worker, or the main loop
      about to post for it. */
  predicate SemInv(s: Pool) {
    |s.queue| == s.sem + Count(s.workers, Reserved) + (if s.main.Unlock? || s.main.Post? then 1 else 0)
  }

  /** The request being handled is in exactly one place: in the queue, with a worker, or
      acknowledged. */
  predicate OnePlace(s: Pool) {
    && |s.queue| + Count(s.workers, Unacked) + (if s.result.Some? then 1 else 0) == (if Handling(s.main) then 1 else 0)
    && (forall j :: j in s.queue ==> Handling(s.main) && j == s.main.job)
    && (forall i :: 0 <= i < |s.workers| && Unacked(s.workers[i]) ==>
          Handling(s.main) && s.workers[i].job == s.main.job)
    && s.improv == (if s.result.Some? && Handling(s.main) then {s.main.job.conn} else {})
    && (s.main.Check? || s.main.Clear? ==> s.result.Some?)
    && !s.refused
  }

  /** Requests leave the queue in the order in which they entered it. */
  predicate Fifo(s: Pool) {
    s.pushed == s.popped + s.queue
  }

  /** They are acknowledged in that order, once each: all but the one not acknowledged yet. */
  predicate AckedInOrder(s: Pool) {
    s.pushed == s.acked + (if Handling(s.main) && s.result == None then [s.main.job] else [])
  }

  predicate Numbered(s: Pool) {
    && (forall i :: 0 <= i < |s.pushed| ==> s.pushed[i].number == i)
    && (s.main.Lock? || s.main.Push? ==> s.main.job.number == |s.pushed|)
  }

  predicate Inv(s: Pool) {
    && s.maxRequests > 0
    && LockInv(s) && SemInv(s) && OnePlace(s) && Fifo(s) && AckedInOrder(s) && Numbered(s)
  }

  lemma {:induction false} StartInv(flagFirst: bool, threads: nat, maxRequests: nat)
    requires maxRequests > 0
    ensures Inv(Start(flagFirst, threads, maxRequests))
  {
  }

  // ---- every step keeps it ----

  lemma {:induction false} WorkerKeepsLock(s: Pool, i: nat, ok: bool, init: bool)
    requires LockInv(s) && Enabled(s, WorkerStep(i, ok, init))
    ensures LockInv(NextWorker(s, i, ok, init))
  {
  }

  lemma {:induction false} PopFindsRequest(s: Pool, i: nat)
    requires SemInv(s) && i < |s.workers| && s.workers[i].Pop?
    ensures s.queue != []
  {
  }

  lemma {:induction false} WorkerKeepsSem(s: Pool, i: nat, ok: bool, init: bool)
    requires SemInv(s) && Enabled(s, WorkerStep(i, ok, init))
    ensures SemInv(NextWorker(s, i, ok, init))
  {
    hide Count;
    if s.workers[i].Pop? {
      PopFindsRequest(s, i);
    }
    CountUpdate(s.workers, Reserved, i, NextPc(s, s.workers[i], ok));
  }

  /** If a worker holds the request, it is nowhere else. */
  lemma {:induction false} HeldByOne(s: Pool, i: nat)
    requires OnePlace(s) && i < |s.workers| && Unacked(s.workers[i])
    ensures s.queue == [] && s.result == None && Handling(s.main) && !s.main.Check? && !s.main.Clear?
    ensures s.workers[i].job == s.main.job && s.improv == {} && Count(s.workers, Unacked) == 1
  {
  }

  lemma {:induction false} WorkerKeepsPlace(s: Pool, i: nat, ok: bool, init: bool)
    requires SemInv(s) && OnePlace(s) && Enabled(s, WorkerStep(i, ok, init))
    ensures OnePlace(NextWorker(s, i, ok, init))
  {
    if Unacked(s.workers[i]) {
      HolderKeepsPlace(s, i, ok, init);
    } else {
      OtherKeepsPlace(s, i, ok, init);
    }
  }

  lemma {:induction false} HolderKeepsPlace(s: Pool, i: nat, ok: bool, init: bool)
    requires OnePlace(s) && Enabled(s, WorkerStep(i, ok, init)) && Unacked(s.workers[i])
    ensures OnePlace(NextWorker(s, i, ok, init))
  {
    CountUpdate(s.workers, Unacked, i, NextPc(s, s.workers[i], ok));
    HeldByOne(s, i);
    hide Count;
  }

  lemma {:induction false} OtherKeepsPlace(s: Pool, i: nat, ok: bool, init: bool)
    requires SemInv(s) && OnePlace(s) && Enabled(s, WorkerStep(i, ok, init)) && !Unacked(s.workers[i])
    ensures OnePlace(NextWorker(s, i, ok, init))
  {
    var w := s.workers[i];
    CountUpdate(s.workers, Unacked, i, NextPc(s, w, ok));
    if w.Pop? {
      PopFindsRequest(s, i);
      assert s.queue[0] in s.queue;
    }
    hide Count, SemInv;
  }

  lemma {:induction false} WorkerKeepsOrder(s: Pool, i: nat, ok: bool, init: bool)
    requires Fifo(s) && Numbered(s) && Enabled(s, WorkerStep(i, ok, init))
    ensures Fifo(NextWorker(s, i, ok, init)) && Numbered(NextWorker(s, i, ok, init))
  {
    assert s.queue != [] ==> s.queue == [s.queue[0]] + s.queue[1..];
  }

  lemma {:induction false} WorkerKeepsAcks(s: Pool, i: nat, ok: bool, init: bool)
    requires OnePlace(s) && AckedInOrder(s) && Enabled(s, WorkerStep(i, ok, init))
    ensures AckedInOrder(NextWorker(s, i, ok, init))
  {
    hide Count;
    if Unacked(s.workers[i]) {
      HeldByOne(s, i);
    }
    hide OnePlace;
  }

  lemma {:induction false} MainKeepsLock(s: Pool)
    requires LockInv(s) && Enabled(s, MainStep)
    ensures LockInv(NextMain(s))
  {
  }

  lemma {:induction false} MainKeepsSem(s: Pool)
    requires SemInv(s) && OnePlace(s) && s.maxRequests > 0 && Enabled(s, MainStep)
    ensures SemInv(NextMain(s))
  {
    hide Count;
  }

  lemma {:induction false} MainKeepsPlace(s: Pool)
    requires OnePlace(s) && s.maxRequests > 0 && Enabled(s, MainStep)
    ensures OnePlace(NextMain(s))
  {
  }

  lemma {:induction false} MainKeepsOrder(s: Pool)
    requires OnePlace(s) && Fifo(s) && Numbered(s) && s.maxRequests > 0 && Enabled(s, MainStep)
    ensures Fifo(NextMain(s)) && Numbered(NextMain(s))
  {
    hide Count;
  }

  lemma {:induction false} MainKeepsAcks(s: Pool)
    requires OnePlace(s) && AckedInOrder(s) && s.maxRequests > 0 && Enabled(s, MainStep)
    ensures AckedInOrder(NextMain(s))
  {
    hide Count;
  }

  lemma {:induction false} EventKeeps(s: Pool, step: Step)
    requires Inv(s) && Enabled(s, step) && (step.Event? || step.Connect?)
    ensures Inv(Next(s, step))
  {
    hide Count;
  }

  lemma {:induction false} NextKeeps(s: Pool, step: Step)
    requires Inv(s) && Enabled(s, step)
    ensures Inv(Next(s, step))
  {
    hide NextMain, NextWorker, LockInv, SemInv, OnePlace, Fifo, AckedInOrder, Numbered;
    match step
    case MainStep =>
      MainKeepsLock(s);
      MainKeepsSem(s);
      MainKeepsPlace(s);
      MainKeepsOrder(s);
      MainKeepsAcks(s);
      MainBound(s);
    case WorkerStep(i, ok, init) =>
      WorkerKeepsLock(s, i, ok, init);
      WorkerKeepsSem(s, i, ok, init);
      WorkerKeepsPlace(s, i, ok, init);
      WorkerKeepsOrder(s, i, ok, init);
      WorkerKeepsAcks(s, i, ok, init);
      WorkerBound(s, i, ok, init);
    case _ => EventKeeps(s, step);
  }

  lemma {:induction false} MainBound(s: Pool)
    requires Enabled(s, MainStep)
    ensures NextMain(s).maxRequests == s.maxRequests
  {
  }

  lemma {:induction false} WorkerBound(s: Pool, i: nat, ok: bool, init: bool)
    requires Enabled(s, WorkerStep(i, ok, init))
    ensures NextWorker(s, i, ok, init).maxRequests == s.maxRequests
  {
  }

  // ---- closing exactly on failure ----

  predicate Right(d: Decision) { d.closed == !d.ok }

  /** timer_flag is set for the request being handled once it failed, was acknowledged and
      both stores are done; in the intended order from the first store on. */
  predicate FlagDue(s: Pool) {
    || (s.flagFirst && Count(s.workers, Flagged) > 0)
    || (s.result == Some(false) && Count(s.workers, Flagging) == 0 && !s.main.Clear?)
  }

  predicate FlagsRight(s: Pool) {
    && s.flag == (if FlagDue(s) && Handling(s.main) then {s.main.job.conn} else {})
    && Count(s.workers, Flagging) <= (if s.result == Some(false) && Handling(s.main) && !s.main.Clear? then 1 else 0)
    && (forall i :: 0 <= i < |s.workers| && Flagging(s.workers[i]) ==>
          Handling(s.main) && s.workers[i].job == s.main.job)
  }

  predicate OrderInv(s: Pool) {
    && (s.flagFirst ==> !s.hasty)
    && (forall i :: 0 <= i < |s.workers| ==>
          if s.flagFirst then !s.workers[i].FlagAfter? else !s.workers[i].FlagFirst?)
  }

  predicate FlagInv(s: Pool) {
    && OrderInv(s)
    && (!s.hasty ==> FlagsRight(s) && forall k :: 0 <= k < |s.decisions| ==> Right(s.decisions[k]))
    && (s.hasty ==> exists k :: 0 <= k < |s.decisions| && !Right(s.decisions[k]))
  }

  lemma {:induction false} StartFlagInv(flagFirst: bool, threads: nat, maxRequests: nat)
    ensures FlagInv(Start(flagFirst, threads, maxRequests))
  {
  }

  lemma {:induction false} WorkerKeepsFlags(s: Pool, i: nat, ok: bool, init: bool)
    requires OnePlace(s) && OrderInv(s) && FlagsRight(s) && Enabled(s, WorkerStep(i, ok, init))
    ensures FlagsRight(NextWorker(s, i, ok, init))
  {
    if Unacked(s.workers[i]) {
      HolderKeepsFlags(s, i, ok, init);
    } else {
      OtherKeepsFlags(s, i, ok, init);
    }
  }

  lemma {:induction false} HolderKeepsFlags(s: Pool, i: nat, ok: bool, init: bool)
    requires OnePlace(s) && OrderInv(s) && FlagsRight(s) && Enabled(s, WorkerStep(i, ok, init))
    requires Unacked(s.workers[i])
    ensures FlagsRight(NextWorker(s, i, ok, init))
  {
    var w := s.workers[i];
    CountUpdate(s.workers, Flagging, i, NextPc(s, w, ok));
    CountUpdate(s.workers, Flagged, i, NextPc(s, w, ok));
    HeldByOne(s, i);
    FlaggedIsHeld(s, i);
    hide Count;
  }

  lemma {:induction false} OtherKeepsFlags(s: Pool, i: nat, ok: bool, init: bool)
    requires OnePlace(s) && OrderInv(s) && FlagsRight(s) && Enabled(s, WorkerStep(i, ok, init))
    requires !Unacked(s.workers[i])
    ensures FlagsRight(NextWorker(s, i, ok, init))
  {
    var w := s.workers[i];
    CountUpdate(s.workers, Flagging, i, NextPc(s, w, ok));
    CountUpdate(s.workers, Flagged, i, NextPc(s, w, ok));
    hide Count, OnePlace;
  }

  /** The only worker with an unacknowledged request is the only one that can have flagged it. */
  lemma {:induction false} FlaggedIsHeld(s: Pool, i: nat)
    requires Count(s.workers, Unacked) == 1 && i < |s.workers| && Unacked(s.workers[i])
    ensures Count(s.workers, Flagged) == if Flagged(s.workers[i]) then 1 else 0
  {
    CountUpdate(s.workers, Unacked, i, Wait);
    CountUpdate(s.workers, Flagged, i, Wait);
    var ws := s.workers[i := Wait];
    assert forall j :: 0 <= j < |ws| && Flagged(ws[j]) ==> Unacked(ws[j]);
  }

  lemma {:induction false} WorkerKeepsOrderInv(s: Pool, i: nat, ok: bool, init: bool)
    requires OrderInv(s) && Enabled(s, WorkerStep(i, ok, init))
    ensures OrderInv(NextWorker(s, i, ok, init))
  {
  }

  lemma {:induction false} MainKeepsFlags(s: Pool)
    requires OnePlace(s) && OrderInv(s) && FlagsRight(s) && Enabled(s, MainStep) && !NextMain(s).hasty
    requires s.maxRequests > 0 && forall k :: 0 <= k < |s.decisions| ==> Right(s.decisions[k])
    ensures FlagsRight(NextMain(s)) && forall k :: 0 <= k < |NextMain(s).decisions| ==> Right(NextMain(s).decisions[k])
  {
    if s.main.Check? {
      assert Count(s.workers, Unacked) == 0;
      forall i | 0 <= i < |s.workers| ensures !Flagging(s.workers[i]) && !Flagged(s.workers[i]) {
        assert s.workers[i] in s.workers && !Unacked(s.workers[i]);
      }
      var ok := s.result.value;
      assert s.result == Some(ok);
      assert FlagDue(s) <==> !ok;
      assert Right(Decision(s.main.job, s.result == Some(true), s.main.job.conn in s.flag));
    }
  }

  /** Testing timer_flag with its store still to come decides wrongly. */
  lemma {:induction false} HastyIsWrong(s: Pool)
    requires OnePlace(s) && OrderInv(s) && FlagsRight(s) && Enabled(s, MainStep)
    requires !s.hasty && NextMain(s).hasty
    ensures !s.flagFirst
    ensures var t := NextMain(s); t.decisions != [] && !Right(t.decisions[|t.decisions| - 1])
  {
    assert s.main.Check? && FlagAfter(s.main.job) in s.workers;
    var i :| 0 <= i < |s.workers| && s.workers[i] == FlagAfter(s.main.job);
    assert Count(s.workers, Flagging) > 0;
  }

  lemma {:induction false} MainKeepsOrderInv(s: Pool)
    requires OrderInv(s) && Enabled(s, MainStep)
    requires s.flagFirst ==> !NextMain(s).hasty
    ensures OrderInv(NextMain(s))
  {
  }

  lemma {:induction false} FlagInvKept(s: Pool, step: Step)
    requires Inv(s) && FlagInv(s) && Enabled(s, step)
    ensures FlagInv(Next(s, step))
  {
    hide NextMain, NextWorker, LockInv, SemInv, OnePlace, FlagsRight, OrderInv, Right;
    match step
    case MainStep =>
      var t := NextMain(s);
      MainHistory(s);
      if s.flagFirst {
        OrderedHaste(s);
      }
      MainKeepsOrderInv(s);
      if !t.hasty {
        MainKeepsFlags(s);
      } else if !s.hasty {
        HastyIsWrong(s);
      } else {
        var k :| 0 <= k < |s.decisions| && !Right(s.decisions[k]);
        assert t.decisions[k] == s.decisions[k];
      }
    case WorkerStep(i, ok, init) =>
      WorkerHistory(s, i, ok, init);
      WorkerKeepsOrderInv(s, i, ok, init);
      if !s.hasty {
        WorkerKeepsFlags(s, i, ok, init);
      }
    case _ => EventKeepsFlags(s, step);
  }

  lemma {:induction false} OrderedHaste(s: Pool)
    requires OrderInv(s) && Enabled(s, MainStep) && s.flagFirst
    ensures !NextMain(s).hasty
  {
  }

  lemma {:induction false} MainHistory(s: Pool)
    requires Enabled(s, MainStep)
    ensures s.decisions <= NextMain(s).decisions && (s.hasty ==> NextMain(s).hasty)
    ensures NextMain(s).flagFirst == s.flagFirst
  {
  }

  lemma {:induction false} WorkerHistory(s: Pool, i: nat, ok: bool, init: bool)
    requires Enabled(s, WorkerStep(i, ok, init))
    ensures var t := NextWorker(s, i, ok, init);
      t.decisions == s.decisions && t.hasty == s.hasty && t.flagFirst == s.flagFirst
  {
  }

  lemma {:induction false} EventKeepsFlags(s: Pool, step: Step)
    requires OnePlace(s) && FlagInv(s) && Enabled(s, step) && (step.Event? || step.Connect?)
    ensures FlagInv(Next(s, step))
  {
    hide Count, Right;
  }

  // ---- runs ----

  predicate Possible(s: Pool, run: seq<Step>)
    decreases |run|
  {
    run == [] || (Enabled(s, run[0]) && Possible(Next(s, run[0]), run[1..]))
  }

  function After(s: Pool, run: seq<Step>): Pool
    requires Possible(s, run)
    decreases |run|
  {
    if run == [] then s else After(Next(s, run[0]), run[1..])
  }

  lemma {:induction false} RunKeeps(s: Pool, run: seq<Step>)
    requires Inv(s) && FlagInv(s) && Possible(s, run)
    ensures Inv(After(s, run)) && FlagInv(After(s, run)) && After(s, run).flagFirst == s.flagFirst
    decreases |run|
  {
    hide Next, Enabled, Inv, FlagInv;
    if run != [] {
      NextKeeps(s, run[0]);
      FlagInvKept(s, run[0]);
      KeepsOrder(s, run[0]);
      RunKeeps(Next(s, run[0]), run[1..]);
    }
  }

  lemma {:induction false} KeepsOrder(s: Pool, step: Step)
    requires Enabled(s, step)
    ensures Next(s, step).flagFirst == s.flagFirst
  {
  }

  /** In every interleaving of any number of workers: the queue never holds more than one
      request, append never refuses, pop_front never meets an empty queue, and requests
      are popped and acknowledged in the order in which they were pushed, once each. */
  lemma {:induction false} Handshake(flagFirst: bool, threads: nat, maxRequests: nat, run: seq<Step>)
    requires maxRequests > 0 && Possible(Start(flagFirst, threads, maxRequests), run)
    ensures var s := After(Start(flagFirst, threads, maxRequests), run);
      && |s.queue| <= 1 && !s.refused
      && (s.main.Push? ==> s.queue == [])
      && (forall i :: 0 <= i < |s.workers| && s.workers[i].Pop? ==> s.queue != [])
      && s.popped <= s.pushed && s.acked <= s.pushed
      && (s.main.Idle? ==> s.popped == s.pushed == s.acked)
      && (forall i, j :: 0 <= i < j < |s.pushed| ==> s.pushed[i] != s.pushed[j])
  {
    StartInv(flagFirst, threads, maxRequests);
    StartFlagInv(flagFirst, threads, maxRequests);
    RunKeeps(Start(flagFirst, threads, maxRequests), run);
    var s := After(Start(flagFirst, threads, maxRequests), run);
    AtMostOne(s);
  }

  lemma {:induction false} AtMostOne(s: Pool)
    requires Inv(s)
    ensures |s.queue| <= 1 && (s.main.Push? || s.main.Idle? ==> s.queue == [])
    ensures forall i :: 0 <= i < |s.workers| && s.workers[i].Pop? ==> s.queue != []
    ensures s.popped <= s.pushed && s.acked <= s.pushed
    ensures s.main.Idle? ==> s.popped == s.pushed == s.acked
    ensures forall i, j :: 0 <= i < j < |s.pushed| ==> s.pushed[i] != s.pushed[j]
  {
    forall i | 0 <= i < |s.workers| && s.workers[i].Pop? ensures s.queue != [] {
      PopFindsRequest(s, i);
    }
  }

  /** The main loop closes exactly the connections whose read or write failed, if and only
      if it never tested timer_flag between the two stores of a worker; with timer_flag
      stored before improv it never does. */
  lemma {:induction false} ClosesOnFailure(flagFirst: bool, threads: nat, maxRequests: nat, run: seq<Step>)
    requires maxRequests > 0 && Possible(Start(flagFirst, threads, maxRequests), run)
    ensures var s := After(Start(flagFirst, threads, maxRequests), run);
      && ((forall k :: 0 <= k < |s.decisions| ==> s.decisions[k].closed == !s.decisions[k].ok) <==> !s.hasty)
      && (flagFirst ==> !s.hasty)
  {
    StartInv(flagFirst, threads, maxRequests);
    StartFlagInv(flagFirst, threads, maxRequests);
    RunKeeps(Start(flagFirst, threads, maxRequests), run);
    var s := After(Start(flagFirst, threads, maxRequests), run);
    if s.hasty {
      var k :| 0 <= k < |s.decisions| && !Right(s.decisions[k]);
      assert s.decisions[k].closed != !s.decisions[k].ok;
    } else {
      assert forall k :: 0 <= k < |s.decisions| ==> Right(s.decisions[k]);
    }
  }

  lemma {:induction false} Cons(s: Pool, step: Step, t: Pool, rest: seq<Step>)
    requires Enabled(s, step) && t == Next(s, step) && Possible(t, rest)
    ensures Possible(s, [step] + rest) && After(s, [step] + rest) == After(t, rest)
  {
    hide Next, Enabled;
    assert ([step] + rest)[1..] == rest;
  }

  const FIRST := Job(0, 7, false)

  /** The first request is queued, and the main loop waits. */
  function Queued(): Pool {
    Start(false, 1, 1).(workers := [Wait], main := Spin(FIRST), queue := [FIRST], pushed := [FIRST], sem := 1)
  }

  /** The worker has taken the request. */
  function Serving(): Pool {
    Queued().(workers := [Serve(FIRST)], queue := [], sem := 0, popped := [FIRST])
  }

  /** The worker has failed to read, and set improv. */
  function HalfDone(): Pool {
    Queued().(workers := [FlagAfter(FIRST)], queue := [], sem := 0, popped := [FIRST],
              improv := {7}, acked := [FIRST], result := Some(false))
  }

  lemma {:induction false} HastyCheck() returns (run: seq<Step>)
    ensures Possible(HalfDone(), run)
    ensures After(HalfDone(), run).decisions == [Decision(FIRST, false, false)]
  {
    var s := HalfDone();
    var c1 := s.(main := Check(FIRST));
    var c2 := NextMain(c1);
    assert c2.decisions == [Decision(FIRST, false, false)];
    run := [];
    Cons(c1, MainStep, c2, run);
    run := [MainStep] + run;
    Cons(s, MainStep, c1, run);
    run := [MainStep] + run;
  }

  lemma {:induction false} HastyServe() returns (run: seq<Step>)
    ensures Possible(Serving(), run)
    ensures After(Serving(), run).decisions == [Decision(FIRST, false, false)]
  {
    var w := WorkerStep(0, false, false);
    var b5 := Serving().(workers := [Ack(FIRST, false)]);
    run := HastyCheck();
    hide After, Possible;
    Cons(b5, w, HalfDone(), run);
    run := [w] + run;
    Cons(Serving(), w, b5, run);
    run := [w] + run;
  }

  lemma {:induction false} HastyWorker() returns (run: seq<Step>)
    ensures Possible(Queued(), run)
    ensures After(Queued(), run).decisions == [Decision(FIRST, false, false)]
  {
    var w := WorkerStep(0, false, false);
    var s := Queued();
    var b1 := s.(workers := [Acquire], sem := 0);
    var b2 := b1.(workers := [Pop], lock := Some(Worker(0)));
    var b3 := b2.(workers := [Release(FIRST)], queue := [], popped := [FIRST]);
    run := HastyServe();
    hide After, Possible;
    Cons(b3, w, Serving(), run);
    run := [w] + run;
    Cons(b2, w, b3, run);
    run := [w] + run;
    Cons(b1, w, b2, run);
    run := [w] + run;
    Cons(s, w, b1, run);
    run := [w] + run;
  }

  /** As written the main loop can test timer_flag too early: a worker failed to read, has
      set improv and not yet timer_flag, and the connection is not closed. */
  lemma {:induction false} HastyRun() returns (run: seq<Step>)
    ensures Possible(Start(false, 1, 1), run)
    ensures After(Start(false, 1, 1), run).decisions == [Decision(FIRST, false, false)]
  {
    var s := Start(false, 1, 1).(workers := [Wait]);
    assert Start(false, 1, 1) == s;
    var a1 := s.(main := Lock(FIRST));
    var a2 := a1.(main := Push(FIRST), lock := Some(Main));
    var a3 := a2.(main := Unlock(FIRST), queue := [FIRST], pushed := [FIRST]);
    var a4 := a3.(main := Post(FIRST), lock := None);
    run := HastyWorker();
    hide After, Possible;
    Cons(a4, MainStep, Queued(), run);
    run := [MainStep] + run;
    Cons(a3, MainStep, a4, run);
    run := [MainStep] + run;
    Cons(a2, MainStep, a3, run);
    run := [MainStep] + run;
    Cons(a1, MainStep, a2, run);
    run := [MainStep] + run;
    Cons(s, Event(7, false), a1, run);
    run := [Event(7, false)] + run;
  }
}
