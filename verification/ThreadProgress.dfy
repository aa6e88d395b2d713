/** The main loop's wait for a worker always ends, whatever the scheduler does. */
module ThreadProgress {
  import opened Wrappers
  import opened ThreadSteps

  /** How many actions a worker can still take before it waits on the semaphore again. */
  function WorkerLeft(w: WorkerPc): nat {
    match w
    case Wait => 0
    case Acquire => 8
    case Pop => 7
    case Release(_) => 6
    case Serve(_) => 5
    case FlagFirst(_) => 4
    case Ack(_, _) => 3
    case FlagAfter(_) => 2
    case Process(_) => 1
  }

  /** The same for the main loop; its post lets a worker take nine actions. */
  function MainLeft(m: MainPc): nat {
    match m
    case Idle => 0
    case Lock(_) => 16
    case Push(_) => 15
    case Unlock(_) => 14
    case Post(_) => 13
    case Spin(_) => 3
    case Check(_) => 2
    case Clear(_) => 1
  }

  function AllLeft(ws: seq<WorkerPc>): nat {
    if ws == [] then 0 else WorkerLeft(ws[0]) + AllLeft(ws[1..])
  }

  function Left(s: Pool): nat {
    MainLeft(s.main) + 9 * s.sem + AllLeft(s.workers)
  }

  lemma {:induction false} LeftUpdate(ws: seq<WorkerPc>, i: nat, w: WorkerPc)
    requires i < |ws|
    ensures AllLeft(ws[i := w]) + WorkerLeft(ws[i]) == AllLeft(ws) + WorkerLeft(w)
  {
    hide WorkerLeft;
    if i == 0 {
      assert ws[i := w][1..] == ws[1..];
    } else {
      assert ws[i := w][1..] == ws[1..][i - 1 := w];
      LeftUpdate(ws[1..], i - 1, w);
    }
  }

  predicate Internal(step: Step) {
    step.MainStep? || step.WorkerStep?
  }

  /** Each action of the main loop behind append's begin, and of a worker, is one fewer. */
  lemma {:induction false} StepCounts(s: Pool, step: Step)
    requires Enabled(s, step) && Internal(step)
    ensures Left(Next(s, step)) < Left(s)
  {
    match step
    case MainStep => MainCounts(s);
    case WorkerStep(i, ok, init) => WorkerCounts(s, i, ok, init);
  }

  lemma {:induction false} MainCounts(s: Pool)
    requires Enabled(s, MainStep)
    ensures Left(NextMain(s)) < Left(s)
  {
    hide AllLeft;
  }

  lemma {:induction false} WorkerCounts(s: Pool, i: nat, ok: bool, init: bool)
    requires Enabled(s, WorkerStep(i, ok, init))
    ensures Left(NextWorker(s, i, ok, init)) < Left(s)
  {
    var w := s.workers[i];
    LeftUpdate(s.workers, i, NextPc(s, w, ok));
    Onward(s, w, ok);
    hide AllLeft, WorkerLeft, NextPc;
  }

  lemma {:induction false} Onward(s: Pool, w: WorkerPc, ok: bool)
    ensures if w.Wait? then WorkerLeft(NextPc(s, w, ok)) == WorkerLeft(w) + 8
            else WorkerLeft(NextPc(s, w, ok)) < WorkerLeft(w)
  {
  }

  /** Until the next event no run is longer than this count. */
  lemma {:induction false} RunIsBounded(s: Pool, run: seq<Step>)
    requires Possible(s, run) && forall k :: 0 <= k < |run| ==> Internal(run[k])
    ensures |run| <= Left(s)
    decreases |run|
  {
    hide Next, Enabled, Left;
    if run != [] {
      StepCounts(s, run[0]);
      assert forall k :: 0 <= k < |run[1..]| ==> run[1..][k] == run[k + 1];
      RunIsBounded(Next(s, run[0]), run[1..]);
    }
  }

  /** Somebody can go on: the main loop, or a worker. */
  predicate Moves(s: Pool) {
    Enabled(s, MainStep) || exists i :: 0 <= i < |s.workers| && Enabled(s, WorkerStep(i, true, true))
  }

  /** Whoever has the lock can go on. */
  lemma {:induction false} HolderMoves(s: Pool)
    requires LockInv(s) && s.lock.Some?
    ensures Moves(s)
  {
    if s.lock.value.Worker? {
      assert Enabled(s, WorkerStep(s.lock.value.i, true, true));
    }
  }

  /** A request that is in the queue gets a worker. */
  lemma {:induction false} QueuedMoves(s: Pool)
    requires LockInv(s) && SemInv(s) && s.main.Spin? && s.queue != [] && s.workers != []
    ensures Moves(s)
  {
    hide Count;
    if s.lock.Some? {
      HolderMoves(s);
    } else if s.sem > 0 {
      assert Enabled(s, WorkerStep(0, true, true));
    } else {
      var i :| 0 <= i < |s.workers| && Reserved(s.workers[i]);
      assert Enabled(s, WorkerStep(i, true, true));
    }
  }

  /** The wait of the main loop is never a deadlock. */
  lemma {:induction false} NeverStuck(s: Pool)
    requires Inv(s) && s.workers != [] && !s.main.Idle?
    ensures Moves(s)
  {
    hide Count;
    if s.main.Lock? {
      if s.lock.Some? {
        HolderMoves(s);
      }
    } else if s.main.Spin? && s.main.job.conn !in s.improv {
      if s.queue != [] {
        QueuedMoves(s);
      } else {
        var i :| 0 <= i < |s.workers| && Unacked(s.workers[i]);
        assert Enabled(s, WorkerStep(i, true, true));
      }
    }
  }

  /** With at least one worker, however the threads are scheduled: after an event the
      main loop and the workers take at most `Left` actions, and when none of them can go
      on, the main loop is back at epoll_wait with every request popped and acknowledged. */
  lemma {:induction false} WaitEnds(flagFirst: bool, threads: nat, maxRequests: nat, run: seq<Step>, more: seq<Step>)
    requires threads > 0 && maxRequests > 0 && Possible(Start(flagFirst, threads, maxRequests), run)
    requires var s := After(Start(flagFirst, threads, maxRequests), run);
      Possible(s, more) && forall k :: 0 <= k < |more| ==> Internal(more[k])
    ensures var s := After(Start(flagFirst, threads, maxRequests), run);
      && |more| <= Left(s)
      && (var t := After(s, more); !Moves(t) ==> t.main.Idle? && t.popped == t.pushed == t.acked)
  {
    var start := Start(flagFirst, threads, maxRequests);
    var s := After(start, run);
    StartInv(flagFirst, threads, maxRequests);
    StartFlagInv(flagFirst, threads, maxRequests);
    RunKeeps(start, run);
    RunKeeps(s, more);
    SameWorkers(start, run);
    SameWorkers(s, more);
    RunIsBounded(s, more);
    var t := After(s, more);
    if !t.main.Idle? {
      NeverStuck(t);
    } else {
      AtMostOne(t);
    }
  }

  lemma {:induction false} SameWorkers(s: Pool, run: seq<Step>)
    requires Possible(s, run)
    ensures |After(s, run).workers| == |s.workers|
    decreases |run|
  {
    if run != [] {
      hide NextPc;
      SameWorkers(Next(s, run[0]), run[1..]);
    }
  }
}
