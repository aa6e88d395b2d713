/** `threadpool` and the main loop's wait, on the state they change, when a request is
    handled without interruption: each method is the run of its thread's steps in
    ThreadSteps, in the order as written. */
module WorkerPool {
  import opened Wrappers
  import opened ThreadSteps

  function Again(step: Step, n: nat): (run: seq<Step>)
    ensures |run| == n
  {
    if n == 0 then [] else [step] + Again(step, n - 1)
  }

  predicate Goes(s: Pool, step: Step, t: Pool) {
    Enabled(s, step) && Next(s, step) == t
  }

  /** One step in front of a run. */
  lemma {:induction false} FirstStep(s: Pool, step: Step, t: Pool, n: nat)
    requires Goes(s, step, t) && Possible(t, Again(step, n))
    ensures Possible(s, Again(step, n + 1)) && After(s, Again(step, n + 1)) == After(t, Again(step, n))
  {
    Cons(s, step, t, Again(step, n));
  }

  lemma {:induction false} NoStep(s: Pool, step: Step)
    ensures Possible(s, Again(step, 0)) && After(s, Again(step, 0)) == s
  {
  }

  // ---- append ----

  predicate Appending(s: Pool) {
    s.main.Lock? && s.lock == None
  }

  function Appended(s: Pool): Pool
    requires Appending(s)
  {
    var job := s.main.job;
    if |s.queue| > s.maxRequests then s.(main := Spin(job), refused := true)
    else s.(main := Spin(job), queue := s.queue + [job], pushed := s.pushed + [job], sem := s.sem + 1)
  }

  function AppendSteps(s: Pool): nat {
    if |s.queue| > s.maxRequests then 2 else 4
  }

  lemma {:induction false} AppendRun(s: Pool)
    requires Appending(s)
    ensures Possible(s, Again(MainStep, AppendSteps(s))) && After(s, Again(MainStep, AppendSteps(s))) == Appended(s)
  {
    var job := s.main.job;
    var s1 := s.(main := Push(job), lock := Some(Main));
    var end := Appended(s);
    NoStep(end, MainStep);
    hide Possible, After, Again;
    if |s.queue| > s.maxRequests {
      FirstStep(s1, MainStep, end, 0);
      FirstStep(s, MainStep, s1, 1);
    } else {
      var s2 := s1.(main := Unlock(job), queue := s.queue + [job], pushed := s.pushed + [job]);
      var s3 := s2.(main := Post(job), lock := None);
      FirstStep(s3, MainStep, end, 0);
      FirstStep(s2, MainStep, s3, 1);
      FirstStep(s1, MainStep, s2, 2);
      FirstStep(s, MainStep, s1, 3);
    }
  }

  // ---- one turn of run ----

  predicate Ready(s: Pool, i: nat) {
    i < |s.workers| && s.workers[i].Wait? && s.sem > 0 && s.lock == None && s.queue != [] && !s.flagFirst
  }

  function Served(s: Pool, i: nat, ok: bool, init: bool): Pool
    requires Ready(s, i)
  {
    var job := s.queue[0];
    s.(queue := s.queue[1..], sem := s.sem - 1, popped := s.popped + [job], acked := s.acked + [job],
       result := Some(ok), improv := s.improv + {job.conn},
       flag := if !ok then s.flag + {job.conn} else if job.writing && init then s.flag - {job.conn} else s.flag)
  }

  function TurnSteps(job: Job, ok: bool): nat {
    if ok && job.writing then 6 else 7
  }

  /** The first four steps of a turn, one by one. */
  lemma {:induction false} TakeStep(s: Pool, i: nat, ok: bool, init: bool)
    requires i < |s.workers|
    ensures var step, w := WorkerStep(i, ok, init), s.workers[i];
      && (w.Wait? && s.sem > 0 ==> Goes(s, step, s.(workers := s.workers[i := Acquire], sem := s.sem - 1)))
      && (w.Acquire? && s.lock == None ==>
            Goes(s, step, s.(workers := s.workers[i := Pop], lock := Some(Worker(i)))))
      && (w.Pop? && s.queue != [] ==>
            Goes(s, step, s.(workers := s.workers[i := Release(s.queue[0])], queue := s.queue[1..],
                             popped := s.popped + [s.queue[0]])))
      && (w.Release? ==> Goes(s, step, s.(workers := s.workers[i := Serve(w.job)], lock := None)))
  {
  }

  /** And the last ones. */
  lemma {:induction false} ServeStep(s: Pool, i: nat, ok: bool, init: bool)
    requires i < |s.workers| && !s.flagFirst
    ensures var step, w := WorkerStep(i, ok, init), s.workers[i];
      && (w.Serve? ==>
            Goes(s, step, s.(
              workers := s.workers[i := Ack(w.job, ok)],
              improv := if w.job.writing && ok && init then s.improv - {w.job.conn} else s.improv,
              flag := if w.job.writing && ok && init then s.flag - {w.job.conn} else s.flag)))
      && (w.FlagAfter? ==>
            Goes(s, step, s.(workers := s.workers[i := Wait], flag := s.flag + {w.job.conn})))
      && (w.Process? ==> Goes(s, step, s.(workers := s.workers[i := Wait])))
  {
  }

  lemma {:induction false} AckStep(s: Pool, i: nat, ok: bool, init: bool)
    requires i < |s.workers| && !s.flagFirst && s.workers[i].Ack?
    ensures var w := s.workers[i];
      Goes(s, WorkerStep(i, ok, init), s.(
        workers := s.workers[i := if !w.ok then FlagAfter(w.job) else if w.job.writing then Wait else Process(w.job)],
        improv := s.improv + {w.job.conn}, acked := s.acked + [w.job], result := Some(w.ok)))
  {
  }

  lemma {:induction false} Replaced(ws: seq<WorkerPc>, i: nat, a: WorkerPc, b: WorkerPc)
    requires i < |ws|
    ensures ws[i := a][i := b] == ws[i := b] && ws[i := ws[i]] == ws
  {
  }

  /** From Serve on. */
  lemma {:induction false} ServeRun(s: Pool, i: nat, ok: bool, init: bool, t: Pool)
    requires Ready(s, i)
    requires t == s.(workers := s.workers[i := Serve(s.queue[0])], queue := s.queue[1..], sem := s.sem - 1,
                     popped := s.popped + [s.queue[0]])
    ensures var n := TurnSteps(s.queue[0], ok) - 4;
      && Possible(t, Again(WorkerStep(i, ok, init), n))
      && After(t, Again(WorkerStep(i, ok, init), n)) == Served(s, i, ok, init)
  {
    hide Possible, After, Again, Next, Enabled;
    var job, step, end := s.queue[0], WorkerStep(i, ok, init), Served(s, i, ok, init);
    ServeStep(t, i, ok, init);
    var t1 := Next(t, step);
    Replaced(s.workers, i, Serve(job), Ack(job, ok));
    AckStep(t1, i, ok, init);
    var t2 := Next(t1, step);
    Replaced(s.workers, i, Ack(job, ok), if !ok then FlagAfter(job) else if job.writing then Wait else Process(job));
    ServeStep(t2, i, ok, init);
    Replaced(s.workers, i, if ok then Process(job) else FlagAfter(job), Wait);
    assert t2.improv == end.improv;
    NoStep(end, step);
    if ok && job.writing {
      assert t2 == end;
    } else {
      FirstStep(t2, step, end, 0);
    }
    FirstStep(t1, step, t2, TurnSteps(job, ok) - 6);
    FirstStep(t, step, t1, TurnSteps(job, ok) - 5);
  }

  lemma {:induction false} TurnRun(s: Pool, i: nat, ok: bool, init: bool)
    requires Ready(s, i)
    ensures var run := Again(WorkerStep(i, ok, init), TurnSteps(s.queue[0], ok));
      Possible(s, run) && After(s, run) == Served(s, i, ok, init)
  {
    hide Possible, After, Again, Served, Goes;
    var job, step := s.queue[0], WorkerStep(i, ok, init);
    var n := TurnSteps(job, ok);
    var s1 := s.(workers := s.workers[i := Acquire], sem := s.sem - 1);
    var s2 := s1.(workers := s.workers[i := Pop], lock := Some(Worker(i)));
    var s3 := s2.(workers := s.workers[i := Release(job)], queue := s.queue[1..], popped := s.popped + [job]);
    var s4 := s3.(workers := s.workers[i := Serve(job)], lock := None);
    TakeStep(s, i, ok, init);
    TakeStep(s1, i, ok, init);
    Replaced(s.workers, i, Acquire, Pop);
    TakeStep(s2, i, ok, init);
    Replaced(s.workers, i, Pop, Release(job));
    TakeStep(s3, i, ok, init);
    Replaced(s.workers, i, Release(job), Serve(job));
    ServeRun(s, i, ok, init, s4);
    FirstStep(s3, step, s4, n - 4);
    FirstStep(s2, step, s3, n - 3);
    FirstStep(s1, step, s2, n - 2);
    FirstStep(s, step, s1, n - 1);
  }

  // ---- the wait of the main loop ----

  predicate Acknowledged(s: Pool) {
    s.main.Spin? && s.main.job.conn in s.improv
  }

  function Decided(s: Pool): Pool
    requires Acknowledged(s)
  {
    var conn := s.main.job.conn;
    s.(main := Idle, flag := s.flag - {conn}, improv := s.improv - {conn}, result := None,
       decisions := s.decisions + [Decision(s.main.job, s.result == Some(true), conn in s.flag)],
       hasty := s.hasty || FlagAfter(s.main.job) in s.workers)
  }

  lemma {:induction false} WaitRun(s: Pool)
    requires Acknowledged(s)
    ensures Possible(s, Again(MainStep, 3)) && After(s, Again(MainStep, 3)) == Decided(s)
  {
    var job := s.main.job;
    var s1 := s.(main := Check(job));
    var s2 := Decided(s).(main := Clear(job), improv := s.improv, result := s.result);
    var end := Decided(s);
    NoStep(end, MainStep);
    hide Possible, After, Again;
    FirstStep(s2, MainStep, end, 0);
    FirstStep(s1, MainStep, s2, 1);
    FirstStep(s, MainStep, s1, 2);
  }

  class ThreadPool {
    const maxRequests: nat
    var workQueue: seq<Job>
    var queueStat: nat
    /** The connections whose improv and whose timer_flag is 1. */
    var improv: set<nat>
    var timerFlag: set<nat>
    /** Where the threads are, and the history. */
    ghost var threads: Pool

    ghost function State(): Pool
      reads this
    {
      threads.(maxRequests := maxRequests, queue := workQueue, sem := queueStat,
               improv := improv, flag := timerFlag)
    }

    constructor (limit: nat, ghost threadCount: nat)
      ensures State() == Start(false, threadCount, limit)
    {
      maxRequests, workQueue, queueStat, improv, timerFlag := limit, [], 0, {}, {};
      threads := Start(false, threadCount, limit);
    }

    method Append(request: Job) returns (ok: bool)
      requires Appending(State()) && State().main.job == request
      modifies this
      ensures ok <==> |old(workQueue)| <= maxRequests
      ensures Possible(old(State()), Again(MainStep, AppendSteps(old(State()))))
      ensures State() == After(old(State()), Again(MainStep, AppendSteps(old(State()))))
      ensures State() == Appended(old(State()))
    {
      AppendRun(State());
      hide After, Possible, Again;
      ghost var end := Appended(State());
      if |workQueue| > maxRequests {
        threads := end;
        return false;
      }
      workQueue := workQueue + [request];
      queueStat := queueStat + 1;
      threads := end;
      return true;
    }

    /** One turn of run() by worker `i`; `ok` is what read() or write() returns, and `init`
        says that a finished write() reset the connection. */
    method RunOnce(ghost i: nat, ok: bool, init: bool)
      requires Ready(State(), i)
      modifies this
      ensures var run := Again(WorkerStep(i, ok, init), TurnSteps(old(workQueue)[0], ok));
        Possible(old(State()), run) && State() == After(old(State()), run)
      ensures State() == Served(old(State()), i, ok, init)
    {
      TurnRun(State(), i, ok, init);
      hide After, Possible, Again;
      ghost var end := Served(State(), i, ok, init);
      queueStat := queueStat - 1;
      var request := workQueue[0];
      workQueue := workQueue[1..];
      if request.writing && ok && init {
        improv, timerFlag := improv - {request.conn}, timerFlag - {request.conn};
      }
      improv := improv + {request.conn};
      if !ok {
        timerFlag := timerFlag + {request.conn};
      }
      threads := end;
    }

    /** The busy loop of the main loop for a connection that is acknowledged. */
    method Wait(conn: nat) returns (closed: bool)
      requires Acknowledged(State()) && State().main.job.conn == conn
      modifies this
      ensures closed <==> conn in old(timerFlag)
      ensures Possible(old(State()), Again(MainStep, 3)) && State() == After(old(State()), Again(MainStep, 3))
      ensures State() == Decided(old(State()))
    {
      WaitRun(State());
      hide After, Possible, Again;
      ghost var end := Decided(State());
      closed := conn in timerFlag;
      if closed {
        timerFlag := timerFlag - {conn};
      }
      improv := improv - {conn};
      threads := end;
    }

    /** One event of the main loop, served by worker `i` at once: the queue takes the
        request, and the connection is closed if and only if reading or writing failed. */
    method Handle(request: Job, ghost i: nat, ok: bool, init: bool) returns (closed: bool)
      requires Inv(State()) && FlagsRight(State()) && !State().flagFirst
      requires Appending(State()) && State().main.job == request
      requires i < |State().workers| && State().workers[i].Wait?
      modifies this
      ensures closed <==> !ok
      ensures workQueue == [] && improv == {} && timerFlag == {}
      ensures State().main.Idle? && State().workers == old(State().workers)
      ensures State().popped == State().pushed == State().acked == old(State().pushed) + [request]
    {
      hide After, Possible, Again, LockInv, SemInv, Numbered, Count;
      var _ := Append(request);
      RunOnce(i, ok, init);
      closed := Wait(request.conn);
    }
  }
}
