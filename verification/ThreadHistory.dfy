/** What a whole run of the main loop and the workers hands over and processes. */
module ThreadHistory {
  import opened Wrappers
  import opened ThreadSteps

  /** A connection, and whether it is to be written. */
  datatype Ask = Ask(conn: nat, writing: bool)

  /** What the events of a run ask for: readable connections are to be read, writable ones
      to be written. */
  function Asked(run: seq<Step>): seq<Ask>
    decreases |run|
  {
    if run == [] then []
    else (match run[0]
          case Event(conn, writing) => [Ask(conn, writing)]
          case _ => [])
         + Asked(run[1..])
  }

  function AskOf(job: Job): Ask { Ask(job.conn, job.writing) }

  function Asks(jobs: seq<Job>): (r: seq<Ask>)
    ensures |r| == |jobs|
  {
    seq(|jobs|, i requires 0 <= i < |jobs| => AskOf(jobs[i]))
  }

  /** What was handed to append so far, in order. */
  function Handed(s: Pool): seq<Ask> {
    Asks(s.pushed) + (if s.main.Lock? || s.main.Push? then [AskOf(s.main.job)] else [])
  }

  lemma {:induction false} AsksAppend(jobs: seq<Job>, job: Job)
    ensures Asks(jobs + [job]) == Asks(jobs) + [AskOf(job)]
  {
  }

  /** A worker hands nothing over. */
  lemma {:induction false} WorkerHands(s: Pool, i: nat, ok: bool, init: bool)
    requires Enabled(s, WorkerStep(i, ok, init))
    ensures Handed(NextWorker(s, i, ok, init)) == Handed(s)
  {
    hide NextPc, Asks;
  }

  /** append neither loses nor changes what it is given, as it never refuses. */
  lemma {:induction false} MainHands(s: Pool)
    requires Inv(s) && Enabled(s, MainStep)
    ensures Handed(NextMain(s)) == Handed(s)
  {
    if s.main.Push? {
      AtMostOne(s);
      AsksAppend(s.pushed, s.main.job);
      assert Asks(s.pushed + [s.main.job]) + [] == Asks(s.pushed) + [AskOf(s.main.job)];
    }
    hide Inv, Asks;
  }

  lemma {:induction false} StepHands(s: Pool, step: Step)
    requires Inv(s) && Enabled(s, step)
    ensures Handed(Next(s, step)) == Handed(s) + (if step.Event? then [Ask(step.conn, step.writing)] else [])
  {
    match step
    case MainStep => MainHands(s);
    case WorkerStep(i, ok, init) => WorkerHands(s, i, ok, init);
    case _ => hide Asks, Inv;
  }

  lemma {:induction false} RunHands(s: Pool, run: seq<Step>)
    requires Inv(s) && Possible(s, run)
    ensures Handed(After(s, run)) == Handed(s) + Asked(run)
    decreases |run|
  {
    hide Next, Enabled, Inv, Handed;
    if run != [] {
      NextKeeps(s, run[0]);
      StepHands(s, run[0]);
      RunHands(Next(s, run[0]), run[1..]);
      assert Asked(run) == (if run[0].Event? then [Ask(run[0].conn, run[0].writing)] else []) + Asked(run[1..]);
    }
  }

  /** In every interleaving the requests handed to the pool are those the events ask for,
      in order, each for its connection and its direction. */
  lemma {:induction false} EventsAreHanded(flagFirst: bool, threads: nat, maxRequests: nat, run: seq<Step>)
    requires maxRequests > 0 && Possible(Start(flagFirst, threads, maxRequests), run)
    ensures Handed(After(Start(flagFirst, threads, maxRequests), run)) == Asked(run)
  {
    StartInv(flagFirst, threads, maxRequests);
    RunHands(Start(flagFirst, threads, maxRequests), run);
    hide After, Possible;
  }

  // ---- what is read is processed ----

  /** How often a run acknowledges `job` as read successfully, and how often it processes it. */
  function Reads(s: Pool, run: seq<Step>, job: Job): nat
    requires Possible(s, run)
    decreases |run|
  {
    if run == [] then 0
    else (if run[0].WorkerStep? && s.workers[run[0].i] == Ack(job, true) && !job.writing then 1 else 0)
         + Reads(Next(s, run[0]), run[1..], job)
  }

  function Processed(s: Pool, run: seq<Step>, job: Job): nat
    requires Possible(s, run)
    decreases |run|
  {
    if run == [] then 0
    else (if run[0].WorkerStep? && s.workers[run[0].i] == Process(job) then 1 else 0)
         + Processed(Next(s, run[0]), run[1..], job)
  }

  /** How many workers are about to process `job`. */
  function Busy(s: Pool, job: Job): nat {
    Count(s.workers, w => w == Process(job))
  }

  lemma {:induction false} GoesToProcess(s: Pool, w: WorkerPc, ok: bool, job: Job)
    ensures NextPc(s, w, ok) == Process(job) <==> w == Ack(job, true) && !job.writing
  {
  }

  lemma {:induction false} WorkerAt(s: Pool, i: nat, ok: bool, init: bool)
    requires Enabled(s, WorkerStep(i, ok, init))
    ensures i < |s.workers|
    ensures NextWorker(s, i, ok, init).workers == s.workers[i := NextPc(s, s.workers[i], ok)]
  {
    hide NextPc;
  }

  lemma {:induction false} StepBusy(s: Pool, step: Step, job: Job)
    requires Enabled(s, step)
    ensures Busy(Next(s, step), job)
         == Busy(s, job)
            + (if step.WorkerStep? && s.workers[step.i] == Ack(job, true) && !job.writing then 1 else 0)
            - (if step.WorkerStep? && s.workers[step.i] == Process(job) then 1 else 0)
  {
    if step.WorkerStep? {
      var w := s.workers[step.i];
      WorkerAt(s, step.i, step.ok, step.init);
      GoesToProcess(s, w, step.ok, job);
      hide NextPc, NextWorker, Enabled;
      CountUpdate(s.workers, w => w == Process(job), step.i, NextPc(s, w, step.ok));
      hide Count;
    } else {
      assert Next(s, step).workers == s.workers;
    }
  }

  /** Over every run, each request that was read is processed once for each time it was
      read, or a worker is just about to. */
  lemma {:induction false} ReadIsProcessed(s: Pool, run: seq<Step>, job: Job)
    requires Possible(s, run)
    ensures Busy(s, job) + Reads(s, run, job) == Processed(s, run, job) + Busy(After(s, run), job)
    decreases |run|
  {
    hide Next, Enabled, Busy;
    if run != [] {
      StepBusy(s, run[0], job);
      ReadIsProcessed(Next(s, run[0]), run[1..], job);
    }
  }

  // ---- whose failure closes a connection ----

  /** The connections whose timer_flag a worker raised after they were last reset, by an
      accept on the slot or by a finished write. */
  function Blamed(s: Pool, run: seq<Step>, blamed: set<nat>): set<nat>
    requires Possible(s, run)
    decreases |run|
  {
    if run == [] then blamed else Blamed(Next(s, run[0]), run[1..], Blame(s, run[0], blamed))
  }

  function Blame(s: Pool, step: Step, blamed: set<nat>): set<nat>
    requires Enabled(s, step)
  {
    match step
    case Connect(conn) => blamed - {conn}
    case WorkerStep(i, ok, init) =>
      (match s.workers[i]
       case FlagFirst(job) => blamed + {job.conn}
       case FlagAfter(job) => blamed + {job.conn}
       case Serve(job) => if job.writing && ok && init then blamed - {job.conn} else blamed
       case _ => blamed)
    case _ => blamed
  }

  lemma {:induction false} StepBlames(s: Pool, step: Step, blamed: set<nat>)
    requires Enabled(s, step) && s.flag <= blamed
    ensures Next(s, step).flag <= Blame(s, step, blamed)
  {
    hide NextPc;
  }

  lemma {:induction false} RunBlames(s: Pool, run: seq<Step>, blamed: set<nat>)
    requires Possible(s, run) && s.flag <= blamed
    ensures After(s, run).flag <= Blamed(s, run, blamed)
    decreases |run|
  {
    hide Next, Enabled, Blame;
    if run != [] {
      StepBlames(s, run[0], blamed);
      RunBlames(Next(s, run[0]), run[1..], Blame(s, run[0], blamed));
    }
  }

  /** In every interleaving the main loop closes a connection only for a failure behind its
      last reset: an older one never falls on whoever uses the slot next. */
  lemma {:induction false} OnlyTheBlamedClose(flagFirst: bool, threads: nat, maxRequests: nat, run: seq<Step>)
    requires Possible(Start(flagFirst, threads, maxRequests), run)
    requires After(Start(flagFirst, threads, maxRequests), run).main.Check?
    ensures var s := After(Start(flagFirst, threads, maxRequests), run);
      var decided := Next(s, MainStep).decisions;
      && |decided| == |s.decisions| + 1 && decided[|s.decisions|].job == s.main.job
      && (decided[|s.decisions|].closed ==>
            s.main.job.conn in Blamed(Start(flagFirst, threads, maxRequests), run, {}))
  {
    RunBlames(Start(flagFirst, threads, maxRequests), run, {});
    hide After, Possible, Blamed;
  }
}
