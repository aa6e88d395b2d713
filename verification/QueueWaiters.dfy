/** `block_queue` under any number of threads that push, pop and clear in any
    interleaving: the mutex, the condition variable, and who is asleep on it. */
module QueueWaiters {
  import opened Wrappers

  /** Where a thread is.  A thread between two calls is `Idle`; `Waiting` is asleep in
      m_cond.wait, and once woken it is at `PopLock` again, to re-acquire the mutex. */
  datatype Pc<T> =
    | Idle
    | PushLock(item: T) | PushTest(item: T) | PushStore(item: T) | PushNotify | PushUnlock
    | PopLock | PopTest | Waiting | PopTake | PopUnlock
    | ClearLock | ClearReset | ClearUnlock

  /** `stored` and `left` are history: all items ever stored, all that left the queue. */
  datatype Queue<T> = Queue(
    max: nat, items: seq<T>, lock: Option<nat>, threads: seq<Pc<T>>, stored: seq<T>, left: seq<T>)

  function Start<T>(max: nat, threads: nat): Queue<T> {
    Queue(max, [], None, seq(threads, _ => Idle), [], [])
  }

  /** An idle thread calls push, pop or clear; a thread goes on; a sleeper wakes up for no
      reason, as condition variables allow. */
  datatype Step<T> = CallPush(i: nat, item: T) | CallPop(i: nat) | CallClear(i: nat) | Go(i: nat) | WakeUp(i: nat)

  predicate Enabled<T>(s: Queue<T>, step: Step<T>) {
    && step.i < |s.threads|
    && (match step
        case CallPush(_, _) => s.threads[step.i].Idle?
        case CallPop(_) => s.threads[step.i].Idle?
        case CallClear(_) => s.threads[step.i].Idle?
        case WakeUp(_) => s.threads[step.i].Waiting?
        case Go(_) => CanGo(s, s.threads[step.i]))
  }

  predicate CanGo<T>(s: Queue<T>, t: Pc<T>) {
    if t.PushLock? || t.PopLock? || t.ClearLock? then s.lock == None else !t.Idle? && !t.Waiting?
  }

  function NextPc<T>(s: Queue<T>, step: Step<T>): Pc<T>
    requires Enabled(s, step)
  {
    match step
    case CallPush(_, item) => PushLock(item)
    case CallPop(_) => PopLock
    case CallClear(_) => ClearLock
    case WakeUp(_) => PopLock
    case Go(i) => Onward(s, s.threads[i])
  }

  function Onward<T>(s: Queue<T>, t: Pc<T>): Pc<T> {
    match t
    case PushLock(item) => PushTest(item)
    case PushTest(item) => if |s.items| >= s.max then PushNotify else PushStore(item)
    case PushStore(_) => PushNotify
    case PushNotify => PushUnlock
    case PopLock => PopTest
    case PopTest => if |s.items| <= 0 then Waiting else PopTake
    case PopTake => PopUnlock
    case ClearLock => ClearReset
    case ClearReset => ClearUnlock
    case _ => Idle
  }

  function Next<T>(s: Queue<T>, step: Step<T>): Queue<T>
    requires Enabled(s, step)
  {
    var t := if step.Go? then s.threads[step.i] else Idle;
    var t' := NextPc(s, step);
    s.(threads := if t.PushNotify? then Awake(s.threads)[step.i := t'] else s.threads[step.i := t'],
       lock := if Locked(t') then Some(step.i) else if Locked(t) then None else s.lock,
       items := if t.PushStore? then s.items + [t.item]
                else if t.PopTake? && s.items != [] then s.items[1..]
                else if t.ClearReset? then [] else s.items,
       stored := if t.PushStore? then s.stored + [t.item] else s.stored,
       left := if t.PopTake? && s.items != [] then s.left + [s.items[0]]
               else if t.ClearReset? then s.left + s.items else s.left)
  }

  /** A broadcast: every sleeper goes to re-acquire the mutex. */
  function Awake<T>(ts: seq<Pc<T>>): (r: seq<Pc<T>>)
    ensures |r| == |ts|
  {
    seq(|ts|, k requires 0 <= k < |ts| => if ts[k].Waiting? then PopLock else ts[k])
  }

  predicate Locked<T>(t: Pc<T>) {
    || t.PushTest? || t.PushStore? || t.PushNotify? || t.PushUnlock?
    || t.PopTest? || t.PopTake? || t.PopUnlock? || t.ClearReset? || t.ClearUnlock?
  }

  // ---- the invariant ----

  /** The holder of the mutex is the one thread inside a critical section. */
  ghost predicate LockInv<T>(s: Queue<T>) {
    && (forall i :: 0 <= i < |s.threads| ==> (s.lock == Some(i) <==> Locked(s.threads[i])))
    && (s.lock.Some? ==> s.lock.value < |s.threads|)
  }

  /** What the tests made by the holder still guarantee. */
  ghost predicate BoundInv<T>(s: Queue<T>) {
    && |s.items| <= s.max
    && (forall i :: 0 <= i < |s.threads| && s.threads[i].PushStore? ==> |s.items| < s.max)
    && (forall i :: 0 <= i < |s.threads| && s.threads[i].PopTake? ==> s.items != [])
  }

  /** Nobody sleeps on a queue that is not empty, unless the broadcast is about to come. */
  ghost predicate WakeInv<T>(s: Queue<T>) {
    (exists i :: 0 <= i < |s.threads| && s.threads[i].Waiting?) ==>
    || s.items == []
    || (s.lock.Some? && s.lock.value < |s.threads| && s.threads[s.lock.value].PushNotify?)
  }

  /** Items leave in the order in which they were stored. */
  ghost predicate FifoInv<T>(s: Queue<T>) {
    s.left + s.items == s.stored
  }

  ghost predicate Inv<T>(s: Queue<T>) {
    LockInv(s) && BoundInv(s) && WakeInv(s) && FifoInv(s)
  }

  lemma {:induction false} StartInv<T>(max: nat, threads: nat)
    ensures Inv(Start<T>(max, threads))
  {
  }

  // ---- every step keeps it ----

  /** The other threads stay where they are, or are woken. */
  lemma {:induction false} OtherThread<T>(s: Queue<T>, step: Step<T>, k: nat)
    requires Enabled(s, step) && k < |s.threads| && k != step.i
    ensures |Next(s, step).threads| == |s.threads|
    ensures Next(s, step).threads[k] ==
            if step.Go? && s.threads[step.i].PushNotify? && s.threads[k].Waiting? then PopLock else s.threads[k]
  {
    hide NextPc, Locked;
  }

  lemma {:induction false} OwnThread<T>(s: Queue<T>, step: Step<T>)
    requires Enabled(s, step)
    ensures |Next(s, step).threads| == |s.threads|
    ensures Next(s, step).threads[step.i] == NextPc(s, step)
  {
    hide NextPc, Locked;
  }

  /** Only the holder of the mutex, or a thread that finds it free, is inside. */
  lemma {:induction false} Alone<T>(s: Queue<T>, step: Step<T>)
    requires LockInv(s) && Enabled(s, step)
    requires Locked(NextPc(s, step)) || Locked(s.threads[step.i])
    ensures forall k :: 0 <= k < |s.threads| && k != step.i ==> !Locked(s.threads[k])
  {
    assert s.lock == None || s.lock == Some(step.i);
  }

  lemma {:induction false} KeepsLock<T>(s: Queue<T>, step: Step<T>)
    requires LockInv(s) && Enabled(s, step)
    ensures LockInv(Next(s, step))
  {
    var s' := Next(s, step);
    OwnThread(s, step);
    if Locked(NextPc(s, step)) || Locked(s.threads[step.i]) {
      Alone(s, step);
    }
    forall k | 0 <= k < |s'.threads| && k != step.i
      ensures s'.lock == Some(k) <==> Locked(s'.threads[k])
    {
      OtherThread(s, step, k);
    }
  }

  lemma {:induction false} KeepsBound<T>(s: Queue<T>, step: Step<T>)
    requires LockInv(s) && BoundInv(s) && Enabled(s, step)
    ensures BoundInv(Next(s, step))
  {
    var s' := Next(s, step);
    OwnThread(s, step);
    if Locked(NextPc(s, step)) || Locked(s.threads[step.i]) {
      Alone(s, step);
    }
    forall k | 0 <= k < |s'.threads| && k != step.i
      ensures s'.threads[k].PushStore? ==> |s'.items| < s'.max
      ensures s'.threads[k].PopTake? ==> s'.items != []
    {
      OtherThread(s, step, k);
    }
    hide LockInv;
  }

  lemma {:induction false} KeepsWake<T>(s: Queue<T>, step: Step<T>)
    requires LockInv(s) && WakeInv(s) && Enabled(s, step)
    ensures WakeInv(Next(s, step))
  {
    var s' := Next(s, step);
    OwnThread(s, step);
    if i :| 0 <= i < |s'.threads| && s'.threads[i].Waiting? {
      if i != step.i {
        OtherThread(s, step, i);
      }
      if Locked(NextPc(s, step)) || Locked(s.threads[step.i]) {
        Alone(s, step);
      } else if s.lock.Some? {
        assert s.lock.value != step.i;
        OtherThread(s, step, s.lock.value);
      }
    }
  }

  lemma {:induction false} KeepsFifo<T>(s: Queue<T>, step: Step<T>)
    requires FifoInv(s) && Enabled(s, step)
    ensures FifoInv(Next(s, step))
  {
    hide NextPc, Locked;
    if step.Go? && s.threads[step.i].PopTake? && s.items != [] {
      assert s.items == [s.items[0]] + s.items[1..];
    }
  }

  /** Within pop, up to taking the item. */
  predicate Popping<T>(t: Pc<T>) { t.PopLock? || t.PopTest? || t.Waiting? || t.PopTake? }

  /** No pop gets away without an item, however often it is woken: the one step that leads
      out of it takes the first item. */
  lemma {:induction false} PopTakesFirst<T>(s: Queue<T>, step: Step<T>, k: nat)
    requires Inv(s) && Enabled(s, step) && k < |s.threads| && Popping(s.threads[k])
    ensures |Next(s, step).threads| == |s.threads|
    ensures !Popping(Next(s, step).threads[k]) ==>
      && step == Go(k) && s.items != []
      && Next(s, step).items == s.items[1..] && Next(s, step).left == s.left + [s.items[0]]
  {
    OwnThread(s, step);
    if k != step.i {
      OtherThread(s, step, k);
    }
    hide LockInv, WakeInv, FifoInv;
  }

  // ---- runs ----

  predicate Possible<T>(s: Queue<T>, run: seq<Step<T>>)
    decreases |run|
  {
    run == [] || (Enabled(s, run[0]) && Possible(Next(s, run[0]), run[1..]))
  }

  function After<T>(s: Queue<T>, run: seq<Step<T>>): Queue<T>
    requires Possible(s, run)
    decreases |run|
  {
    if run == [] then s else After(Next(s, run[0]), run[1..])
  }

  lemma {:induction false} RunKeeps<T>(s: Queue<T>, run: seq<Step<T>>)
    requires Inv(s) && Possible(s, run)
    ensures Inv(After(s, run))
    decreases |run|
  {
    hide LockInv, BoundInv, WakeInv, FifoInv, Next, Enabled;
    if run != [] {
      KeepsLock(s, run[0]);
      KeepsBound(s, run[0]);
      KeepsWake(s, run[0]);
      KeepsFifo(s, run[0]);
      RunKeeps(Next(s, run[0]), run[1..]);
    }
  }

  /** In every interleaving: a thread sleeps in pop only while the queue is empty or the
      holder of the mutex is about to broadcast; a pop takes from a queue that is not
      empty, a push stores into one that is not full; and items leave in the order in
      which they were stored. */
  lemma {:induction false} NoForgottenWaiter<T>(max: nat, threads: nat, run: seq<Step<T>>)
    requires Possible(Start(max, threads), run)
    ensures var s := After(Start(max, threads), run);
      && (forall i :: 0 <= i < |s.threads| && s.threads[i].Waiting? && s.items != [] ==>
            s.lock.Some? && s.lock.value < |s.threads| && s.threads[s.lock.value].PushNotify?)
      && (forall i :: 0 <= i < |s.threads| && s.threads[i].PopTake? ==> s.items != [])
      && (forall i :: 0 <= i < |s.threads| && s.threads[i].PushStore? ==> |s.items| < max)
      && |s.items| <= max
      && s.left + s.items == s.stored
  {
    StartInv<T>(max, threads);
    RunKeeps(Start(max, threads), run);
    SameMax(Start(max, threads), run);
  }

  lemma {:induction false} SameMax<T>(s: Queue<T>, run: seq<Step<T>>)
    requires Possible(s, run)
    ensures After(s, run).max == s.max
    decreases |run|
  {
    hide NextPc, Enabled, Locked;
    if run != [] {
      SameMax(Next(s, run[0]), run[1..]);
    }
  }

  lemma {:induction false} HolderGoes<T>(s: Queue<T>)
    requires LockInv(s) && s.lock.Some?
    ensures CanGo(s, s.threads[s.lock.value])
  {
    assert Locked(s.threads[s.lock.value]);
  }

  /** When no thread can go on, every call has returned except pops that sleep, and those
      sleep on an empty queue. */
  lemma {:induction false} StuckOnlyWhenEmpty<T>(s: Queue<T>)
    requires Inv(s) && forall i :: 0 <= i < |s.threads| ==> !CanGo(s, s.threads[i])
    ensures s.lock == None
    ensures forall i :: 0 <= i < |s.threads| ==> s.threads[i].Idle? || (s.threads[i].Waiting? && s.items == [])
  {
    if s.lock.Some? {
      HolderGoes(s);
    }
  }
}
