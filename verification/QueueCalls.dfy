/** A call of push, pop or clear that nobody disturbs, as the run of its thread's steps in
    QueueWaiters. */
module QueueCalls {
  import opened Wrappers
  import opened QueueWaiters

  function Gos<T>(i: nat, n: nat): (run: seq<Step<T>>)
    ensures |run| == n
  {
    if n == 0 then [] else [Go(i)] + Gos(i, n - 1)
  }

  predicate Leads<T(==)>(s: Queue<T>, step: Step<T>, t: Queue<T>) {
    Enabled(s, step) && Next(s, step) == t
  }

  lemma {:induction false} FirstStep<T>(s: Queue<T>, step: Step<T>, t: Queue<T>, rest: seq<Step<T>>)
    requires Leads(s, step, t) && Possible(t, rest)
    ensures Possible(s, [step] + rest) && After(s, [step] + rest) == After(t, rest)
  {
    hide Next, Enabled;
    assert ([step] + rest)[1..] == rest;
  }

  lemma {:induction false} NoStep<T>(s: Queue<T>, i: nat)
    ensures Possible(s, Gos(i, 0)) && After(s, Gos(i, 0)) == s
  {
  }

  /** Thread `i` at `t`, everything else as in `s`. */
  function At<T>(s: Queue<T>, i: nat, t: Pc<T>): Queue<T>
    requires i < |s.threads|
  {
    s.(threads := s.threads[i := t], lock := if Locked(t) then Some(i) else None)
  }

  predicate Free<T(==)>(s: Queue<T>, i: nat) {
    i < |s.threads| && s.threads[i].Idle? && s.lock == None
  }

  /** An undisturbed thread goes from one place to the next. */
  lemma {:induction false} Moves<T>(s: Queue<T>, i: nat, t: Pc<T>)
    requires Free(s, i) && CanGo(At(s, i, t), t)
    requires !t.PushStore? && !t.PushNotify? && !t.PopTake? && !t.ClearReset?
    ensures Leads(At(s, i, t), Go(i), At(s, i, Onward(s, t)))
  {
    assert s.threads[i := t][i := Onward(s, t)] == s.threads[i := Onward(s, t)];
  }

  lemma {:induction false} CallsPush<T>(s: Queue<T>, i: nat, item: T)
    requires Free(s, i)
    ensures Leads(s, CallPush(i, item), At(s, i, PushLock(item)))
  {
  }

  lemma {:induction false} CallsOther<T>(s: Queue<T>, i: nat)
    requires Free(s, i)
    ensures Leads(s, CallPop(i), At(s, i, PopLock)) && Leads(s, CallClear(i), At(s, i, ClearLock))
  {
  }

  /** The thread is back, and every sleeper is awake. */
  lemma {:induction false} Notifies<T>(s: Queue<T>, i: nat)
    requires Free(s, i)
    ensures Leads(At(s, i, PushNotify), Go(i), At(s.(threads := Awake(s.threads)), i, PushUnlock))
    ensures Free(s.(threads := Awake(s.threads)), i)
  {
    assert Awake(s.threads[i := PushNotify])[i := PushUnlock] == Awake(s.threads)[i := PushUnlock];
  }

  lemma {:induction false} Stores<T>(s: Queue<T>, i: nat, item: T)
    requires Free(s, i)
    ensures Leads(At(s, i, PushStore(item)), Go(i),
                  At(s.(items := s.items + [item], stored := s.stored + [item]), i, PushNotify))
  {
  }

  lemma {:induction false} Takes<T>(s: Queue<T>, i: nat)
    requires Free(s, i)
    ensures s.items != [] ==>
      Leads(At(s, i, PopTake), Go(i), At(s.(items := s.items[1..], left := s.left + [s.items[0]]), i, PopUnlock))
    ensures Leads(At(s, i, ClearReset), Go(i), At(s.(items := [], left := s.left + s.items), i, ClearUnlock))
  {
  }

  lemma {:induction false} AtRest<T>(s: Queue<T>, i: nat)
    requires Free(s, i)
    ensures At(s, i, Idle) == s
  {
    assert s.threads[i := Idle] == s.threads;
  }

  /** From the broadcast on. */
  lemma {:induction false} Returns<T>(s: Queue<T>, i: nat)
    requires Free(s, i)
    ensures Possible(At(s, i, PushNotify), Gos(i, 2))
    ensures After(At(s, i, PushNotify), Gos(i, 2)) == s.(threads := Awake(s.threads))
  {
    var end := s.(threads := Awake(s.threads));
    Notifies(s, i);
    Moves(end, i, PushUnlock);
    AtRest(end, i);
    NoStep(end, i);
    hide Leads, Possible, After, At, Free, Awake;
    FirstStep(At(end, i, PushUnlock), Go(i), end, Gos(i, 0));
    FirstStep(At(s, i, PushNotify), Go(i), At(end, i, PushUnlock), Gos(i, 1));
  }

  /** A push stores its item behind the others if and only if there is room, and wakes every
      sleeper in either case. */
  lemma {:induction false} PushAlone<T>(s: Queue<T>, i: nat, item: T)
    requires Free(s, i)
    ensures var run := [CallPush(i, item)] + Gos(i, if |s.items| < s.max then 5 else 4);
      && Possible(s, run)
      && After(s, run) == s.(threads := Awake(s.threads),
                             items := if |s.items| < s.max then s.items + [item] else s.items,
                             stored := if |s.items| < s.max then s.stored + [item] else s.stored)
  {
    var fits := |s.items| < s.max;
    var t := if fits then s.(items := s.items + [item], stored := s.stored + [item]) else s;
    CallsPush(s, i, item);
    Moves(s, i, PushLock(item));
    Moves(s, i, PushTest(item));
    Stores(s, i, item);
    Returns(t, i);
    hide Leads, Possible, After, At, Awake;
    if fits {
      FirstStep(At(s, i, PushStore(item)), Go(i), At(t, i, PushNotify), Gos(i, 2));
      FirstStep(At(s, i, PushTest(item)), Go(i), At(s, i, PushStore(item)), Gos(i, 3));
      FirstStep(At(s, i, PushLock(item)), Go(i), At(s, i, PushTest(item)), Gos(i, 4));
      FirstStep(s, CallPush(i, item), At(s, i, PushLock(item)), Gos(i, 5));
    } else {
      FirstStep(At(s, i, PushTest(item)), Go(i), At(s, i, PushNotify), Gos(i, 2));
      FirstStep(At(s, i, PushLock(item)), Go(i), At(s, i, PushTest(item)), Gos(i, 3));
      FirstStep(s, CallPush(i, item), At(s, i, PushLock(item)), Gos(i, 4));
    }
  }

  /** A pop takes the first item, or goes to sleep and frees the mutex when there is none. */
  lemma {:induction false} PopAlone<T>(s: Queue<T>, i: nat)
    requires Free(s, i)
    ensures var run := [CallPop(i)] + Gos(i, if s.items != [] then 4 else 2);
      && Possible(s, run)
      && After(s, run) == if s.items != [] then s.(items := s.items[1..], left := s.left + [s.items[0]])
                          else s.(threads := s.threads[i := Waiting])
  {
    CallsOther(s, i);
    Moves(s, i, PopLock);
    Moves(s, i, PopTest);
    Takes(s, i);
    var t := if s.items != [] then s.(items := s.items[1..], left := s.left + [s.items[0]]) else s;
    var end := if s.items != [] then t else At(s, i, Waiting);
    Moves(t, i, PopUnlock);
    AtRest(t, i);
    NoStep(end, i);
    assert At(s, i, Waiting) == s.(threads := s.threads[i := Waiting]);
    hide Leads, Possible, After, At;
    if s.items != [] {
      FirstStep(At(t, i, PopUnlock), Go(i), t, Gos(i, 0));
      FirstStep(At(s, i, PopTake), Go(i), At(t, i, PopUnlock), Gos(i, 1));
      FirstStep(At(s, i, PopTest), Go(i), At(s, i, PopTake), Gos(i, 2));
      FirstStep(At(s, i, PopLock), Go(i), At(s, i, PopTest), Gos(i, 3));
      FirstStep(s, CallPop(i), At(s, i, PopLock), Gos(i, 4));
    } else {
      FirstStep(At(s, i, PopTest), Go(i), end, Gos(i, 0));
      FirstStep(At(s, i, PopLock), Go(i), At(s, i, PopTest), Gos(i, 1));
      FirstStep(s, CallPop(i), At(s, i, PopLock), Gos(i, 2));
    }
  }

  /** A clear empties the queue. */
  lemma {:induction false} ClearAlone<T>(s: Queue<T>, i: nat)
    requires Free(s, i)
    ensures Possible(s, [CallClear(i)] + Gos(i, 3))
    ensures After(s, [CallClear(i)] + Gos(i, 3)) == s.(items := [], left := s.left + s.items)
  {
    var t := s.(items := [], left := s.left + s.items);
    CallsOther(s, i);
    Moves(s, i, ClearLock);
    Takes(s, i);
    Moves(t, i, ClearUnlock);
    AtRest(t, i);
    NoStep(t, i);
    hide Leads, Possible, After, At;
    FirstStep(At(t, i, ClearUnlock), Go(i), t, Gos(i, 0));
    FirstStep(At(s, i, ClearReset), Go(i), At(t, i, ClearUnlock), Gos(i, 1));
    FirstStep(At(s, i, ClearLock), Go(i), At(s, i, ClearReset), Gos(i, 2));
    FirstStep(s, CallClear(i), At(s, i, ClearLock), Gos(i, 3));
  }
}
