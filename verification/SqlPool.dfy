/** `connection_pool`: GetConnection and ReleaseConnection as steps of any number of threads
    that interleave in any order. */
module SqlPool {
  import opened Wrappers

  /** Where a thread is.  GetConnection is Idle, Checked, Acquire, Pop, Taken, Release;
      ReleaseConnection is Using, Return, Push, Given, Leave, Post. */
  datatype Pc =
    | Idle | Checked | Acquire | Pop | Taken(con: nat) | Release(con: nat)
    | Using(con: nat) | Return(con: nat) | Push(con: nat) | Given | Leave | Post
    | GotNull

  datatype Pool = Pool(
    maxConn: nat, freeConn: int, curConn: int,
    connList: seq<nat>, reserve: nat, lock: Option<nat>, threads: seq<Pc>)

  /** After init: MaxConn connections, and the semaphore set to their number. */
  function Start(maxConn: nat, threads: nat): Pool {
    Pool(maxConn, maxConn, 0, seq(maxConn, i requires 0 <= i < maxConn => i), maxConn, None, seq(threads, _ => Idle))
  }

  /** Thread `i` can go on: it is not blocked in wait or lock. */
  predicate Enabled(s: Pool, i: nat) {
    i < |s.threads| &&
    match s.threads[i]
    case Checked => s.reserve > 0
    case Acquire => s.lock == None
    case Return(_) => s.lock == None
    case _ => true
  }

  function NextPc(s: Pool, t: Pc): Pc {
    match t
    case Idle => if s.connList == [] then GotNull else Checked
    case Checked => Acquire
    case Acquire => Pop
    case Pop => if s.connList == [] then GotNull else Taken(s.connList[0])
    case Taken(con) => Release(con)
    case Release(con) => Using(con)
    case Using(con) => Return(con)
    case Return(con) => Push(con)
    case Push(_) => Given
    case Given => Leave
    case Leave => Post
    case Post => Idle
    case GotNull => Idle
  }

  function Next(s: Pool, i: nat): Pool
    requires Enabled(s, i)
  {
    var t := s.threads[i];
    s.(threads := s.threads[i := NextPc(s, t)],
       reserve := if t.Checked? then s.reserve - 1 else if t.Post? then s.reserve + 1 else s.reserve,
       lock := if t.Acquire? || t.Return? then Some(i) else if t.Release? || t.Leave? then None else s.lock,
       connList := if t.Pop? && s.connList != [] then s.connList[1..]
                   else if t.Push? then s.connList + [t.con] else s.connList,
       freeConn := if t.Taken? then s.freeConn - 1 else if t.Given? then s.freeConn + 1 else s.freeConn,
       curConn := if t.Taken? then s.curConn + 1 else if t.Given? then s.curConn - 1 else s.curConn)
  }

  // ---- what the threads hold ----

  /** The connection a thread holds. */
  function Held(t: Pc): multiset<nat> {
    if t.Taken? || t.Release? || t.Using? || t.Return? || t.Push? then multiset{t.con} else multiset{}
  }

  function Lent(ts: seq<Pc>): multiset<nat> {
    if ts == [] then multiset{} else Held(ts[0]) + Lent(ts[1..])
  }

  lemma {:induction false} LentUpdate(ts: seq<Pc>, i: nat, t: Pc)
    requires i < |ts|
    ensures Lent(ts[i := t]) + Held(ts[i]) == Lent(ts) + Held(t)
  {
    hide Held;
    if i == 0 {
      assert ts[i := t][1..] == ts[1..];
      assert Lent(ts[i := t]) == Held(t) + Lent(ts[1..]);
    } else {
      assert ts[i := t][1..] == ts[1..][i - 1 := t];
      LentUpdate(ts[1..], i - 1, t);
      UpdateRest(Held(ts[0]), Lent(ts[1..][i - 1 := t]), Held(ts[i]), Lent(ts[1..]), Held(t));
    }
  }

  lemma {:induction false} UpdateRest(
    first: multiset<nat>, new_: multiset<nat>, was: multiset<nat>, rest: multiset<nat>, becomes: multiset<nat>)
    requires new_ + was == rest + becomes
    ensures (first + new_) + was == (first + rest) + becomes
  {
    assert (first + new_) + was == first + (new_ + was);
  }

  lemma {:induction false} LentHolds(ts: seq<Pc>, i: nat, con: nat)
    requires i < |ts|
    ensures Held(ts[i])[con] <= Lent(ts)[con]
  {
    hide Held;
    assert Lent(ts)[con] == Held(ts[0])[con] + Lent(ts[1..])[con];
    if i > 0 {
      LentHolds(ts[1..], i - 1, con);
    }
  }

  /** Two threads hold two units of what is lent. */
  lemma {:induction false} LentTwice(ts: seq<Pc>, i: nat, j: nat, con: nat)
    requires i < j < |ts|
    ensures Held(ts[i])[con] + Held(ts[j])[con] <= Lent(ts)[con]
  {
    hide Held;
    assert Lent(ts)[con] == Held(ts[0])[con] + Lent(ts[1..])[con];
    if i == 0 {
      LentHolds(ts[1..], j - 1, con);
    } else {
      LentTwice(ts[1..], i - 1, j - 1, con);
    }
  }

  predicate Reserved(t: Pc) { t.Acquire? || t.Pop? }
  predicate Unposted(t: Pc) { t.Given? || t.Leave? || t.Post? }
  predicate Uncounted(t: Pc) { t.Taken? }
  predicate Overcounted(t: Pc) { t.Given? }
  predicate Locked(t: Pc) { t.Pop? || t.Taken? || t.Release? || t.Push? || t.Given? || t.Leave? }

  // ---- the invariant ----

  predicate LockInv(s: Pool) {
    && (forall i :: 0 <= i < |s.threads| ==> (s.lock == Some(i) <==> Locked(s.threads[i])))
    && (s.lock.Some? ==> s.lock.value < |s.threads|)
  }

  /** The list is as long as the semaphore, the threads past wait and not past pop_front,
      and the threads past push_back and not past post. */
  predicate SemInv(s: Pool) {
    |s.connList| == s.reserve + Count(s.threads, Reserved) + Count(s.threads, Unposted)
  }

  /** No connection is lost or made up. */
  predicate Conserved(s: Pool) {
    multiset(s.connList) + Lent(s.threads) == multiset(Start(s.maxConn, 0).connList)
  }

  /** The two counters, corrected by what the holder of the lock has yet to count. */
  predicate CountInv(s: Pool) {
    && s.freeConn + s.curConn == s.maxConn
    && s.freeConn == |s.connList| + Count(s.threads, Uncounted) - Count(s.threads, Overcounted)
  }

  predicate Inv(s: Pool) {
    LockInv(s) && SemInv(s) && Conserved(s) && CountInv(s)
  }

  lemma {:induction false} LentNone(ts: seq<Pc>)
    requires forall i :: 0 <= i < |ts| ==> Held(ts[i]) == multiset{}
    ensures Lent(ts) == multiset{}
  {
    if ts != [] {
      LentNone(ts[1..]);
    }
  }

  lemma {:induction false} StartInv(maxConn: nat, threads: nat)
    ensures Inv(Start(maxConn, threads))
  {
    LentNone(Start(maxConn, threads).threads);
  }

  // ---- every step keeps it ----

  /** pop_front never meets an empty list. */
  lemma {:induction false} PopFindsConnection(s: Pool, i: nat)
    requires SemInv(s) && i < |s.threads| && s.threads[i].Pop?
    ensures s.connList != []
  {
  }

  lemma {:induction false} KeepsLock(s: Pool, i: nat)
    requires SemInv(s) && LockInv(s) && Enabled(s, i)
    ensures LockInv(Next(s, i))
  {
    if s.threads[i].Pop? {
      PopFindsConnection(s, i);
    }
    hide Count;
  }

  /** Which of the classes counted above a thread enters with a step. */
  lemma {:induction false} Classes(s: Pool, t: Pc)
    requires t.Pop? ==> s.connList != []
    ensures Reserved(NextPc(s, t)) == (t.Checked? || t.Acquire?)
    ensures Unposted(NextPc(s, t)) == (t.Push? || t.Given? || t.Leave?)
    ensures Uncounted(NextPc(s, t)) == t.Pop?
    ensures Overcounted(NextPc(s, t)) == t.Push?
  {
  }

  lemma {:induction false} KeepsSem(s: Pool, i: nat)
    requires SemInv(s) && Enabled(s, i)
    ensures SemInv(Next(s, i))
  {
    var t := NextPc(s, s.threads[i]);
    if s.threads[i].Pop? {
      PopFindsConnection(s, i);
    }
    Classes(s, s.threads[i]);
    CountUpdate(s.threads, Reserved, i, t);
    CountUpdate(s.threads, Unposted, i, t);
    hide Count, NextPc;
  }

  lemma {:induction false} StepHolds(s: Pool, t: Pc)
    requires t.Pop? ==> s.connList != []
    ensures Held(NextPc(s, t)) ==
            if t.Pop? then multiset{s.connList[0]} else if t.Push? then multiset{} else Held(t)
  {
  }

  /** What one step moves between the list and the hands of the thread. */
  lemma {:induction false} StepMoves(s: Pool, i: nat)
    requires SemInv(s) && Enabled(s, i)
    ensures
      multiset(Next(s, i).connList) + Held(NextPc(s, s.threads[i])) == multiset(s.connList) + Held(s.threads[i])
  {
    var t := s.threads[i];
    if t.Pop? {
      PopFindsConnection(s, i);
    }
    StepHolds(s, t);
    hide SemInv, NextPc;
    if t.Pop? {
      assert s.connList == [s.connList[0]] + s.connList[1..];
      assert Next(s, i).connList == s.connList[1..];
    } else if t.Push? {
      assert Next(s, i).connList == s.connList + [t.con];
    } else {
      assert Next(s, i).connList == s.connList;
    }
  }

  lemma {:induction false} Rebalance(
    list: multiset<nat>, lent: multiset<nat>, was: multiset<nat>,
    list': multiset<nat>, lent': multiset<nat>, becomes: multiset<nat>)
    requires lent' + was == lent + becomes
    requires list' + becomes == list + was
    ensures list' + lent' == list + lent
  {
    forall con: nat ensures (list' + lent')[con] == (list + lent)[con] {
      assert (lent' + was)[con] == (lent + becomes)[con];
      assert (list' + becomes)[con] == (list + was)[con];
    }
  }

  lemma {:induction false} KeepsConnections(s: Pool, i: nat)
    requires SemInv(s) && Conserved(s) && Enabled(s, i)
    ensures Conserved(Next(s, i))
  {
    var t := NextPc(s, s.threads[i]);
    StepMoves(s, i);
    LentUpdate(s.threads, i, t);
    hide SemInv, Lent, Held, NextPc, Start;
    Rebalance(multiset(s.connList), Lent(s.threads), Held(s.threads[i]),
              multiset(Next(s, i).connList), Lent(s.threads[i := t]), Held(t));
  }

  lemma {:induction false} KeepsCounts(s: Pool, i: nat)
    requires SemInv(s) && CountInv(s) && Enabled(s, i)
    ensures CountInv(Next(s, i))
  {
    var t := NextPc(s, s.threads[i]);
    if s.threads[i].Pop? {
      PopFindsConnection(s, i);
    }
    Classes(s, s.threads[i]);
    CountUpdate(s.threads, Uncounted, i, t);
    CountUpdate(s.threads, Overcounted, i, t);
    hide Count, NextPc, SemInv;
  }

  // ---- runs ----

  /** A run is the sequence of the threads that take a step. */
  predicate Possible(s: Pool, run: seq<nat>)
    decreases |run|
  {
    run == [] || (Enabled(s, run[0]) && Possible(Next(s, run[0]), run[1..]))
  }

  function After(s: Pool, run: seq<nat>): Pool
    requires Possible(s, run)
    decreases |run|
  {
    if run == [] then s else After(Next(s, run[0]), run[1..])
  }

  lemma {:induction false} RunKeeps(s: Pool, run: seq<nat>)
    requires Inv(s) && Possible(s, run)
    ensures Inv(After(s, run)) && After(s, run).maxConn == s.maxConn && |After(s, run).threads| == |s.threads|
    decreases |run|
  {
    hide LockInv, SemInv, Conserved, CountInv;
    if run != [] {
      KeepsLock(s, run[0]);
      KeepsSem(s, run[0]);
      KeepsConnections(s, run[0]);
      KeepsCounts(s, run[0]);
      RunKeeps(Next(s, run[0]), run[1..]);
    }
  }

  /** Each connection exists once. */
  lemma {:induction false} Single(maxConn: nat, con: nat)
    ensures multiset(Start(maxConn, 0).connList)[con] <= 1
    ensures |Start(maxConn, 0).connList| == maxConn
  {
    if maxConn > 0 {
      Single(maxConn - 1, con);
      assert Start(maxConn, 0).connList == Start(maxConn - 1, 0).connList + [maxConn - 1];
      if con == maxConn - 1 {
        assert con !in Start(maxConn - 1, 0).connList;
      }
    }
  }

  lemma {:induction false} SafeState(s: Pool)
    requires Inv(s)
    ensures forall i :: 0 <= i < |s.threads| && s.threads[i].Pop? ==> s.connList != []
    ensures forall i, j :: 0 <= i < j < |s.threads| ==> Held(s.threads[i]) !! Held(s.threads[j])
    ensures forall i :: 0 <= i < |s.threads| ==> Held(s.threads[i]) !! multiset(s.connList)
    ensures s.lock == None ==> s.freeConn == |s.connList| && s.curConn == |Lent(s.threads)|
  {
    hide Lent;
    var all := multiset(Start(s.maxConn, 0).connList);
    forall i | 0 <= i < |s.threads| && s.threads[i].Pop? ensures s.connList != [] {
      PopFindsConnection(s, i);
    }
    forall i, j | 0 <= i < j < |s.threads| ensures Held(s.threads[i]) !! Held(s.threads[j]) {
      forall con ensures Held(s.threads[i])[con] == 0 || Held(s.threads[j])[con] == 0 {
        LentTwice(s.threads, i, j, con);
        Single(s.maxConn, con);
        assert all[con] == multiset(s.connList)[con] + Lent(s.threads)[con];
      }
    }
    forall i | 0 <= i < |s.threads| ensures Held(s.threads[i]) !! multiset(s.connList) {
      forall con ensures Held(s.threads[i])[con] == 0 || multiset(s.connList)[con] == 0 {
        LentHolds(s.threads, i, con);
        Single(s.maxConn, con);
        assert all[con] == multiset(s.connList)[con] + Lent(s.threads)[con];
      }
    }
    Single(s.maxConn, 0);
    assert |all| == |s.connList| + |Lent(s.threads)|;
    if s.lock == None {
      forall i | 0 <= i < |s.threads| ensures !Locked(s.threads[i]) {
        assert s.lock != Some(i);
      }
    }
  }

  /** In every interleaving of any number of threads: front() is never taken on an empty
      list, no connection is held by two threads or held and free at once, the counters
      add up to the number of connections, and m_FreeConn is the length of the list
      whenever the lock is free. */
  lemma {:induction false} PoolIsSafe(maxConn: nat, threads: nat, run: seq<nat>)
    requires Possible(Start(maxConn, threads), run)
    ensures var s := After(Start(maxConn, threads), run);
      && (forall i :: 0 <= i < |s.threads| && s.threads[i].Pop? ==> s.connList != [])
      && (forall i, j :: 0 <= i < j < |s.threads| ==> Held(s.threads[i]) !! Held(s.threads[j]))
      && (forall i :: 0 <= i < |s.threads| ==> Held(s.threads[i]) !! multiset(s.connList))
      && SemInv(s)
      && s.freeConn + s.curConn == maxConn
      && (s.lock == None ==> s.freeConn == |s.connList| && s.curConn == |Lent(s.threads)|)
  {
    StartInv(maxConn, threads);
    RunKeeps(Start(maxConn, threads), run);
    SafeState(After(Start(maxConn, threads), run));
  }

  /** No deadlock: while there is a thread and a connection at all, some thread can go on. */
  lemma {:induction false} NeverStuck(s: Pool)
    requires Inv(s) && s.maxConn > 0 && s.threads != []
    ensures exists i :: Enabled(s, i)
  {
    hide Count, Lent, CountInv;
    if s.lock.Some? {
      assert Locked(s.threads[s.lock.value]);
      assert Enabled(s, s.lock.value);
    } else if i :| 0 <= i < |s.threads| && !s.threads[i].Checked? {
      assert Enabled(s, i);
    } else {
      AllWaiting(s);
      assert Enabled(s, 0);
    }
  }

  /** When every thread is about to wait, all the connections are on the list. */
  lemma {:induction false} AllWaiting(s: Pool)
    requires Inv(s) && forall i :: 0 <= i < |s.threads| ==> s.threads[i].Checked?
    ensures s.reserve == s.maxConn
  {
    LentNone(s.threads);
    Single(s.maxConn, 0);
    assert |multiset(s.connList)| == s.maxConn by {
      assert multiset(s.connList) + multiset{} == multiset(s.connList);
    }
    assert Count(s.threads, Reserved) == 0;
    assert Count(s.threads, Unposted) == 0;
  }
}
