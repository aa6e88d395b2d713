/** `connection_pool` as one thread sees it that nobody interrupts: each call is the run of
    that thread's steps in SqlPool. */
module ConnectionPool {
  import opened Wrappers
  import opened SqlPool

  function Times(i: nat, n: nat): (run: seq<nat>)
    ensures |run| == n
  {
    if n == 0 then [] else [i] + Times(i, n - 1)
  }

  /** One step in front of a run. */
  lemma {:induction false} FirstStep(s: Pool, i: nat, t: Pool, n: nat)
    requires Enabled(s, i) && Next(s, i) == t && Possible(t, Times(i, n))
    ensures Possible(s, Times(i, n + 1)) && After(s, Times(i, n + 1)) == After(t, Times(i, n))
  {
    hide Next, Enabled;
    assert Times(i, n + 1)[1..] == Times(i, n);
  }

  /** Nobody is within a call. */
  predicate Quiet(s: Pool) {
    forall k :: 0 <= k < |s.threads| ==> s.threads[k].Idle? || s.threads[k].Using?
  }

  /** Then the semaphore is the length of the list, and the mutex is free. */
  lemma {:induction false} QuietIsFree(s: Pool)
    requires Inv(s) && Quiet(s)
    ensures s.reserve == |s.connList| && s.lock == None
  {
    hide Lent;
    assert Count(s.threads, Reserved) == 0;
    assert Count(s.threads, Unposted) == 0;
    if s.lock.Some? {
      HolderIsInside(s);
    }
  }

  lemma {:induction false} HolderIsInside(s: Pool)
    requires LockInv(s) && s.lock.Some?
    ensures s.lock.value < |s.threads| && Locked(s.threads[s.lock.value])
  {
  }

  lemma {:induction false} Settled(s: Pool, i: nat, a: Pc, b: Pc)
    requires i < |s.threads|
    ensures s.threads[i := a][i := b] == s.threads[i := b]
  {
  }

  /** The state after thread `i` got the first connection of the list. */
  function Got(s: Pool, i: nat): Pool
    requires i < |s.threads| && s.connList != []
  {
    s.(threads := s.threads[i := Using(s.connList[0])], connList := s.connList[1..],
       reserve := if s.reserve > 0 then s.reserve - 1 else 0, freeConn := s.freeConn - 1, curConn := s.curConn + 1)
  }

  /** The six steps of GetConnection. */
  lemma {:induction false} GetSteps(s: Pool, i: nat)
    requires i < |s.threads| && s.threads[i].Idle? && s.connList != [] && s.reserve > 0 && s.lock == None
    ensures Possible(s, Times(i, 6)) && After(s, Times(i, 6)) == Got(s, i)
  {
    var con, rest := s.connList[0], s.connList[1..];
    var s1 := s.(threads := s.threads[i := Checked]);
    var s2 := s.(threads := s.threads[i := Acquire], reserve := s.reserve - 1);
    var s3 := s2.(threads := s.threads[i := Pop], lock := Some(i));
    var s4 := s3.(threads := s.threads[i := Taken(con)], connList := rest);
    var s5 := s4.(threads := s.threads[i := Release(con)], freeConn := s.freeConn - 1, curConn := s.curConn + 1);
    var s6 := Got(s, i);
    assert Possible(s6, Times(i, 0)) && After(s6, Times(i, 0)) == s6;
    hide Possible, After, Times;
    FirstStep(s5, i, s6, 0);
    FirstStep(s4, i, s5, 1);
    FirstStep(s3, i, s4, 2);
    FirstStep(s2, i, s3, 3);
    FirstStep(s1, i, s2, 4);
    FirstStep(s, i, s1, 5);
  }

  /** The state after thread `i` gave its connection back. */
  function Returned(s: Pool, i: nat): Pool
    requires i < |s.threads| && s.threads[i].Using?
  {
    s.(threads := s.threads[i := Idle], connList := s.connList + [s.threads[i].con],
       reserve := s.reserve + 1, freeConn := s.freeConn + 1, curConn := s.curConn - 1)
  }

  /** The six steps of ReleaseConnection. */
  lemma {:induction false} ReturnSteps(s: Pool, i: nat)
    requires i < |s.threads| && s.threads[i].Using? && s.lock == None
    ensures Possible(s, Times(i, 6)) && After(s, Times(i, 6)) == Returned(s, i)
  {
    var con := s.threads[i].con;
    var s1 := s.(threads := s.threads[i := Return(con)]);
    var s2 := s.(threads := s.threads[i := Push(con)], lock := Some(i));
    var s3 := s2.(threads := s.threads[i := Given], connList := s.connList + [con]);
    var s4 := s3.(threads := s.threads[i := Leave], freeConn := s.freeConn + 1, curConn := s.curConn - 1);
    var s5 := s4.(threads := s.threads[i := Post], lock := None);
    var s6 := Returned(s, i);
    assert Possible(s6, Times(i, 0)) && After(s6, Times(i, 0)) == s6;
    hide Possible, After, Times;
    FirstStep(s5, i, s6, 0);
    FirstStep(s4, i, s5, 1);
    FirstStep(s3, i, s4, 2);
    FirstStep(s2, i, s3, 3);
    FirstStep(s1, i, s2, 4);
    FirstStep(s, i, s1, 5);
  }

  /** The two steps of a GetConnection that finds no connection. */
  lemma {:induction false} NullSteps(s: Pool, i: nat)
    requires i < |s.threads| && s.threads[i].Idle? && s.connList == []
    ensures Possible(s, Times(i, 2)) && After(s, Times(i, 2)) == s
  {
    var s1 := s.(threads := s.threads[i := GotNull]);
    assert Next(s1, i) == s;
    assert Possible(s, Times(i, 0)) && After(s, Times(i, 0)) == s;
    hide Possible, After, Times;
    FirstStep(s1, i, s, 0);
    FirstStep(s, i, s1, 1);
  }

  /** A call of GetConnection that nobody disturbs. */
  lemma {:induction false} GetCall(s: Pool, i: nat)
    requires Inv(s) && Quiet(s) && i < |s.threads| && s.threads[i].Idle? && s.connList != []
    ensures s.reserve > 0 && Possible(s, Times(i, 6)) && After(s, Times(i, 6)) == Got(s, i)
    ensures Inv(Got(s, i)) && Quiet(Got(s, i))
  {
    QuietIsFree(s);
    hide Inv, After, Possible, Times;
    GetSteps(s, i);
    RunKeeps(s, Times(i, 6));
  }

  lemma {:induction false} ReturnCall(s: Pool, i: nat)
    requires Inv(s) && Quiet(s) && i < |s.threads| && s.threads[i].Using?
    ensures Possible(s, Times(i, 6)) && After(s, Times(i, 6)) == Returned(s, i)
    ensures Inv(Returned(s, i)) && Quiet(Returned(s, i))
  {
    QuietIsFree(s);
    hide Inv, After, Possible, Times;
    ReturnSteps(s, i);
    RunKeeps(s, Times(i, 6));
  }

  class ConnectionPool {
    var maxConn: nat
    var freeConn: int
    var curConn: int
    var connList: seq<nat>
    var reserve: nat
    ghost var threads: seq<Pc>

    ghost function State(): Pool
      reads this
    {
      Pool(maxConn, freeConn, curConn, connList, reserve, None, threads)
    }

    ghost predicate Valid()
      reads this
    {
      Inv(State()) && Quiet(State())
    }

    /** init, with connections numbered as they are made. */
    constructor (connections: nat, ghost threadCount: nat)
      ensures Valid() && State() == Start(connections, threadCount)
    {
      var list: seq<nat> := [];
      var free := 0;
      for i := 0 to connections
        invariant free == i && list == seq(i, k requires 0 <= k < i => k)
      {
        list := list + [i];
        free := free + 1;
      }
      connList, freeConn, curConn := list, free, 0;
      reserve, maxConn := free, free;
      threads := seq(threadCount, _ => Idle);
      new;
      StartInv(connections, threadCount);
    }

    /** GetConnection by thread `i`. */
    method GetConnection(ghost i: nat) returns (con: Option<nat>)
      requires Valid() && i < |threads| && threads[i].Idle?
      modifies this
      ensures Valid()
      ensures con == (if old(connList) == [] then None else Some(old(connList)[0]))
      ensures if con == None then
                Possible(old(State()), Times(i, 2)) && After(old(State()), Times(i, 2)) == State() == old(State())
              else Possible(old(State()), Times(i, 6)) && State() == After(old(State()), Times(i, 6))
                   && threads == old(threads)[i := Using(con.value)]
                   && old(connList) == [con.value] + connList && reserve == old(reserve) - 1
                   && freeConn == old(freeConn) - 1 && curConn == old(curConn) + 1
    {
      hide Inv, Quiet, After, Possible, Times;
      if connList == [] {
        NullSteps(State(), i);
        return None;
      }
      ghost var end := Got(State(), i);
      GetCall(State(), i);
      hide Got;
      reserve := reserve - 1;
      con := Some(connList[0]);
      connList := connList[1..];
      freeConn := freeConn - 1;
      curConn := curConn + 1;
      threads := end.threads;
      assert State() == end;
    }

    /** ReleaseConnection by thread `i`. */
    method ReleaseConnection(con: Option<nat>, ghost i: nat) returns (ok: bool)
      requires Valid() && i < |threads| && (con.Some? ==> threads[i] == Using(con.value))
      modifies this
      ensures Valid() && ok == con.Some?
      ensures if !ok then State() == old(State())
              else Possible(old(State()), Times(i, 6)) && State() == After(old(State()), Times(i, 6))
                   && threads == old(threads)[i := Idle]
                   && connList == old(connList) + [con.value] && reserve == old(reserve) + 1
                   && freeConn == old(freeConn) + 1 && curConn == old(curConn) - 1
    {
      if con == None {
        return false;
      }
      hide Inv, Quiet, After, Possible, Times;
      ghost var end := Returned(State(), i);
      ReturnCall(State(), i);
      hide Returned;
      connList := connList + [con.value];
      freeConn := freeConn + 1;
      curConn := curConn - 1;
      reserve := reserve + 1;
      threads := end.threads;
      assert State() == end;
      return true;
    }
  }
}
