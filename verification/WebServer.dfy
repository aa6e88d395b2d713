/** The event handlers of main() on the real timer list: each is one step of EventLoop. */
module WebServer {
  import opened TimerSpec
  import opened TimerList
  import opened EventLoop

  class WebServer {
    const timerLst: SortTimerList
    /** The descriptors whose m_sockfd is not -1. */
    var openConns: set<nat>
    var userCount: int
    /** users[fd].m_timer */
    var timerOf: map<nat, Timer>

    ghost var active: map<nat, int>
    ghost var recent: seq<nat>
    ghost var lastTick: int
    ghost var clock: int

    ghost function Abs(): Server<Timer>
      reads this, timerLst, timerLst.nodes
    {
      Server(openConns, userCount, timerOf, Entries(timerLst.nodes), active, recent, lastTick, clock)
    }

    ghost predicate Valid()
      reads this, timerLst, timerLst.nodes
    {
      timerLst.Valid() && Inv(Abs())
    }

    constructor (now: int)
      ensures Valid() && fresh(timerLst) && Abs() == Start(now)
    {
      timerLst := new SortTimerList();
      openConns, userCount, timerOf := {}, 0, map[];
      active, recent, lastTick, clock := map[], [], now, now;
    }

    /** close_conn */
    method CloseConn(fd: nat)
      modifies this`openConns, this`userCount, this`recent
      ensures Abs() == Close(old(Abs()), fd)
    {
      if fd in openConns {
        openConns := openConns - {fd};
        userCount := userCount - 1;
        recent := Drop(recent, fd);
      }
    }

    /** The timers in the list were there before, or are new. */
    twostate predicate Grown()
      reads this, timerLst
    {
      forall t :: t in timerLst.nodes ==> t in old(timerLst.nodes) || fresh(t)
    }

    /** A new connection. */
    method OnAccept(fd: nat, now: int) returns (ghost e: Event<Timer>)
      requires Valid() && fd !in openConns && clock <= now
      modifies this, timerLst, timerLst.nodes
      ensures Valid() && Grown()
      ensures e.Accept? && e.fd == fd && Enabled(old(Abs()), e, now) && Abs() == Step(old(Abs()), e, now)
    {
      hide Entries, Inv, Touch, Insert, Chain, NoneTwice, SortedBut;
      clock := now;
      var timer := new Timer(fd, now + 3 * TIMESLOT);
      e := Accept(fd, timer);
      NewTimer(timer);
      StepKeeps(old(Abs()), e, now);
      if userCount >= MAX_FD {
        return;
      }
      timerOf := timerOf[fd := timer];
      timerLst.AddTimer(timer);
      InitConn(fd, now);
    }

    /** users[fd].init */
    method InitConn(fd: nat, now: int)
      modifies this`openConns, this`userCount, this`active, this`recent
      ensures Abs() == Noted(old(Abs()).(open := old(openConns) + {fd}, count := old(userCount) + 1), fd, now)
    {
      openConns := openConns + {fd};
      userCount := userCount + 1;
      Note(fd, now);
    }

    /** History only. */
    ghost method Note(fd: nat, now: int)
      modifies this`active, this`recent
      ensures Abs() == Noted(old(Abs()), fd, now)
    {
      active := active[fd := now];
      recent := Touch(recent, fd);
    }

    lemma {:induction false} NewTimer(timer: Timer)
      requires timer !in timerLst.nodes
      ensures forall i :: 0 <= i < |timerLst.nodes| ==> Entries(timerLst.nodes)[i].id != timer
    {
    }

    /** Readable or writable: `fails` says that the worker reported an error. */
    method OnIo(fd: nat, fails: bool, now: int)
      requires Valid() && fd in openConns && clock <= now
      modifies this, timerLst, timerLst.nodes
      ensures Valid() && Grown()
      ensures Enabled(old(Abs()), Io(fd, fails), now) && Abs() == Step(old(Abs()), Io(fd, fails), now)
    {
      hide Entries, Inv, Touch, Insert, Remove, Drop, Chain, NoneTwice, SortedBut;
      OwnTimer(fd);
      StepKeeps(old(Abs()), Io(fd, fails), now);
      clock := now;
      var timer := timerOf[fd];
      Refresh(timer, now);
      Note(fd, now);
      if fails {
        CloseConn(fd);
        assert forall i :: 0 <= i < |timerLst.nodes| ==> timerLst.nodes[i] in old(timerLst.nodes);
        timerLst.DelTimer(timer);
      }
    }

    lemma {:induction false} OwnTimer(fd: nat)
      requires Valid() && fd in openConns
      ensures fd in timerOf && timerOf[fd] in timerLst.nodes && timerOf[fd].user == fd
      ensures fd in active && timerOf[fd].expire <= clock + 3 * TIMESLOT
    {
      assert HasTimer(Abs(), fd);
      var i :| 0 <= i < |timerLst.nodes| && Entries(timerLst.nodes)[i] == Own(Abs(), fd);
      assert timerLst.nodes[i] == timerOf[fd];
    }

    /** timer->expire = now + 3 * TIMESLOT; timer_lst.adjust_timer( timer ); */
    method Refresh(timer: Timer, now: int)
      requires timerLst.Valid() && timer in timerLst.nodes && timer.expire <= now + 3 * TIMESLOT
      modifies timerLst, timerLst.nodes
      ensures timerLst.Valid() && timer in timerLst.nodes
      ensures forall t :: t in timerLst.nodes ==> t in old(timerLst.nodes)
      ensures Entries(timerLst.nodes) ==
        Insert(Remove(old(Entries(timerLst.nodes)), timer), Entry(timer, now + 3 * TIMESLOT, timer.user))
    {
      hide Insert, Remove, Chain, NoneTwice, SortedBut, Entries;
      Raise(timer, now + 3 * TIMESLOT);
      timerLst.AdjustTimer(timer);
      assert multiset(timerLst.nodes)[timer] > 0;
    }

    /** A later expiry, before the list is told. */
    method Raise(timer: Timer, expire: int)
      requires timerLst.Valid() && timer in timerLst.nodes && timer.expire <= expire
      modifies timer`expire
      ensures timerLst.Linked() && SortedBut(timerLst.nodes, timer) && timer.expire == expire
      ensures Remove(Entries(timerLst.nodes), timer) == old(Remove(Entries(timerLst.nodes), timer))
    {
      hide Insert, Remove, Chain, Entries, NoneTwice, SortedBut, LinkAt;
      ghost var ns := timerLst.nodes;
      ghost var k :| 0 <= k < |ns| && ns[k] == timer;
      EntriesWithout(ns, k);
      NodesWithout(ns, k);
      SetExpire(timer, expire, ns);
      EntriesWithout(ns, k);
    }

    method SetExpire(timer: Timer, expire: int, ghost ns: seq<Timer>)
      requires SortedBut(ns, null) && timer.expire <= expire
      modifies timer`expire
      ensures SortedBut(ns, timer) && timer.expire == expire
    {
      timer.expire := expire;
    }

    /** EPOLLRDHUP, EPOLLHUP or EPOLLERR: the connection is closed, its timer stays. */
    method OnError(fd: nat, now: int)
      requires Valid() && fd in openConns && clock <= now
      modifies this
      ensures Valid() && Abs() == Step(old(Abs()), ErrorEvent(fd), now)
    {
      hide Entries, Inv, Drop, Chain, NoneTwice, SortedBut;
      StepKeeps(old(Abs()), ErrorEvent(fd), now);
      clock := now;
      CloseConn(fd);
    }

    /** timer_handler */
    method OnTick(now: int)
      requires Valid() && clock <= now
      modifies this, timerLst, timerLst.nodes
      ensures Valid() && Grown()
      ensures Enabled(old(Abs()), EventLoop.Tick, now) && Abs() == Step(old(Abs()), EventLoop.Tick, now)
    {
      hide Entries, Inv, Drop, Chain, NoneTwice, SortedBut, CloseAll, Expired;
      StepKeeps(old(Abs()), EventLoop.Tick, now);
      ghost var s := Abs();
      ghost var n := Expired(s.list, now);
      var closed := TickList(now);
      clock, lastTick := now, now;
      CloseAllSame(s.(clock := now), Abs(), s.list[..n]);
      RunCallbacks(closed, s.list[..n]);
    }

    /** The list part of tick. */
    method TickList(now: int) returns (closed: seq<nat>)
      requires timerLst.Valid()
      modifies timerLst, timerLst.nodes
      ensures timerLst.Valid() && Grown()
      ensures var es := old(Entries(timerLst.nodes)); var n := Expired(es, now);
        && Entries(timerLst.nodes) == es[n..]
        && |closed| == n && forall i :: 0 <= i < n ==> closed[i] == es[..n][i].user
    {
      hide Entries, Chain, NoneTwice, Expired;
      ghost var n;
      closed, n := timerLst.Tick(now);
      EntriesDrop(old(timerLst.nodes), n, now);
    }

    /** The callbacks of the expired timers, in list order. */
    method RunCallbacks(closed: seq<nat>, ghost es: seq<Entry<Timer>>)
      requires |closed| == |es| && forall i :: 0 <= i < |es| ==> closed[i] == es[i].user
      modifies this`openConns, this`userCount, this`recent
      ensures Abs() == CloseAll(old(Abs()), es)
    {
      hide Entries, Drop, Close;
      var i := 0;
      assert es[0..] == es;
      while i < |closed|
        invariant i <= |closed|
        invariant CloseAll(Abs(), es[i..]) == CloseAll(old(Abs()), es)
      {
        CloseConn(closed[i]);
        assert es[i..][1..] == es[i + 1..];
        i := i + 1;
      }
    }
  }
}
