/** Which runs of the main loop have exact ticks, told from the events alone. */
module StaleRuns {
  import opened TimerSpec
  import opened EventLoop

  /** What the events of a run tell while its ticks are exact: the open connections, when
      each was last active, and the timers left behind, by descriptor and expiry. */
  datatype History = History(open: set<nat>, active: map<nat, int>, left: set<(nat, int)>)

  const NOTHING := History({}, map[], {})

  function Due(h: History, fd: nat): int
    requires fd in h.active
  {
    h.active[fd] + 3 * TIMESLOT
  }

  function Follow<T>(h: History, e: Event<T>, now: int): History {
    match e
    case Accept(fd, _) =>
      if |h.open| >= MAX_FD then h else h.(open := h.open + {fd}, active := h.active[fd := now])
    case Io(fd, fails) =>
      h.(open := if fails then h.open - {fd} else h.open, active := h.active[fd := now])
    case ErrorEvent(fd) => Abandon(h, fd)
    case WorkerClosed(fd) => Abandon(h, fd)
    case Tick =>
      h.(open := (set fd | fd in h.open && !(fd in h.active && Due(h, fd) <= now)),
         left := (set x | x in h.left && now < x.1))
  }

  /** A connection that is closed without its timer. */
  function Abandon(h: History, fd: nat): History {
    h.(open := h.open - {fd}, left := if fd in h.active then h.left + {(fd, Due(h, fd))} else h.left)
  }

  /** A timer left behind comes due while its descriptor is in use again and not idle. */
  predicate StaleAt(h: History, now: int) {
    exists x :: x in h.left && x.1 <= now && x.0 in h.open && x.0 in h.active && now < Due(h, x.0)
  }

  predicate NoneStale<T>(h: History, run: seq<Timed<T>>)
    decreases |run|
  {
    run == [] ||
    (!(run[0].event.Tick? && StaleAt(h, run[0].now)) && NoneStale(Follow(h, run[0].event, run[0].now), run[1..]))
  }

  /** Every tick of the run closes exactly the idle connections. */
  predicate TicksExact<T(==)>(s: Server<T>, run: seq<Timed<T>>)
    requires Possible(s, run)
    decreases |run|
  {
    run == [] ||
    ((run[0].event.Tick? ==> ExactTick(s, run[0].now)) && TicksExact(Step(s, run[0].event, run[0].now), run[1..]))
  }

  predicate ExactTick<T(==)>(s: Server<T>, now: int)
    requires Enabled(s, Tick, now)
  {
    (forall fd :: fd in s.open ==> fd in s.active) && Step(s, Tick, now).open == s.open - Idle(s, now)
  }

  // ---- the history and the list ----

  function Pair<T>(e: Entry<T>): (nat, int) { (e.user, e.expire) }

  /** The timer of an open connection. */
  predicate IsOwn<T(==)>(s: Server<T>, e: Entry<T>) {
    e.user in s.open && e.user in s.timer && e.user in s.active && e == Own(s, e.user)
  }

  /** The list holds the timers of the open connections and those left behind. */
  ghost predicate Matches<T>(s: Server<T>, h: History) {
    && h.open == s.open && h.active == s.active
    && (forall e :: e in s.list ==> IsOwn(s, e) || Pair(e) in h.left)
    && (forall x :: x in h.left ==> Holds(s, x))
  }

  ghost predicate Holds<T>(s: Server<T>, x: (nat, int)) {
    exists e :: e in s.list && Pair(e) == x && !IsOwn(s, e)
  }

  lemma {:induction false} StartMatches<T>(now: int)
    ensures Inv(Start<T>(now)) && Matches(Start<T>(now), NOTHING)
  {
  }

  lemma {:induction false} StaleMatches<T>(s: Server<T>, h: History, now: int)
    requires Inv(s) && Matches(s, h)
    ensures StaleDue(s, now) <==> StaleAt(h, now)
  {
    hide Good;
    if StaleDue(s, now) {
      var i :| 0 <= i < |s.list| && s.list[i].expire <= now && s.list[i].user in s.open
        && s.list[i].user in s.active && now < s.active[s.list[i].user] + 3 * TIMESLOT;
      assert s.list[i] in s.list && !IsOwn(s, s.list[i]);
      assert Pair(s.list[i]) in h.left;
    }
    if StaleAt(h, now) {
      var x :| x in h.left && x.1 <= now && x.0 in h.open && x.0 in h.active && now < Due(h, x.0);
      assert Holds(s, x);
      var e :| e in s.list && Pair(e) == x;
      var i :| 0 <= i < |s.list| && s.list[i] == e;
    }
  }

  /** A step that leaves these timers in the list, and of the others adds or removes only
      timers of open connections. */
  lemma {:induction false} SameLeft<T>(s: Server<T>, t: Server<T>, h: History, h': History)
    requires Matches(s, h) && h'.left == h.left && h'.open == t.open && h'.active == t.active
    requires forall e :: e in t.list ==> IsOwn(t, e) || (e in s.list && !IsOwn(s, e))
    requires forall e :: e in s.list && !IsOwn(s, e) ==> e in t.list && !IsOwn(t, e)
    ensures Matches(t, h')
  {
    forall x | x in h'.left ensures Holds(t, x) {
      assert Holds(s, x);
      var e :| e in s.list && Pair(e) == x && !IsOwn(s, e);
      assert e in t.list && !IsOwn(t, e);
    }
  }

  lemma {:induction false} AcceptChanges<T>(s: Server<T>, fd: nat, id: T, now: int)
    requires Inv(s) && Enabled(s, Accept(fd, id), now) && s.count < MAX_FD
    ensures var t := Step(s, Accept(fd, id), now);
      && t.open == s.open + {fd} && t.timer == s.timer[fd := id] && t.active == s.active[fd := now]
      && t.list == s.list + [Own(t, fd)] && fd !in s.open && |s.open| < MAX_FD
      && (forall e :: e in s.list ==> e.id != id)
  {
    AcceptKeeps(s, fd, id, now);
    hide Insert, Touch, Good;
  }

  lemma {:induction false} AcceptMatches<T>(s: Server<T>, h: History, fd: nat, id: T, now: int)
    requires Inv(s) && Matches(s, h) && Enabled(s, Accept(fd, id), now) && s.count < MAX_FD
    ensures Matches(Step(s, Accept(fd, id), now), Follow(h, Accept(fd, id), now))
  {
    AcceptChanges(s, fd, id, now);
    var t := Step(s, Accept(fd, id), now);
    hide Step, Inv, Enabled;
    forall e | e in t.list ensures IsOwn(t, e) || (e in s.list && !IsOwn(s, e)) {
      assert e == Own(t, fd) || e in s.list;
    }
    forall e | e in s.list && !IsOwn(s, e) ensures e in t.list && !IsOwn(t, e) {
    }
    SameLeft(s, t, h, Follow(h, Accept(fd, id), now));
  }

  /** The other timers are not this connection's. */
  lemma {:induction false} Others<T>(s: Server<T>, k: nat, e: Entry<T>)
    requires Inv(s) && k < |s.list| && e in s.list
    ensures e in CutAt(s.list, k) <==> e.id != s.list[k].id
  {
    CutGood(s.list, k, s.lastTick, s.clock + 3 * TIMESLOT);
    if e.id != s.list[k].id {
      CutIn(s.list, k, e);
    }
  }

  lemma {:induction false} CutFrom<T>(es: seq<Entry<T>>, k: nat, e: Entry<T>)
    requires k < |es| && e in CutAt(es, k)
    ensures e in es
  {
    var i :| 0 <= i < |CutAt(es, k)| && CutAt(es, k)[i] == e;
    assert es[if i < k then i else i + 1] == e;
  }

  lemma {:induction false} OneTimer<T>(s: Server<T>, k: nat, e: Entry<T>)
    requires Inv(s) && k < |s.list| && e in s.list && e.id == s.list[k].id
    ensures e == s.list[k]
  {
    var i :| 0 <= i < |s.list| && s.list[i] == e;
  }

  /** What is in the list behind an event on a connection: the timers of the others, and
      its own unless it was closed. */
  lemma {:induction false} IoChanges<T>(s: Server<T>, fd: nat, fails: bool, now: int, e: Entry<T>)
    requires Inv(s) && Enabled(s, Io(fd, fails), now)
    ensures fd in s.timer && fd in s.active && fd in s.open
    ensures var t := Step(s, Io(fd, fails), now);
      && t.open == (if fails then s.open - {fd} else s.open)
      && t.timer == s.timer && t.active == s.active[fd := now]
      && (e in t.list <==> (e in s.list && e.id != s.timer[fd]) || (!fails && e == Own(t, fd)))
      && (e in s.list && e.id == s.timer[fd] ==> e == Own(s, fd))
  {
    var t := Step(s, Io(fd, fails), now);
    var k;
    if fails {
      k := FailedIoKeeps(s, fd, now);
    } else {
      k := IoKeeps(s, fd, now);
    }
    hide Good, Insert, Remove, Touch, Drop, Inv, CutAt;
    if e in CutAt(s.list, k) {
      CutFrom(s.list, k, e);
    }
    if e in s.list {
      Others(s, k, e);
      if e.id == s.timer[fd] {
        OneTimer(s, k, e);
      }
    }
  }

  lemma {:induction false} IoEntry<T>(s: Server<T>, fd: nat, fails: bool, now: int, e: Entry<T>)
    requires Inv(s) && Enabled(s, Io(fd, fails), now)
    ensures var t := Step(s, Io(fd, fails), now);
      && (e in t.list ==> IsOwn(t, e) || (e in s.list && !IsOwn(s, e)))
      && (e in s.list && !IsOwn(s, e) ==> e in t.list && !IsOwn(t, e))
  {
    IoChanges(s, fd, fails, now, e);
    hide Step, Inv, Enabled;
  }

  lemma {:induction false} IoFields<T>(s: Server<T>, fd: nat, fails: bool, now: int)
    requires Inv(s) && Enabled(s, Io(fd, fails), now)
    ensures var t := Step(s, Io(fd, fails), now);
      t.open == (if fails then s.open - {fd} else s.open) && t.active == s.active[fd := now]
  {
    hide Insert, Remove, Touch, Drop, Inv;
  }

  lemma {:induction false} IoMatches<T>(s: Server<T>, h: History, fd: nat, fails: bool, now: int)
    requires Inv(s) && Matches(s, h) && Enabled(s, Io(fd, fails), now)
    ensures Matches(Step(s, Io(fd, fails), now), Follow(h, Event<T>.Io(fd, fails), now))
  {
    var t := Step(s, Io(fd, fails), now);
    IoFields(s, fd, fails, now);
    hide Step, Inv, Enabled, IsOwn;
    forall e | e in t.list ensures IsOwn(t, e) || (e in s.list && !IsOwn(s, e)) {
      IoEntry(s, fd, fails, now, e);
    }
    forall e | e in s.list && !IsOwn(s, e) ensures e in t.list && !IsOwn(t, e) {
      IoEntry(s, fd, fails, now, e);
    }
    SameLeft(s, t, h, Follow(h, Event<T>.Io(fd, fails), now));
  }

  /** A timer left behind joins the others. */
  lemma {:induction false} AbandonMatches<T>(s: Server<T>, h: History, fd: nat, now: int)
    requires Inv(s) && Matches(s, h) && fd in s.open
    ensures Matches(Close(s.(clock := now), fd), Abandon(h, fd))
  {
    hide Good, Drop;
    var t, h' := Close(s.(clock := now), fd), Abandon(h, fd);
    assert HasTimer(s, fd);
    assert !IsOwn(t, Own(s, fd)) && Own(s, fd) in t.list;
    forall e | e in t.list ensures IsOwn(t, e) || Pair(e) in h'.left {
      assert IsOwn(s, e) || Pair(e) in h.left;
    }
    forall x | x in h'.left ensures Holds(t, x) {
      if x in h.left {
        assert Holds(s, x);
        var e :| e in s.list && Pair(e) == x && !IsOwn(s, e);
        assert e in t.list && !IsOwn(t, e);
      } else {
        assert Pair(Own(s, fd)) == x;
      }
    }
  }

  lemma {:induction false} KeptByTick<T>(s: Server<T>, now: int, e: Entry<T>)
    requires Inv(s) && s.clock <= now
    ensures e in Step(s, Tick, now).list <==> e in s.list && now < e.expire
  {
    hide CloseAll, Good;
    var n := Expired(s.list, now);
    SortedOf(s);
    ExpiredAll(s.list, now);
    if e in s.list && now < e.expire {
      DropIn(s.list, now, e);
    }
    if e in s.list[n..] {
      var i :| 0 <= i < |s.list[n..]| && s.list[n..][i] == e;
      assert s.list[n + i] == e;
    }
  }

  lemma {:induction false} SortedOf<T>(s: Server<T>)
    requires Inv(s)
    ensures Sorted(s.list)
  {
  }

  lemma {:induction false} TickMatches<T>(s: Server<T>, h: History, now: int)
    requires Inv(s) && Matches(s, h) && Enabled(s, Tick, now) && ExactTick(s, now)
    ensures Matches(Step(s, Tick, now), Follow(h, Event<T>.Tick, now))
  {
    var t, h' := Step(s, Tick, now), Follow(h, Event<T>.Tick, now);
    assert t.timer == s.timer && t.active == s.active;
    hide Step, Inv;
    assert h'.open == t.open;
    forall e | e in t.list ensures IsOwn(t, e) || Pair(e) in h'.left {
      KeptByTick(s, now, e);
    }
    forall x | x in h'.left ensures Holds(t, x) {
      assert Holds(s, x);
      var e :| e in s.list && Pair(e) == x && !IsOwn(s, e);
      KeptByTick(s, now, e);
      assert e in t.list && !IsOwn(t, e);
    }
  }

  /** One event, with an exact tick if it is one. */
  lemma {:induction false} StepMatches<T>(s: Server<T>, h: History, e: Event<T>, now: int)
    requires Inv(s) && Matches(s, h) && Enabled(s, e, now) && (e.Tick? ==> ExactTick(s, now))
    ensures Matches(Step(s, e, now), Follow(h, e, now))
  {
    match e
    case Accept(fd, id) =>
      if s.count < MAX_FD {
        hide Matches, Inv;
        AcceptMatches(s, h, fd, id, now);
      }
    case Io(fd, fails) =>
      hide Matches, Inv;
      IoMatches(s, h, fd, fails, now);
    case ErrorEvent(fd) =>
      hide Matches, Inv;
      AbandonMatches(s, h, fd, now);
    case WorkerClosed(fd) =>
      hide Matches, Inv;
      AbandonMatches(s, h, fd, now);
    case Tick =>
      hide Matches, Inv;
      TickMatches(s, h, now);
  }

  /** Every tick of a run closes exactly the connections idle for 3 * TIMESLOT, if and only
      if no timer of a connection that was closed without it comes due while its descriptor
      is in use again by a connection that is not idle. */
  lemma {:induction false} RunTicksExact<T>(s: Server<T>, h: History, run: seq<Timed<T>>)
    requires Inv(s) && Matches(s, h) && Possible(s, run)
    ensures TicksExact(s, run) <==> NoneStale(h, run)
    decreases |run|
  {
    hide Inv, Matches, Step, Enabled, StaleDue, StaleAt, Follow;
    if run != [] {
      var e, now := run[0].event, run[0].now;
      if e.Tick? {
        ClockForward(s, now);
        TickExact(s, now);
        StaleMatches(s, h, now);
      }
      if !(e.Tick? && StaleAt(h, now)) {
        StepKeeps(s, e, now);
        StepMatches(s, h, e, now);
        RunTicksExact(Step(s, e, now), Follow(h, e, now), run[1..]);
      }
    }
  }

  lemma {:induction false} ClockForward<T>(s: Server<T>, now: int)
    requires Enabled(s, Tick, now)
    ensures s.clock <= now
  {
  }

  /** The same from the start of the server, where the condition is on the events alone. */
  lemma {:induction false} TicksAreExact<T>(start: int, run: seq<Timed<T>>)
    requires Possible(Start(start), run)
    ensures TicksExact(Start(start), run) <==> NoneStale(NOTHING, run)
  {
    StartMatches<T>(start);
    RunTicksExact(Start(start), NOTHING, run);
  }
}
