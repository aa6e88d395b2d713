/** The main loop of the server as steps on connections and their timers. */
module EventLoop {
  import opened TimerSpec

  const TIMESLOT := 10
  const MAX_FD := 65536

  /** `open` are the descriptors whose m_sockfd is not -1, `count` is m_user_count, `timer`
      holds users[fd].m_timer and `list` the timer list.  The rest is history: when each
      connection was last accepted, read or written (`active`), in which order the open ones
      were (`recent`, the most recent last), when the loop last ticked, and the time of the last step. */
  datatype Server<T> = Server(
    open: set<nat>, count: int, timer: map<nat, T>, list: seq<Entry<T>>,
    active: map<nat, int>, recent: seq<nat>, lastTick: int, clock: int)

  /** One event.  `fails` says that the worker reported an error and the main loop saw
      timer_flag set; `WorkerClosed` is the close_conn in process(). */
  datatype Event<T> =
    | Accept(fd: nat, id: T)
    | Io(fd: nat, fails: bool)
    | ErrorEvent(fd: nat)
    | WorkerClosed(fd: nat)
    | Tick

  function Start<T>(now: int): Server<T> {
    Server({}, 0, map[], [], map[], [], now, now)
  }

  /** close_conn: nothing happens to a connection that is closed already. */
  function Close<T>(s: Server<T>, fd: nat): Server<T> {
    if fd in s.open then s.(open := s.open - {fd}, count := s.count - 1, recent := Drop(s.recent, fd)) else s
  }

  /** The callbacks of tick, in list order. */
  function CloseAll<T>(s: Server<T>, es: seq<Entry<T>>): (r: Server<T>)
    ensures r == s.(open := r.open, count := r.count, recent := r.recent)
    decreases |es|
  {
    if es == [] then s else CloseAll(Close(s, es[0].user), es[1..])
  }

  /** The most recently active connection goes to the end. */
  function Touch(recent: seq<nat>, fd: nat): seq<nat> {
    Drop(recent, fd) + [fd]
  }

  function Drop(recent: seq<nat>, fd: nat): (r: seq<nat>)
    decreases |recent|
  {
    if recent == [] then []
    else if recent[0] == fd then Drop(recent[1..], fd)
    else [recent[0]] + Drop(recent[1..], fd)
  }

  /** accept, behind its two error exits. */
  function Accepted<T>(s: Server<T>, fd: nat, id: T, now: int): Server<T> {
    s.(timer := s.timer[fd := id],
       list := Insert(s.list, Entry(id, now + 3 * TIMESLOT, fd)),
       open := s.open + {fd}, count := s.count + 1)
  }

  /** timer->expire = now + 3 * TIMESLOT; adjust_timer( timer ); */
  function Refreshed<T(==)>(s: Server<T>, fd: nat, now: int): Server<T>
    requires fd in s.timer
  {
    var id := s.timer[fd];
    s.(list := Insert(Remove(s.list, id), Entry(id, now + 3 * TIMESLOT, fd)))
  }

  function Noted<T>(s: Server<T>, fd: nat, now: int): Server<T> {
    s.(active := s.active[fd := now], recent := Touch(s.recent, fd))
  }

  /** What may happen: descriptors handed out by accept are free, timers are new, and
      events are reported for open descriptors. */
  predicate Enabled<T(==)>(s: Server<T>, e: Event<T>, now: int) {
    && s.clock <= now
    && match e
       case Accept(fd, id) => fd !in s.open && (forall i :: 0 <= i < |s.list| ==> s.list[i].id != id)
       case Io(fd, _) => fd in s.open && fd in s.timer
       case ErrorEvent(fd) => fd in s.open
       case WorkerClosed(fd) => fd in s.open
       case Tick => true
  }

  /** One step of the loop, as written. */
  function Step<T(==)>(s: Server<T>, e: Event<T>, now: int): Server<T>
    requires Enabled(s, e, now)
  {
    var t := s.(clock := now);
    match e
    case Accept(fd, id) =>
      if s.count >= MAX_FD then t else Noted(Accepted(t, fd, id, now), fd, now)
    case Io(fd, fails) =>
      var r := Noted(Refreshed(t, fd, now), fd, now);
      if fails then var c := Close(r, fd); c.(list := Remove(c.list, c.timer[fd])) else r
    case ErrorEvent(fd) => Close(t, fd)
    case WorkerClosed(fd) => Close(t, fd)
    case Tick =>
      var n := Expired(t.list, now);
      CloseAll(t, t.list[..n]).(list := t.list[n..], lastTick := now)
  }

  // ---- the invariant of every run ----

  /** The entry that users[fd].m_timer points to. */
  function Own<T>(s: Server<T>, fd: nat): Entry<T>
    requires fd in s.timer && fd in s.active
  {
    Entry(s.timer[fd], s.active[fd] + 3 * TIMESLOT, fd)
  }

  /** The timer of an open connection is in the list, and calls back for this connection. */
  predicate HasTimer<T(==)>(s: Server<T>, fd: nat) {
    fd in s.timer && fd in s.active && Own(s, fd) in s.list
  }

  predicate Inv<T(==)>(s: Server<T>) {
    && Good(s.list, s.lastTick, s.clock + 3 * TIMESLOT)
    && s.count == |s.open|
    && (forall fd :: fd in s.open ==> HasTimer(s, fd))
    && s.lastTick <= s.clock
  }

  // ---- every step keeps it ----

  lemma {:induction false} AcceptKeeps<T>(s: Server<T>, fd: nat, id: T, now: int)
    requires Inv(s) && Enabled(s, Accept(fd, id), now) && s.count < MAX_FD
    ensures var t := Step(s, Accept(fd, id), now);
      Inv(t) && t.list == s.list + [Entry(id, now + 3 * TIMESLOT, fd)]
  {
    hide Good, Insert, Touch, HasTimer;
    var e := Entry(id, now + 3 * TIMESLOT, fd);
    GoodLater(s.list, s.lastTick, s.clock + 3 * TIMESLOT, now + 3 * TIMESLOT);
    PushGood(s.list, e, s.lastTick, now + 3 * TIMESLOT);
    var t := Step(s, Accept(fd, id), now);
    forall c | c in t.open ensures HasTimer(t, c) {
      AcceptedHas(s, t, c, fd, id, now);
    }
  }

  lemma {:induction false} AcceptedHas<T>(s: Server<T>, t: Server<T>, c: nat, fd: nat, id: T, now: int)
    requires c == fd || HasTimer(s, c)
    requires t.timer == s.timer[fd := id] && t.active == s.active[fd := now]
    requires t.list == s.list + [Entry(id, now + 3 * TIMESLOT, fd)]
    ensures HasTimer(t, c)
  {
  }

  lemma {:induction false} GoodLater<T>(es: seq<Entry<T>>, lo: int, hi: int, hi': int)
    requires Good(es, lo, hi) && hi <= hi'
    ensures Good(es, lo, hi')
  {
  }

  /** An event on an open connection moves its timer to the tail. */
  lemma {:induction false} IoKeeps<T>(s: Server<T>, fd: nat, now: int) returns (k: nat)
    requires Inv(s) && Enabled(s, Io(fd, false), now)
    ensures var t := Step(s, Io(fd, false), now);
      && Inv(t) && k < |s.list| && s.list[k] == Own(s, fd)
      && t.list == CutAt(s.list, k) + [Own(t, fd)]
  {
    hide Good, Insert, Touch, Remove, CutAt;
    assert HasTimer(s, fd);
    k :| 0 <= k < |s.list| && s.list[k] == Own(s, fd);
    var e := Entry(s.timer[fd], now + 3 * TIMESLOT, fd);
    GoodLater(s.list, s.lastTick, s.clock + 3 * TIMESLOT, now + 3 * TIMESLOT);
    CutGood(s.list, k, s.lastTick, now + 3 * TIMESLOT);
    PushGood(CutAt(s.list, k), e, s.lastTick, now + 3 * TIMESLOT);
    var t := Step(s, Io(fd, false), now);
    forall c | c in t.open ensures HasTimer(t, c) {
      if c != fd {
        assert HasTimer(s, c);
        CutIn(s.list, k, Own(s, c));
      }
    }
  }

  /** Closing a connection without its timer. */
  lemma {:induction false} CloseKeeps<T>(s: Server<T>, fd: nat)
    requires Inv(s)
    ensures Inv(Close(s, fd))
  {
    hide Good, Drop;
    var t := Close(s, fd);
    forall c | c in t.open ensures HasTimer(t, c) {
      assert HasTimer(s, c);
    }
  }

  /** Removing the timer of a connection that was just closed. */
  lemma {:induction false} RemoveKeeps<T>(s: Server<T>, k: nat)
    requires Inv(s) && k < |s.list| && s.list[k].user !in s.open
    ensures Remove(s.list, s.list[k].id) == CutAt(s.list, k)
    ensures Inv(s.(list := CutAt(s.list, k)))
  {
    hide Good, Remove, CutAt;
    CutGood(s.list, k, s.lastTick, s.clock + 3 * TIMESLOT);
    var t := s.(list := CutAt(s.list, k));
    forall c | c in t.open ensures HasTimer(t, c) {
      assert HasTimer(s, c);
      CutIn(s.list, k, Own(s, c));
    }
  }

  lemma {:induction false} FailedIoKeeps<T>(s: Server<T>, fd: nat, now: int) returns (k: nat)
    requires Inv(s) && Enabled(s, Io(fd, true), now)
    ensures var t := Step(s, Io(fd, true), now);
      Inv(t) && k < |s.list| && s.list[k] == Own(s, fd) && t.list == CutAt(s.list, k)
  {
    hide Good, Insert, Touch, Remove, Drop, CutAt;
    var r := Step(s, Io(fd, false), now);
    k := IoKeeps(s, fd, now);
    var c := Close(r, fd);
    CloseKeeps(r, fd);
    CutLast(CutAt(s.list, k), Own(r, fd));
    RemoveKeeps(c, |c.list| - 1);
  }

  lemma {:induction false} CutLast<T>(es: seq<Entry<T>>, e: Entry<T>)
    ensures CutAt(es + [e], |es|) == es
  {
  }

  /** The connections that tick closes are those whose timer has expired. */
  lemma {:induction false} CloseAllIs<T>(s: Server<T>, es: seq<Entry<T>>)
    requires s.count == |s.open|
    ensures var t := CloseAll(s, es);
      && t.count == |t.open| && t.open <= s.open
      && forall fd :: fd in s.open ==> (fd in t.open <==> forall i :: 0 <= i < |es| ==> es[i].user != fd)
    decreases |es|
  {
    hide Drop;
    if es != [] {
      CloseAllIs(Close(s, es[0].user), es[1..]);
      assert forall i :: 0 < i < |es| ==> es[i] == es[1..][i - 1];
    }
  }

  /** Closing looks at the connections only. */
  lemma {:induction false} CloseAllSame<T>(s: Server<T>, t: Server<T>, es: seq<Entry<T>>)
    requires s.open == t.open && s.count == t.count && s.recent == t.recent
    ensures var a, b := CloseAll(s, es), CloseAll(t, es);
      a.open == b.open && a.count == b.count && a.recent == b.recent
    decreases |es|
  {
    if es != [] {
      CloseAllSame(Close(s, es[0].user), Close(t, es[0].user), es[1..]);
    }
  }

  lemma {:induction false} TickKeeps<T>(s: Server<T>, now: int)
    requires Inv(s) && s.clock <= now
    ensures Inv(Step(s, Tick, now))
  {
    hide Good, CloseAll, HasTimer;
    var n := Expired(s.list, now);
    var t := Step(s, Tick, now);
    CloseAllIs(s.(clock := now), s.list[..n]);
    GoodLater(s.list, s.lastTick, s.clock + 3 * TIMESLOT, now + 3 * TIMESLOT);
    DropGood(s.list, n, s.lastTick, now + 3 * TIMESLOT, now);
    forall c | c in t.open ensures HasTimer(t, c) {
      TickSpares(s, now, c);
    }
  }

  /** A connection that tick leaves open keeps its timer. */
  lemma {:induction false} TickSpares<T>(s: Server<T>, now: int, c: nat)
    requires Inv(s) && s.clock <= now && c in Step(s, Tick, now).open
    ensures HasTimer(Step(s, Tick, now), c)
  {
    hide Good, CloseAll;
    var n := Expired(s.list, now);
    CloseAllIs(s.(clock := now), s.list[..n]);
    assert HasTimer(s, c);
    if Own(s, c).expire <= now {
      OwnInFront(s.list, now, s.lastTick, s.clock + 3 * TIMESLOT, Own(s, c));
    } else {
      DropIn(s.list, now, Own(s, c));
    }
  }

  lemma {:induction false} OwnInFront<T>(es: seq<Entry<T>>, now: int, lo: int, hi: int, x: Entry<T>)
    requires Good(es, lo, hi) && x in es && x.expire <= now
    ensures exists i :: 0 <= i < Expired(es, now) && es[..Expired(es, now)][i].user == x.user
  {
    var n := Expired(es, now);
    ExpiredAll(es, now);
    var i :| 0 <= i < |es| && es[i] == x;
    assert es[..n][i] == x;
  }

  /** One step of the loop, whatever the event. */
  lemma {:induction false} StepKeeps<T>(s: Server<T>, e: Event<T>, now: int)
    requires Inv(s) && Enabled(s, e, now)
    ensures Inv(Step(s, e, now))
  {
    hide Good;
    GoodLater(s.list, s.lastTick, s.clock + 3 * TIMESLOT, now + 3 * TIMESLOT);
    match e
    case Accept(fd, id) =>
      if s.count < MAX_FD {
        AcceptKeeps(s, fd, id, now);
      } else {
        TimePasses(s, now);
      }
    case Io(fd, fails) =>
      if fails {
        var _ := FailedIoKeeps(s, fd, now);
      } else {
        var _ := IoKeeps(s, fd, now);
      }
    case ErrorEvent(fd) =>
      TimePasses(s, now);
      CloseKeeps(s.(clock := now), fd);
    case WorkerClosed(fd) =>
      TimePasses(s, now);
      CloseKeeps(s.(clock := now), fd);
    case Tick => TickKeeps(s, now);
  }

  lemma {:induction false} TimePasses<T>(s: Server<T>, now: int)
    requires Inv(s) && s.clock <= now
    ensures Inv(s.(clock := now))
  {
    hide Good;
    GoodLater(s.list, s.lastTick, s.clock + 3 * TIMESLOT, now + 3 * TIMESLOT);
    forall c | c in s.open ensures HasTimer(s.(clock := now), c) {
      assert HasTimer(s, c);
    }
  }

  // ---- runs ----

  /** An event and the time it is handled. */
  datatype Timed<T> = Timed(event: Event<T>, now: int)

  predicate Possible<T(==)>(s: Server<T>, run: seq<Timed<T>>)
    decreases |run|
  {
    run == [] || (Enabled(s, run[0].event, run[0].now) && Possible(Step(s, run[0].event, run[0].now), run[1..]))
  }

  function After<T(==)>(s: Server<T>, run: seq<Timed<T>>): Server<T>
    requires Possible(s, run)
    decreases |run|
  {
    if run == [] then s else After(Step(s, run[0].event, run[0].now), run[1..])
  }

  /** Whatever happens: every open connection has its own timer in the list, m_user_count is
      the number of open connections, and the list is sorted without repetition. */
  lemma {:induction false} RunKeeps<T>(s: Server<T>, run: seq<Timed<T>>)
    requires Inv(s) && Possible(s, run)
    ensures Inv(After(s, run))
    decreases |run|
  {
    hide Step, Enabled, Inv;
    if run != [] {
      StepKeeps(s, run[0].event, run[0].now);
      RunKeeps(Step(s, run[0].event, run[0].now), run[1..]);
    }
  }

  /** At most 65536 connections are open: the one that would be too many is refused, and
      nothing else changes then. */
  lemma {:induction false} RunBound<T>(s: Server<T>, run: seq<Timed<T>>)
    requires Inv(s) && Possible(s, run) && |s.open| <= 65536
    ensures |After(s, run).open| <= 65536
    decreases |run|
  {
    hide Step, Enabled, Inv;
    if run != [] {
      StepKeeps(s, run[0].event, run[0].now);
      StepBound(s, run[0].event, run[0].now);
      RunBound(Step(s, run[0].event, run[0].now), run[1..]);
    }
  }

  lemma {:induction false} StepBound<T>(s: Server<T>, e: Event<T>, now: int)
    requires Inv(s) && Enabled(s, e, now) && |s.open| <= 65536
    ensures |Step(s, e, now).open| <= 65536
  {
    hide Good, Insert, Remove, Touch, Drop, CloseAll;
    if e.Tick? {
      CloseAllIs(s.(clock := now), s.list[..Expired(s.list, now)]);
      Subset(Step(s, e, now).open, s.open);
    }
  }

  lemma {:induction false} Subset(a: set<nat>, b: set<nat>)
    requires a <= b
    ensures |a| <= |b|
  {
    if a != {} {
      var x :| x in a;
      Subset(a - {x}, b - {x});
    }
  }

  lemma {:induction false} AcceptRefused<T>(s: Server<T>, fd: nat, id: T, now: int)
    requires Inv(s) && Enabled(s, Accept(fd, id), now)
    ensures var t := Step(s, Accept(fd, id), now);
      if |s.open| < 65536 then t.open == s.open + {fd} && t.count == s.count + 1 else t == s.(clock := now)
  {
    hide Good, Insert, Touch;
  }

  /** If ticks are at most 10 seconds apart, no connection stays open when it has been idle
      for 40. */
  lemma {:induction false} IdleBound<T>(s: Server<T>, fd: nat, now: int)
    requires Inv(s) && fd in s.open && s.clock <= now <= s.lastTick + 10
    ensures now - s.active[fd] < 40
  {
    assert HasTimer(s, fd);
  }

  // ---- which connections tick closes ----

  function Idle<T>(s: Server<T>, now: int): set<nat>
    requires forall fd :: fd in s.open ==> fd in s.active
  {
    set fd | fd in s.open && now - s.active[fd] >= 30
  }

  /** Some timer has expired that is not the newest one of its open connection. */
  predicate StaleDue<T(==)>(s: Server<T>, now: int) {
    exists i :: 0 <= i < |s.list| && s.list[i].expire <= now && s.list[i].user in s.open
      && s.list[i].user in s.active && now < s.active[s.list[i].user] + 30
  }

  /** A tick closes exactly the connections idle for 30 seconds or more, unless an expired
      timer is left over from an earlier connection on a descriptor that is in use again. */
  lemma {:induction false} TickExact<T>(s: Server<T>, now: int)
    requires Inv(s) && s.clock <= now
    ensures (forall fd :: fd in s.open ==> fd in s.active)
    ensures Step(s, Tick, now).open == s.open - Idle(s, now) <==> !StaleDue(s, now)
    ensures Step(s, Tick, now).open <= s.open - Idle(s, now)
  {
    hide CloseAll;
    forall fd | fd in s.open ensures fd in s.active { assert HasTimer(s, fd); }
    var n := Expired(s.list, now);
    var t := Step(s, Tick, now);
    CloseAllIs(s.(clock := now), s.list[..n]);
    ExpiredAll(s.list, now);
    assert forall i :: 0 <= i < n ==> s.list[..n][i] == s.list[i];
    forall fd | fd in Idle(s, now) ensures fd !in t.open {
      OwnInFront(s.list, now, s.lastTick, s.clock + 3 * TIMESLOT, Own(s, fd));
    }
    if StaleDue(s, now) {
      StaleCloses(s, now);
    }
  }

  lemma {:induction false} StaleCloses<T>(s: Server<T>, now: int)
    requires Inv(s) && s.clock <= now && StaleDue(s, now)
    requires forall fd :: fd in s.open ==> fd in s.active
    ensures exists fd :: fd in s.open - Idle(s, now) && fd !in Step(s, Tick, now).open
  {
    hide CloseAll;
    var n := Expired(s.list, now);
    CloseAllIs(s.(clock := now), s.list[..n]);
    ExpiredAll(s.list, now);
    var i :| 0 <= i < |s.list| && s.list[i].expire <= now && s.list[i].user in s.open
      && now < s.active[s.list[i].user] + 30;
    assert s.list[..n][i].user !in Step(s, Tick, now).open;
  }

  // ---- a stale timer at work ----

  /** One step in front of a run. */
  lemma {:induction false} FirstStep<T>(s: Server<T>, first: Timed<T>, t: Server<T>, rest: seq<Timed<T>>)
    requires Enabled(s, first.event, first.now) && Step(s, first.event, first.now) == t && Possible(t, rest)
    ensures Possible(s, [first] + rest) && After(s, [first] + rest) == After(t, rest)
  {
    hide Step, Enabled;
    assert ([first] + rest)[1..] == rest;
  }

  const OLD: Entry<nat> := Entry(1, 30, 7)
  const NEW: Entry<nat> := Entry(2, 55, 7)

  /** Descriptor 7 was closed at time 1 with its timer left behind. */
  function Left(now: int, lastTick: int): Server<nat> {
    Server({}, 0, map[7 := 1], [OLD], map[7 := 0], [], lastTick, now)
  }

  lemma {:induction false} LeftBehind()
    ensures var s := Start<nat>(0); var s1 := Step(s, Accept(7, 1), 0);
      Enabled(s1, ErrorEvent(7), 1) && Step(s1, ErrorEvent(7), 1) == Left(1, 0)
  {
    var s1 := Step(Start<nat>(0), Accept(7, 1), 0);
    assert s1.list == [OLD] && s1.recent == [7] && s1.timer == map[7 := 1] && s1.active == map[7 := 0];
    assert Drop([7], 7) == [];
  }

  /** A tick before the timer is due. */
  lemma {:induction false} TooEarly(now: int, lastTick: int, at: int)
    requires now <= at < 30
    ensures Enabled(Left(now, lastTick), Tick, at) && Step(Left(now, lastTick), Tick, at) == Left(at, at)
  {
    assert Left(now, lastTick).list[..0] == [] && Left(now, lastTick).list[0..] == [OLD];
  }

  /** Descriptor 7 is in use again, five seconds before the old timer is due. */
  function Reused(): Server<nat> {
    Server({7}, 1, map[7 := 2], [OLD, NEW], map[7 := 25], [7], 20, 25)
  }

  lemma {:induction false} IsReused()
    ensures Enabled(Left(20, 20), Accept(7, 2), 25) && Step(Left(20, 20), Accept(7, 2), 25) == Reused()
  {
    PushGood([OLD], NEW, 0, 55);
    assert map[7 := 1][7 := 2] == map[7 := 2] && map[7 := 0][7 := 25] == map[7 := 25];
    assert {} + {7} == {7} && Drop([], 7) == [];
  }

  lemma {:induction false} IsClosed()
    ensures Enabled(Reused(), Tick, 30) && Step(Reused(), Tick, 30).open == {}
    ensures Step(Reused(), Tick, 30).active == map[7 := 25]
  {
    hide Drop;
    ExpiredIs([OLD, NEW], 30, 1);
    CloseAllIs(Reused().(clock := 30), [OLD, NEW][..1]);
    assert [OLD, NEW][..1][0].user == 7;
  }

  /** A connection closed by an error event leaves its timer behind, and in a run with a
      tick every TIMESLOT that timer closes the next connection on the descriptor after
      five seconds. */
  lemma {:induction false} StaleTimerCloses()
    ensures var run := [Timed(Accept(7, 1), 0), Timed(ErrorEvent(7), 1), Timed(Tick, 10), Timed(Tick, 20),
                        Timed(Accept(7, 2), 25), Timed(Tick, 30)];
      var s := Start<nat>(0);
      Possible(s, run) && After(s, run).open == {} && 7 in After(s, run).active && After(s, run).active[7] == 25
  {
    var s := Start<nat>(0);
    var s1, last := Step(s, Accept(7, 1), 0), Step(Reused(), Tick, 30);
    LeftBehind();
    TooEarly(1, 0, 10);
    TooEarly(10, 10, 20);
    IsReused();
    IsClosed();
    assert Possible(last, []) && After(last, []) == last;
    hide Step, Left, Reused, Possible, After;
    var r1: seq<Timed<nat>> := [Timed(Tick, 30)] + [];
    FirstStep(Reused(), Timed(Tick, 30), last, []);
    FirstStep(Left(20, 20), Timed(Accept(7, 2), 25), Reused(), r1);
    var r2 := [Timed(Accept(7, 2), 25)] + r1;
    FirstStep(Left(10, 10), Timed(Tick, 20), Left(20, 20), r2);
    var r3 := [Timed(Tick, 20)] + r2;
    FirstStep(Left(1, 0), Timed(Tick, 10), Left(10, 10), r3);
    var r4 := [Timed(Tick, 10)] + r3;
    FirstStep(s1, Timed(ErrorEvent(7), 1), Left(1, 0), r4);
    FirstStep(s, Timed(Accept(7, 1), 0), s1, [Timed(ErrorEvent(7), 1)] + r4);
  }

  // ---- with the timer removed wherever a connection is closed ----

  /** The two closing paths that leave the timer behind, with the removal that is meant. */
  function IntendedStep<T(==)>(s: Server<T>, e: Event<T>, now: int): Server<T>
    requires Enabled(s, e, now)
  {
    if (e.ErrorEvent? || e.WorkerClosed?) && e.fd in s.timer then
      var c := Close(s.(clock := now), e.fd);
      c.(list := Remove(c.list, c.timer[e.fd]))
    else Step(s, e, now)
  }

  function UsersOf<T>(es: seq<Entry<T>>): (r: seq<nat>)
    ensures |r| == |es|
  {
    seq(|es|, i requires 0 <= i < |es| => es[i].user)
  }

  /** Every timer in the list is the timer of an open connection, and the list is in the
      order of last activity. */
  predicate Tidy<T(==)>(s: Server<T>) {
    && Inv(s)
    && (forall i :: 0 <= i < |s.list| ==> s.list[i].user in s.open && s.list[i] == Own(s, s.list[i].user))
    && UsersOf(s.list) == s.recent
  }

  /** A connection has one timer, and timers and open connections match one to one. */
  lemma {:induction false} TidyIsBijection<T>(s: Server<T>)
    requires Tidy(s)
    ensures forall i, j :: 0 <= i < j < |s.list| ==> s.list[i].user != s.list[j].user
    ensures forall fd :: fd in s.open ==>
      exists i :: 0 <= i < |s.list| && s.list[i].user == fd && s.list[i].id == s.timer[fd]
    ensures forall fd :: fd in s.open <==> fd in s.recent
  {
    forall i, j | 0 <= i < j < |s.list| ensures s.list[i].user != s.list[j].user {
      assert s.list[i] == Own(s, s.list[i].user) && s.list[j] == Own(s, s.list[j].user);
      assert s.list[i].id != s.list[j].id;
    }
    forall fd | fd in s.open
      ensures fd in s.recent
      ensures exists i :: 0 <= i < |s.list| && s.list[i].user == fd && s.list[i].id == s.timer[fd]
    {
      assert HasTimer(s, fd);
      var i :| 0 <= i < |s.list| && s.list[i] == Own(s, fd);
      assert s.recent[i] == UsersOf(s.list)[i] == fd;
    }
    forall fd | fd in s.recent ensures fd in s.open {
      var i :| 0 <= i < |s.recent| && s.recent[i] == fd;
      assert UsersOf(s.list)[i] == s.list[i].user == fd;
    }
  }

  predicate NoRepeats(r: seq<nat>) {
    forall i, j :: 0 <= i < j < |r| ==> r[i] != r[j]
  }

  lemma {:induction false} DropNone(r: seq<nat>, fd: nat)
    requires fd !in r
    ensures Drop(r, fd) == r
    decreases |r|
  {
    if r != [] {
      assert r[0] in r;
      assert forall x :: x in r[1..] ==> x in r;
      DropNone(r[1..], fd);
      assert [r[0]] + r[1..] == r;
    }
  }

  lemma {:induction false} DropAt(r: seq<nat>, k: nat)
    requires k < |r| && NoRepeats(r)
    ensures Drop(r, r[k]) == r[..k] + r[k + 1..]
    decreases |r|
  {
    if k == 0 {
      forall x | x in r[1..] ensures x != r[0] {
        var i :| 0 < i < |r| && r[i] == x;
      }
      DropNone(r[1..], r[0]);
      assert r[..0] + r[1..] == r[1..];
    } else {
      assert r[1..][k - 1] == r[k];
      DropAt(r[1..], k - 1);
      assert [r[0]] + (r[1..][..k - 1] + r[1..][k..]) == r[..k] + r[k + 1..];
    }
  }

  lemma {:induction false} UsersCut<T>(es: seq<Entry<T>>, k: nat)
    requires k < |es|
    ensures UsersOf(CutAt(es, k)) == UsersOf(es)[..k] + UsersOf(es)[k + 1..]
  {
  }

  lemma {:induction false} UsersPush<T>(es: seq<Entry<T>>, e: Entry<T>)
    ensures UsersOf(es + [e]) == UsersOf(es) + [e.user]
  {
  }

  /** The history of a tidy list: the place of a connection in it, and Drop from it. */
  lemma {:induction false} RecentCut<T>(s: Server<T>, k: nat)
    requires Tidy(s) && k < |s.list|
    ensures UsersOf(CutAt(s.list, k)) == Drop(s.recent, s.list[k].user)
    ensures forall i :: 0 <= i < |s.list| - 1 ==> CutAt(s.list, k)[i].user != s.list[k].user
  {
    TidyIsBijection(s);
    assert forall i :: 0 <= i < |s.list| ==> s.recent[i] == s.list[i].user;
    DropAt(s.recent, k);
    UsersCut(s.list, k);
  }

  lemma {:induction false} TidyAccept<T>(s: Server<T>, fd: nat, id: T, now: int)
    requires Tidy(s) && Enabled(s, Accept(fd, id), now) && s.count < MAX_FD
    ensures Tidy(Step(s, Accept(fd, id), now))
  {
    hide Inv, Insert, Drop, UsersOf;
    AcceptKeeps(s, fd, id, now);
    TidyIsBijection(s);
    DropNone(s.recent, fd);
    UsersPush(s.list, Entry(id, now + 3 * TIMESLOT, fd));
  }

  lemma {:induction false} TidyIo<T>(s: Server<T>, fd: nat, now: int)
    requires Tidy(s) && Enabled(s, Io(fd, false), now)
    ensures Tidy(Step(s, Io(fd, false), now))
  {
    hide Good, Insert, Remove, Drop, CutAt, HasTimer;
    var k := IoKeeps(s, fd, now);
    RecentCut(s, k);
    UsersPush(CutAt(s.list, k), Own(Step(s, Io(fd, false), now), fd));
    CutOwn(s, k);
  }

  lemma {:induction false} CutOwn<T>(s: Server<T>, k: nat)
    requires Tidy(s) && k < |s.list|
    ensures |CutAt(s.list, k)| == |s.list| - 1
    ensures forall i :: 0 <= i < |s.list| - 1 ==>
      CutAt(s.list, k)[i].user in s.open && CutAt(s.list, k)[i] == Own(s, CutAt(s.list, k)[i].user)
  {
  }

  /** Closing with the timer removed: by a failed read or write, or as it is meant. */
  lemma {:induction false} TidyClose<T>(s: Server<T>, fd: nat)
    requires Tidy(s) && fd in s.open
    ensures var c := Close(s, fd); Tidy(c.(list := Remove(c.list, c.timer[fd])))
  {
    hide Good, Remove, Drop, CutAt;
    assert HasTimer(s, fd);
    var k :| 0 <= k < |s.list| && s.list[k] == Own(s, fd);
    CloseKeeps(s, fd);
    RemoveKeeps(Close(s, fd), k);
    RecentCut(s, k);
    CutOwn(s, k);
  }

  /** Closing the connections at the front. */
  lemma {:induction false} CloseAllRecent<T>(s: Server<T>, es: seq<Entry<T>>)
    requires NoRepeats(s.recent) && |es| <= |s.recent| && UsersOf(es) == s.recent[..|es|]
    requires forall i :: 0 <= i < |es| ==> es[i].user in s.open
    ensures CloseAll(s, es).recent == s.recent[|es|..]
    decreases |es|
  {
    hide Drop, UsersOf;
    if es != [] {
      UsersTail(es, s.recent);
      DropAt(s.recent, 0);
      var c := Close(s, es[0].user);
      assert c.recent == s.recent[1..];
      forall i | 0 <= i < |es| - 1 ensures es[1..][i].user in c.open {
        assert s.recent[i + 1] != s.recent[0];
      }
      CloseAllRecent(c, es[1..]);
    }
  }

  lemma {:induction false} UsersTail<T>(es: seq<Entry<T>>, r: seq<nat>)
    requires 0 < |es| <= |r| && UsersOf(es) == r[..|es|]
    ensures UsersOf(es[1..]) == r[1..][..|es| - 1]
    ensures forall i :: 0 <= i < |es| ==> es[i].user == r[i]
  {
    forall i | 0 <= i < |es| ensures es[i].user == r[i] {
      assert UsersOf(es)[i] == r[..|es|][i];
    }
    var a, b := UsersOf(es[1..]), r[1..][..|es| - 1];
    forall i | 0 <= i < |a| ensures a[i] == b[i] {
      assert a[i] == es[1..][i].user == es[i + 1].user == r[i + 1];
      assert b[i] == r[1..][i] == r[i + 1];
    }
  }

  lemma {:induction false} UsersSplit<T>(es: seq<Entry<T>>, n: nat)
    requires n <= |es|
    ensures UsersOf(es[..n]) == UsersOf(es)[..n] && UsersOf(es[n..]) == UsersOf(es)[n..]
  {
  }

  lemma {:induction false} TidyTick<T>(s: Server<T>, now: int)
    requires Tidy(s) && s.clock <= now
    ensures Tidy(Step(s, Tick, now))
  {
    hide Inv, CloseAll, Drop;
    var n := Expired(s.list, now);
    TickKeeps(s, now);
    TidyTime(s, now);
    UsersSplit(s.list, n);
    FrontClosed(s.(clock := now), n);
  }

  /** Closing the first `n` of a tidy list. */
  lemma {:induction false} FrontClosed<T>(s: Server<T>, n: nat)
    requires Tidy(s) && n <= |s.list|
    ensures var t := CloseAll(s, s.list[..n]);
      && t.recent == s.recent[n..]
      && forall i :: n <= i < |s.list| ==> s.list[i].user in t.open
  {
    hide Good, CloseAll, Drop;
    TidyIsBijection(s);
    UsersSplit(s.list, n);
    assert forall i :: 0 <= i < |s.list| ==> s.recent[i] == s.list[i].user;
    CloseAllRecent(s, s.list[..n]);
    CloseAllIs(s, s.list[..n]);
    assert forall j :: 0 <= j < n ==> s.list[..n][j] == s.list[j];
  }

  lemma {:induction false} TidyTime<T>(s: Server<T>, now: int)
    requires Tidy(s) && s.clock <= now
    ensures Tidy(s.(clock := now))
  {
    TimePasses(s, now);
  }

  /** With the timer removed on every closing path, each step keeps timers and open
      connections one to one, and the list in the order of last activity. */
  lemma {:induction false} IntendedStepKeeps<T>(s: Server<T>, e: Event<T>, now: int)
    requires Tidy(s) && Enabled(s, e, now)
    ensures Tidy(IntendedStep(s, e, now))
  {
    hide Tidy;
    match e
    case Accept(fd, id) =>
      if s.count < MAX_FD {
        TidyAccept(s, fd, id, now);
      } else {
        TidyTime(s, now);
      }
    case Io(fd, fails) =>
      TidyIo(s, fd, now);
      if fails {
        TidyClose(Step(s, Io(fd, false), now), fd);
      }
    case ErrorEvent(fd) =>
      TidyTime(s, now);
      TimerKnown(s, fd);
      TidyClose(s.(clock := now), fd);
    case WorkerClosed(fd) =>
      TidyTime(s, now);
      TimerKnown(s, fd);
      TidyClose(s.(clock := now), fd);
    case Tick => TidyTick(s, now);
  }

  lemma {:induction false} TimerKnown<T>(s: Server<T>, fd: nat)
    requires Tidy(s) && fd in s.open
    ensures fd in s.timer
  {
    assert HasTimer(s, fd);
  }

  predicate IntendedPossible<T(==)>(s: Server<T>, run: seq<Timed<T>>)
    decreases |run|
  {
    run == [] || (Enabled(s, run[0].event, run[0].now)
                  && IntendedPossible(IntendedStep(s, run[0].event, run[0].now), run[1..]))
  }

  function IntendedAfter<T(==)>(s: Server<T>, run: seq<Timed<T>>): Server<T>
    requires IntendedPossible(s, run)
    decreases |run|
  {
    if run == [] then s else IntendedAfter(IntendedStep(s, run[0].event, run[0].now), run[1..])
  }

  /** The server before its first event. */
  lemma {:induction false} StartIsTidy<T>(now: int)
    ensures Inv(Start<T>(now)) && Tidy(Start<T>(now))
  {
  }

  lemma {:induction false} IntendedRunKeeps<T>(s: Server<T>, run: seq<Timed<T>>)
    requires Tidy(s) && IntendedPossible(s, run)
    ensures Tidy(IntendedAfter(s, run))
    decreases |run|
  {
    hide IntendedStep, Enabled, Tidy;
    if run != [] {
      IntendedStepKeeps(s, run[0].event, run[0].now);
      IntendedRunKeeps(IntendedStep(s, run[0].event, run[0].now), run[1..]);
    }
  }

  /** A run in which no connection is closed without its timer is the intended run. */
  lemma {:induction false} SameRun<T>(s: Server<T>, run: seq<Timed<T>>)
    requires Possible(s, run)
    requires forall i :: 0 <= i < |run| ==> !run[i].event.ErrorEvent? && !run[i].event.WorkerClosed?
    ensures IntendedPossible(s, run) && IntendedAfter(s, run) == After(s, run)
    decreases |run|
  {
    hide Step, Enabled;
    if run != [] {
      assert forall i :: 0 <= i < |run[1..]| ==> run[1..][i] == run[i + 1];
      SameRun(Step(s, run[0].event, run[0].now), run[1..]);
    }
  }

  /** In a tidy state no stale timer is due, so a tick closes exactly the idle connections,
      and activity does not decrease along the list. */
  lemma {:induction false} TidyTickExact<T>(s: Server<T>, now: int)
    requires Tidy(s) && s.clock <= now
    ensures forall fd :: fd in s.open ==> fd in s.active
    ensures Step(s, Tick, now).open == s.open - Idle(s, now)
    ensures forall i, j :: 0 <= i < j < |s.recent| ==>
      s.recent[i] in s.active && s.recent[j] in s.active && s.active[s.recent[i]] <= s.active[s.recent[j]]
  {
    hide Step;
    TickExact(s, now);
    forall i, j | 0 <= i < j < |s.recent|
      ensures s.recent[i] in s.active && s.recent[j] in s.active && s.active[s.recent[i]] <= s.active[s.recent[j]]
    {
      assert s.recent[i] == UsersOf(s.list)[i] == s.list[i].user;
      assert s.recent[j] == UsersOf(s.list)[j] == s.list[j].user;
    }
  }
}
