/** `sort_timer_lst`: a doubly linked list of timers. */
module TimerList {
  import opened TimerSpec

  class Timer {
    var expire: int
    const user: nat
    var prev: Timer?
    var next: Timer?

    constructor (user: nat, expire: int)
      ensures this.user == user && this.expire == expire && prev == null && next == null
    {
      this.user, this.expire, prev, next := user, expire, null, null;
    }
  }

  // ---- chains of linked timers ----

  /** The two links of timer number `i`. */
  ghost predicate LinkAt(ns: seq<Timer>, i: nat)
    requires i < |ns|
    reads ns`next, ns`prev
  {
    && ns[i].next == (if i + 1 < |ns| then ns[i + 1] else null)
    && ns[i].prev == (if i == 0 then null else ns[i - 1])
  }

  ghost predicate Chain(ns: seq<Timer>)
    reads ns`next, ns`prev
  {
    forall i :: 0 <= i < |ns| ==> LinkAt(ns, i)
  }

  ghost predicate NoneTwice(ns: seq<Timer>) {
    forall i, j :: 0 <= i < j < |ns| ==> ns[i] != ns[j]
  }

  ghost function Without(ns: seq<Timer>, k: nat): (r: seq<Timer>)
    requires k < |ns|
    ensures |r| == |ns| - 1 && forall i :: 0 <= i < |r| ==> r[i] == if i < k then ns[i] else ns[i + 1]
  {
    ns[..k] + ns[k + 1..]
  }

  ghost function With(ns: seq<Timer>, k: nat, t: Timer): (r: seq<Timer>)
    requires k <= |ns|
    ensures |r| == |ns| + 1
    ensures forall i :: 0 <= i < |r| ==> r[i] == if i < k then ns[i] else if i == k then t else ns[i - 1]
  {
    ns[..k] + [t] + ns[k..]
  }

  /** The expiries never go down, but behind `but`. */
  ghost predicate SortedBut(ns: seq<Timer>, but: Timer?)
    reads ns`expire
  {
    forall i, j :: 0 <= i < j < |ns| ==> ns[i] == but || ns[i].expire <= ns[j].expire
  }

  /** `k` is the place behind every timer that does not expire later than `t`. */
  ghost predicate PlaceOf(ns: seq<Timer>, t: Timer, k: nat)
    reads ns`expire, t`expire
  {
    && k <= |ns|
    && (forall i :: 0 <= i < k ==> ns[i].expire <= t.expire)
    && (forall i :: k <= i < |ns| ==> t.expire < ns[i].expire)
  }

  /** timer->prev->next = timer->next; timer->next->prev = timer->prev; */
  method Unlink(timer: Timer, ghost ns: seq<Timer>, ghost k: nat)
    requires Chain(ns) && NoneTwice(ns) && 0 < k < |ns| - 1 && ns[k] == timer
    modifies ns`prev, ns`next
    ensures Chain(Without(ns, k))
    ensures timer.prev == old(timer.prev) && timer.next == old(timer.next) == ns[k + 1]
  {
    assert LinkAt(ns, k);
    assert ns[k - 1] != ns[k] && ns[k] != ns[k + 1] && ns[k - 1] != ns[k + 1];
    timer.prev.next := timer.next;
    timer.next.prev := timer.prev;
    ghost var ms := Without(ns, k);
    forall i | 0 <= i < |ms| ensures LinkAt(ms, i) {
      var j := if i < k then i else i + 1;
      assert old(LinkAt(ns, j));
      assert j != k - 1 ==> ns[j] != ns[k - 1];
      assert j != k + 1 ==> ns[j] != ns[k + 1];
    }
  }

  /** head->next->prev = NULL, for the head of a chain of two or more. */
  method UnlinkFirst(head: Timer, ghost ns: seq<Timer>)
    requires Chain(ns) && NoneTwice(ns) && |ns| > 1 && ns[0] == head
    modifies ns`prev
    ensures Chain(ns[1..]) && head.next == old(head.next) == ns[1]
  {
    assert LinkAt(ns, 0);
    head.next.prev := null;
    forall i | 0 <= i < |ns[1..]| ensures LinkAt(ns[1..], i) {
      assert old(LinkAt(ns, i + 1));
      assert i > 0 ==> ns[i + 1] != ns[1];
    }
  }

  /** The same, and head->next = NULL. */
  method FreeFirst(head: Timer, ghost ns: seq<Timer>) returns (next: Timer)
    requires Chain(ns) && NoneTwice(ns) && |ns| > 1 && ns[0] == head
    modifies ns`prev, head`next
    ensures Chain(ns[1..]) && next == ns[1] == old(head.next)
  {
    UnlinkFirst(head, ns);
    next := head.next;
    head.next := null;
    forall i | 0 <= i < |ns[1..]| ensures LinkAt(ns[1..], i) {
      assert ns[1..][i] == ns[i + 1] != ns[0];
    }
  }

  /** tail->prev->next = NULL, for the tail of a chain of two or more. */
  method UnlinkLast(tail: Timer, ghost ns: seq<Timer>)
    requires Chain(ns) && NoneTwice(ns) && |ns| > 1 && ns[|ns| - 1] == tail
    modifies ns`next
    ensures Chain(ns[..|ns| - 1]) && tail.prev == old(tail.prev) == ns[|ns| - 2]
  {
    ghost var n := |ns| - 1;
    assert LinkAt(ns, n);
    tail.prev.next := null;
    forall i | 0 <= i < |ns[..n]| ensures LinkAt(ns[..n], i) {
      assert old(LinkAt(ns, i));
      assert i < n - 1 ==> ns[i] != ns[n - 1];
    }
  }

  /** `timer` between number `k` - 1 and number `k`. */
  method LinkBetween(timer: Timer, before: Timer, behind: Timer, ghost ns: seq<Timer>, ghost k: nat)
    requires Chain(ns) && NoneTwice(ns) && timer !in ns
    requires 0 < k < |ns| && ns[k - 1] == before && ns[k] == behind
    modifies ns`prev, ns`next, timer`prev, timer`next
    ensures Chain(With(ns, k, timer))
  {
    before.next := timer;
    timer.next := behind;
    behind.prev := timer;
    timer.prev := before;
    ghost var ms := With(ns, k, timer);
    forall i | 0 <= i < |ms| ensures LinkAt(ms, i) {
      if i != k {
        var j := if i < k then i else i - 1;
        assert old(LinkAt(ns, j));
        assert ms[i] == ns[j] && ns[j] in ns;
        assert j != k - 1 ==> ns[j] != ns[k - 1];
        assert j != k ==> ns[j] != ns[k];
      }
    }
  }

  /** `timer` in front of the head. */
  method LinkFirst(timer: Timer, head: Timer, ghost ns: seq<Timer>)
    requires Chain(ns) && NoneTwice(ns) && timer !in ns && timer.prev == null && ns != [] && ns[0] == head
    modifies ns`prev, timer`next
    ensures Chain(With(ns, 0, timer))
  {
    timer.next := head;
    head.prev := timer;
    ghost var ms := With(ns, 0, timer);
    forall i | 0 <= i < |ms| ensures LinkAt(ms, i) {
      if i > 0 {
        assert old(LinkAt(ns, i - 1));
        assert ms[i] == ns[i - 1] && ns[i - 1] in ns;
        assert i > 1 ==> ns[i - 1] != ns[0];
      }
    }
  }

  /** `timer` behind the last one. */
  method LinkLast(timer: Timer, last: Timer, ghost ns: seq<Timer>)
    requires Chain(ns) && NoneTwice(ns) && timer !in ns && ns != [] && ns[|ns| - 1] == last
    modifies ns`next, timer`prev, timer`next
    ensures Chain(With(ns, |ns|, timer))
  {
    last.next := timer;
    timer.prev := last;
    timer.next := null;
    ghost var ms := With(ns, |ns|, timer);
    forall i | 0 <= i < |ms| ensures LinkAt(ms, i) {
      if i < |ns| {
        assert old(LinkAt(ns, i));
        assert ms[i] == ns[i] && ns[i] in ns;
        assert i < |ns| - 1 ==> ns[i] != ns[|ns| - 1];
      }
    }
  }

  lemma {:induction false} LinkOf(ns: seq<Timer>, i: nat)
    requires Chain(ns) && i < |ns|
    ensures LinkAt(ns, i)
  {
  }

  lemma {:induction false} WithoutKeeps(ns: seq<Timer>, k: nat, but: Timer?)
    requires k < |ns| && NoneTwice(ns) && SortedBut(ns, but)
    ensures NoneTwice(Without(ns, k)) && SortedBut(Without(ns, k), but)
    ensures ns[k] !in Without(ns, k)
    ensures but == ns[k] ==> SortedBut(Without(ns, k), null)
  {
  }

  lemma {:induction false} WithKeeps(ns: seq<Timer>, k: nat, t: Timer)
    requires NoneTwice(ns) && SortedBut(ns, null) && t !in ns && PlaceOf(ns, t, k)
    ensures NoneTwice(With(ns, k, t)) && SortedBut(With(ns, k, t), null)
  {
    var ms := With(ns, k, t);
    forall i, j | 0 <= i < j < |ms| ensures ms[i] != ms[j] && ms[i].expire <= ms[j].expire {
      assert i != k ==> ms[i] in ns;
      assert j != k ==> ms[j] in ns;
    }
  }

  // ---- the list ----

  class SortTimerList {
    var head: Timer?
    var tail: Timer?
    /** The timers in the list, front to back. */
    ghost var nodes: seq<Timer>

    /** The links spell out `nodes`; `tail` means nothing while the list is empty. */
    ghost predicate Linked()
      reads this, nodes
    {
      && Chain(nodes) && NoneTwice(nodes)
      && head == (if nodes == [] then null else nodes[0])
      && (nodes != [] ==> tail == nodes[|nodes| - 1])
    }

    ghost predicate Valid()
      reads this, nodes
    {
      Linked() && SortedBut(nodes, null)
    }

    lemma {:induction false} MakeValid()
      requires Chain(nodes) && NoneTwice(nodes) && SortedBut(nodes, null)
      requires nodes == [] ==> head == null
      requires nodes != [] ==> head == nodes[0] && tail == nodes[|nodes| - 1]
      ensures Valid()
    {
    }

    constructor ()
      ensures Valid() && nodes == []
    {
      head, tail, nodes := null, null, [];
    }

    method AddNode(timer: Timer) returns (ghost k: nat)
      requires Valid() && timer !in nodes && timer.prev == null && timer.next == null
      modifies this, nodes`prev, nodes`next, timer`prev, timer`next
      ensures Valid()
      ensures PlaceOf(old(nodes), timer, k) && nodes == With(old(nodes), k, timer)
    {
      hide Chain, NoneTwice, SortedBut, PlaceOf, With;
      if head == null {
        head, tail := timer, timer;
        k := 0;
        AddOnly(timer);
      } else if timer.expire < head.expire {
        k := 0;
        AddFirst(timer);
      } else {
        k := Place(timer, head, 0);
      }
    }

    ghost method AddOnly(timer: Timer)
      requires nodes == [] && timer.prev == null && timer.next == null && head == tail == timer
      modifies this`nodes
      ensures Valid() && PlaceOf([], timer, 0) && nodes == With([], 0, timer)
    {
      nodes := With([], 0, timer);
      assert LinkAt(nodes, 0);
    }

    method AddFirst(timer: Timer)
      requires Valid() && timer !in nodes && timer.prev == null && timer.next == null
      requires head != null && timer.expire < head.expire
      modifies this, nodes`prev, timer`next
      ensures Valid() && PlaceOf(old(nodes), timer, 0) && nodes == With(old(nodes), 0, timer)
    {
      hide Chain, NoneTwice, SortedBut, PlaceOf, With;
      ghost var ns := nodes;
      BeforeAll(ns, timer);
      LinkFirst(timer, head, ns);
      head := timer;
      nodes := With(ns, 0, timer);
      WithKeeps(ns, 0, timer);
      WithEnds(ns, 0, timer);
      MakeValid();
    }

    /** The private add_timer: from `lstHead` on, which is node number `h`. */
    method Place(timer: Timer, lstHead: Timer, ghost h: nat) returns (ghost k: nat)
      requires Valid() && timer !in nodes
      requires h < |nodes| && nodes[h] == lstHead && lstHead.expire <= timer.expire
      modifies this, nodes`prev, nodes`next, timer`prev, timer`next
      ensures Valid()
      ensures PlaceOf(old(nodes), timer, k) && nodes == With(old(nodes), k, timer)
    {
      hide Chain, NoneTwice, SortedBut, PlaceOf, With, LinkAt;
      ghost var ns := nodes;
      var prev, tmp;
      prev, tmp, k := Seek(timer, lstHead, h);
      if tmp != null {
        LinkBetween(timer, prev, tmp, ns, k);
      } else {
        LinkLast(timer, prev, ns);
        tail := timer;
      }
      nodes := With(ns, k, timer);
      WithKeeps(ns, k, timer);
      WithEnds(ns, k, timer);
      MakeValid();
    }

    /** The walk: `prev` and `tmp` are the neighbours of the place. */
    method Seek(timer: Timer, lstHead: Timer, ghost h: nat) returns (prev: Timer, tmp: Timer?, ghost k: nat)
      requires Valid() && h < |nodes| && nodes[h] == lstHead && lstHead.expire <= timer.expire
      ensures PlaceOf(nodes, timer, k) && 0 < k <= |nodes| && nodes[k - 1] == prev
      ensures tmp == if k < |nodes| then nodes[k] else null
    {
      hide Chain, NoneTwice, SortedBut, PlaceOf;
      prev := lstHead;
      tmp := prev.next;
      LinkOf(nodes, h);
      k := h + 1;
      while tmp != null
        invariant h < k <= |nodes| && nodes[k - 1] == prev && tmp == (if k < |nodes| then nodes[k] else null)
        invariant prev.expire <= timer.expire
        decreases |nodes| - k
      {
        if timer.expire < tmp.expire {
          break;
        }
        LinkOf(nodes, k);
        prev := tmp;
        tmp := tmp.next;
        k := k + 1;
      }
      PlaceIs(nodes, timer, k);
    }

    method DelNode(timer: Timer) returns (ghost k: nat)
      requires Valid() && timer in nodes
      modifies this, nodes`prev, nodes`next
      ensures Valid()
      ensures k < |old(nodes)| && old(nodes)[k] == timer && nodes == Without(old(nodes), k)
    {
      hide Chain, SortedBut, NoneTwice, Without;
      ghost var ns := nodes;
      k :| 0 <= k < |ns| && ns[k] == timer;
      Detach(timer, k);
      nodes := Without(ns, k);
      WithoutKeeps(ns, k, null);
      WithoutEnds(ns, k);
      MakeValid();
    }

    /** add_timer: in front of the first timer that expires later. */
    method AddTimer(timer: Timer?)
      requires Valid()
      requires timer != null ==> timer !in nodes && timer.prev == null && timer.next == null
      modifies this, nodes`prev, nodes`next, timer
      ensures Valid()
      ensures timer == null ==> nodes == old(nodes)
      ensures timer != null ==>
        && timer.expire == old(timer.expire)
        && multiset(nodes) == multiset(old(nodes)) + multiset{timer}
        && (forall t :: t in nodes ==> t == timer || t in old(nodes))
        && Entries(nodes) == Insert(old(Entries(nodes)), EntryOf(timer))
    {
      hide Chain, NoneTwice, SortedBut, PlaceOf, With, Entries, Insert, LinkAt;
      if timer == null {
        return;
      }
      ghost var k := AddNode(timer);
      EntriesWith(old(nodes), k, timer);
      NodesWith(old(nodes), k, timer);
    }

    /** adjust_timer, after the expiry of the timer was raised or left as it was. */
    method AdjustTimer(timer: Timer?)
      requires Linked() && (if timer == null then SortedBut(nodes, null) else timer in nodes && SortedBut(nodes, timer))
      modifies this, nodes`prev, nodes`next
      ensures Valid() && multiset(nodes) == multiset(old(nodes))
      ensures forall t :: t in nodes ==> t in old(nodes)
      ensures timer == null ==> nodes == old(nodes)
      ensures timer != null ==> Entries(nodes) == Insert(Remove(old(Entries(nodes)), timer), EntryOf(timer))
    {
      hide Chain, NoneTwice, SortedBut, PlaceOf, With, Without, Entries, Insert, Remove, LinkAt;
      if timer == null {
        return;
      }
      ghost var k, p := AdjustNode(timer);
      EntriesWithout(old(nodes), k);
      EntriesWith(Without(old(nodes), k), p, timer);
      NodesWithout(old(nodes), k);
      NodesWith(Without(old(nodes), k), p, timer);
    }

    /** del_timer. */
    method DelTimer(timer: Timer?)
      requires Valid() && (timer != null ==> timer in nodes)
      modifies this, nodes`prev, nodes`next
      ensures Valid()
      ensures timer == null ==> nodes == old(nodes)
      ensures timer != null ==>
        && timer !in nodes
        && multiset(old(nodes)) == multiset(nodes) + multiset{timer}
        && (forall t :: t in nodes ==> t in old(nodes))
        && Entries(nodes) == Remove(old(Entries(nodes)), timer)
    {
      hide Chain, NoneTwice, SortedBut, Without, Entries, Remove, LinkAt;
      if timer == null {
        return;
      }
      ghost var k := DelNode(timer);
      EntriesWithout(old(nodes), k);
      NodesWithout(old(nodes), k);
    }

    /** The four cases of del_timer: the only one, the head, the tail, one in between. */
    method Detach(timer: Timer, ghost k: nat)
      requires Linked() && k < |nodes| && nodes[k] == timer
      modifies this`head, this`tail, nodes`prev, nodes`next
      ensures Chain(Without(nodes, k))
      ensures head == (if |nodes| == 1 then null else if k == 0 then nodes[1] else nodes[0])
      ensures |nodes| > 1 ==> tail == nodes[if k == |nodes| - 1 then |nodes| - 2 else |nodes| - 1]
    {
      hide Chain, NoneTwice, Without, LinkAt;
      ghost var ns := nodes;
      EndsOf(ns, k);
      WithoutEnd(ns);
      if timer == head && timer == tail {
        head := null;
        tail := null;
        EmptyChain(ns[1..]);
      } else if timer == head {
        UnlinkFirst(timer, ns);
        head := head.next;
      } else if timer == tail {
        UnlinkLast(timer, ns);
        tail := tail.prev;
      } else {
        Unlink(timer, ns, k);
      }
    }

    /** The expiry of `timer` may have been raised since the list was sorted.  The timer
        moves behind every other one that does not expire later. */
    method AdjustNode(timer: Timer) returns (ghost k: nat, ghost p: nat)
      requires Linked() && timer in nodes && SortedBut(nodes, timer)
      modifies this, nodes`prev, nodes`next
      ensures Valid()
      ensures k < |old(nodes)| && old(nodes)[k] == timer
      ensures PlaceOf(Without(old(nodes), k), timer, p) && nodes == With(Without(old(nodes), k), p, timer)
    {
      hide Chain, NoneTwice, Without, With, SortedBut;
      ghost var ns := nodes;
      k :| 0 <= k < |ns| && ns[k] == timer;
      LinkOf(ns, k);
      var tmp := timer.next;
      if tmp == null || timer.expire < tmp.expire {
        p := k;
        StaysThere(ns, k);
        return;
      }
      var lstHead := TakeOut(timer, k);
      p := Place(timer, lstHead, k);
    }

    /** adjust_timer takes the timer out of the list; it goes on behind its successor. */
    method TakeOut(timer: Timer, ghost k: nat) returns (lstHead: Timer)
      requires Linked() && k + 1 < |nodes| && nodes[k] == timer && SortedBut(nodes, timer)
      modifies this, nodes`prev, nodes`next
      ensures Valid() && nodes == Without(old(nodes), k) && timer !in nodes
      ensures forall i :: 0 <= i < |nodes| ==> nodes[i] in old(nodes)
      ensures k < |nodes| && nodes[k] == lstHead == old(timer.next)
    {
      hide Chain, NoneTwice, Without, SortedBut, LinkAt;
      ghost var ns := nodes;
      lstHead := CutOut(timer, k);
      nodes := Without(ns, k);
      WithoutKeeps(ns, k, timer);
      WithoutEnds(ns, k);
      WithoutAt(ns, k);
      WithoutIn(ns, k);
      MakeValid();
    }

    /** The links around the timer, and m_head when the timer was there. */
    method CutOut(timer: Timer, ghost k: nat) returns (lstHead: Timer)
      requires Linked() && k + 1 < |nodes| && nodes[k] == timer
      modifies this`head, nodes`prev, nodes`next
      ensures Chain(Without(nodes, k)) && lstHead == old(timer.next) == nodes[k + 1]
      ensures head == if k == 0 then nodes[1] else nodes[0]
    {
      hide Chain, NoneTwice, Without;
      ghost var ns := nodes;
      LinkOf(ns, k);
      EndsOf(ns, k);
      if timer == head {
        lstHead := FreeFirst(timer, ns);
        WithoutEnd(ns);
        head := lstHead;
      } else {
        Unlink(timer, ns, k);
        lstHead := timer.next;
      }
    }

    /** tick at time `now`; `closed` are the connections whose callback ran, in order. */
    method Tick(now: int) returns (closed: seq<nat>, ghost n: nat)
      requires Valid()
      modifies this, nodes`prev
      ensures Valid()
      ensures n <= |old(nodes)| && nodes == old(nodes)[n..]
      ensures closed == Users(old(nodes)[..n])
      ensures forall i :: 0 <= i < |old(nodes)| ==> (i < n <==> old(nodes)[i].expire <= now)
      ensures SortedBut(old(nodes), null)
    {
      hide Chain, NoneTwice, SortedBut, Users;
      ghost var ns := nodes;
      closed, n := [], 0;
      NoUsers(ns);
      var tmp := head;
      while tmp != null
        invariant n <= |ns| && nodes == ns[n..] && Valid() && tmp == head
        invariant closed == Users(ns[..n])
        invariant forall i :: 0 <= i < n ==> ns[i].expire <= now
        decreases |ns| - n
      {
        if now < tmp.expire {
          break;
        }
        closed := closed + [tmp.user];
        UsersOn(ns, n);
        n := n + 1;
        DropHead();
        tmp := head;
      }
      ExpiredFront(ns, n, now);
    }

    /** head = tmp->next; if( head ) head->prev = NULL; */
    method DropHead()
      requires Valid() && head != null
      modifies this, nodes`prev
      ensures Valid() && nodes == old(nodes)[1..]
    {
      hide Chain, NoneTwice, SortedBut, Without;
      ghost var ns := nodes;
      var tmp := head;
      LinkOf(ns, 0);
      head := tmp.next;
      if head != null {
        UnlinkFirst(tmp, ns);
      } else {
        EmptyChain(ns[1..]);
      }
      WithoutEnd(ns);
      nodes := Without(ns, 0);
      WithoutKeeps(ns, 0, null);
      WithoutEnds(ns, 0);
      MakeValid();
    }
  }

  // ---- the list as a sequence of entries ----

  ghost function EntryOf(t: Timer): Entry<Timer>
    reads t`expire
  {
    Entry(t, t.expire, t.user)
  }

  ghost function Entries(ns: seq<Timer>): (r: seq<Entry<Timer>>)
    reads ns`expire
    ensures |r| == |ns| && forall i :: 0 <= i < |ns| ==> r[i] == EntryOf(ns[i])
  {
    if ns == [] then [] else [EntryOf(ns[0])] + Entries(ns[1..])
  }

  lemma {:induction false} EntriesWith(ns: seq<Timer>, k: nat, t: Timer)
    requires PlaceOf(ns, t, k)
    ensures k <= |ns| && Entries(With(ns, k, t)) == Insert(Entries(ns), EntryOf(t))
  {
    hide With;
    var es, e := Entries(ns), EntryOf(t);
    ExpiredIs(es, t.expire, k);
    WithIs(ns, k, t, 0);
    var a, b := Entries(With(ns, k, t)), es[..k] + [e] + es[k..];
    assert |a| == |b|;
    forall i | 0 <= i < |a| ensures a[i] == b[i] {
      WithIs(ns, k, t, i);
      assert a[i] == EntryOf(With(ns, k, t)[i]);
      if i == k {
        assert b[i] == e;
      } else {
        var j := if i < k then i else i - 1;
        assert With(ns, k, t)[i] == ns[j] && b[i] == es[j] == EntryOf(ns[j]);
      }
    }
  }

  lemma {:induction false} WithIs(ns: seq<Timer>, k: nat, t: Timer, i: nat)
    requires k <= |ns| && i <= |ns|
    ensures |With(ns, k, t)| == |ns| + 1
    ensures With(ns, k, t)[i] == if i < k then ns[i] else if i == k then t else ns[i - 1]
  {
  }

  lemma {:induction false} WithoutIs(ns: seq<Timer>, k: nat, i: nat)
    requires k < |ns|
    ensures |Without(ns, k)| == |ns| - 1
    ensures i < |ns| - 1 ==> Without(ns, k)[i] == if i < k then ns[i] else ns[i + 1]
  {
  }

  lemma {:induction false} EntriesWithout(ns: seq<Timer>, k: nat)
    requires k < |ns| && NoneTwice(ns)
    ensures Entries(Without(ns, k)) == Remove(Entries(ns), ns[k])
  {
    hide Without;
    var es := Entries(ns);
    IndexIs(es, k);
    WithoutIs(ns, k, 0);
    var a, b := Entries(Without(ns, k)), es[..k] + es[k + 1..];
    assert |a| == |b|;
    forall i | 0 <= i < |a| ensures a[i] == b[i] {
      var j := if i < k then i else i + 1;
      WithoutIs(ns, k, i);
      assert a[i] == EntryOf(Without(ns, k)[i]);
      assert Without(ns, k)[i] == ns[j] && b[i] == es[j] == EntryOf(ns[j]);
    }
  }

  lemma {:induction false} NodesWith(ns: seq<Timer>, k: nat, t: Timer)
    requires k <= |ns|
    ensures multiset(With(ns, k, t)) == multiset(ns) + multiset{t}
    ensures forall x :: x in With(ns, k, t) ==> x == t || x in ns
  {
    assert ns == ns[..k] + ns[k..];
  }

  lemma {:induction false} NodesWithout(ns: seq<Timer>, k: nat)
    requires k < |ns| && NoneTwice(ns)
    ensures multiset(ns) == multiset(Without(ns, k)) + multiset{ns[k]} && ns[k] !in Without(ns, k)
    ensures forall x :: x in Without(ns, k) ==> x in ns
  {
    assert ns == ns[..k] + [ns[k]] + ns[k + 1..];
  }

  /** What tick closes and what it leaves, in terms of entries. */
  lemma {:induction false} EntriesDrop(ns: seq<Timer>, n: nat, now: int)
    requires n <= |ns| && SortedBut(ns, null)
    requires forall i :: 0 <= i < |ns| ==> (i < n <==> ns[i].expire <= now)
    ensures n == Expired(Entries(ns), now) && Entries(ns[n..]) == Entries(ns)[n..]
    ensures forall i :: 0 <= i < n ==> Users(ns[..n])[i] == Entries(ns)[i].user
  {
    ExpiredIs(Entries(ns), now, n);
  }

  /** The connections of timers. */
  function Users(ns: seq<Timer>): (r: seq<nat>)
    ensures |r| == |ns|
  {
    seq(|ns|, i requires 0 <= i < |ns| => ns[i].user)
  }

  lemma {:induction false} NoUsers(ns: seq<Timer>)
    ensures Users(ns[..0]) == []
  {
  }

  /** In a sorted list the timers in front of one that has not expired are all that have. */
  lemma {:induction false} ExpiredFront(ns: seq<Timer>, n: nat, now: int)
    requires SortedBut(ns, null) && n <= |ns| && (n < |ns| ==> now < ns[n].expire)
    requires forall i :: 0 <= i < n ==> ns[i].expire <= now
    ensures forall i :: 0 <= i < |ns| ==> (i < n <==> ns[i].expire <= now)
  {
  }

  lemma {:induction false} UsersOn(ns: seq<Timer>, n: nat)
    requires n < |ns|
    ensures Users(ns[..n + 1]) == Users(ns[..n]) + [ns[n].user]
  {
  }

  /** A timer that still expires before the next one is in its place. */
  lemma {:induction false} StaysThere(ns: seq<Timer>, k: nat)
    requires k < |ns| && SortedBut(ns, ns[k]) && NoneTwice(ns)
    requires k + 1 < |ns| ==> ns[k].expire < ns[k + 1].expire
    ensures PlaceOf(Without(ns, k), ns[k], k) && With(Without(ns, k), k, ns[k]) == ns
    ensures SortedBut(ns, null)
  {
    assert With(Without(ns, k), k, ns[k]) == ns;
    forall i | k < i < |ns| ensures ns[k].expire < ns[i].expire {
      assert i == k + 1 || ns[k + 1].expire <= ns[i].expire;
    }
  }

  lemma {:induction false} PlaceIs(ns: seq<Timer>, t: Timer, k: nat)
    requires SortedBut(ns, null) && 0 < k <= |ns|
    requires ns[k - 1].expire <= t.expire && (k < |ns| ==> t.expire < ns[k].expire)
    ensures PlaceOf(ns, t, k)
  {
  }

  lemma {:induction false} BeforeAll(ns: seq<Timer>, t: Timer)
    requires SortedBut(ns, null) && ns != [] && t.expire < ns[0].expire
    ensures PlaceOf(ns, t, 0)
  {
  }

  /** Where a timer is the head or the tail. */
  lemma {:induction false} EndsOf(ns: seq<Timer>, k: nat)
    requires NoneTwice(ns) && k < |ns|
    ensures ns[k] == ns[0] <==> k == 0
    ensures ns[k] == ns[|ns| - 1] <==> k == |ns| - 1
  {
  }

  lemma {:induction false} WithoutEnds(ns: seq<Timer>, k: nat)
    requires k < |ns|
    ensures var ms := Without(ns, k);
      |ms| == |ns| - 1
      && (|ns| > 1 ==> ms[0] == (if k == 0 then ns[1] else ns[0])
                       && ms[|ns| - 2] == (if k == |ns| - 1 then ns[|ns| - 2] else ns[|ns| - 1]))
  {
  }

  lemma {:induction false} WithoutIn(ns: seq<Timer>, k: nat)
    requires k < |ns|
    ensures forall i :: 0 <= i < |Without(ns, k)| ==> Without(ns, k)[i] in ns
  {
  }

  lemma {:induction false} WithoutAt(ns: seq<Timer>, k: nat)
    requires k + 1 < |ns|
    ensures k < |Without(ns, k)| && Without(ns, k)[k] == ns[k + 1]
  {
  }

  lemma {:induction false} WithoutEnd(ns: seq<Timer>)
    requires ns != []
    ensures Without(ns, 0) == ns[1..] && Without(ns, |ns| - 1) == ns[..|ns| - 1]
  {
  }

  lemma {:induction false} WithEnds(ns: seq<Timer>, k: nat, t: Timer)
    requires k <= |ns|
    ensures var ms := With(ns, k, t);
      |ms| == |ns| + 1 && ms[0] == (if k == 0 then t else ns[0]) && ms[|ns|] == (if k == |ns| then t else ns[|ns| - 1])
  {
  }

  lemma {:induction false} EmptyChain(ns: seq<Timer>)
    requires ns == []
    ensures Chain(ns)
  {
  }
}
