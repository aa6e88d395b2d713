/** A list of timers kept in the order of expiry, as a sequence. */
module TimerSpec {

  /** One timer: which one it is, when it expires, and the connection it belongs to. */
  datatype Entry<T> = Entry(id: T, expire: int, user: nat)

  predicate Sorted<T>(es: seq<Entry<T>>) {
    forall i, j :: 0 <= i < j < |es| ==> es[i].expire <= es[j].expire
  }

  /** No timer occurs twice. */
  predicate Distinct<T(==)>(es: seq<Entry<T>>) {
    forall i, j :: 0 <= i < j < |es| ==> es[i].id != es[j].id
  }

  /** How many timers at the front have expired by `now`. */
  function Expired<T>(es: seq<Entry<T>>, now: int, from: nat := 0): (n: nat)
    requires from <= |es|
    ensures from <= n <= |es|
    ensures forall i :: from <= i < n ==> es[i].expire <= now
    ensures n < |es| ==> now < es[n].expire
    decreases |es| - from
  {
    if from == |es| || now < es[from].expire then from else Expired(es, now, from + 1)
  }

  /** The number of the first timer `id`, or |es|. */
  function IndexOf<T(==)>(es: seq<Entry<T>>, id: T, from: nat := 0): (n: nat)
    requires from <= |es|
    ensures from <= n <= |es|
    ensures forall i :: from <= i < n ==> es[i].id != id
    ensures n < |es| ==> es[n].id == id
    decreases |es| - from
  {
    if from == |es| || es[from].id == id then from else IndexOf(es, id, from + 1)
  }

  /** In front of the first timer that expires later. */
  function Insert<T>(es: seq<Entry<T>>, e: Entry<T>): (r: seq<Entry<T>>)
    ensures |r| == |es| + 1
  {
    var k := Expired(es, e.expire);
    es[..k] + [e] + es[k..]
  }

  function Remove<T(==)>(es: seq<Entry<T>>, id: T): (r: seq<Entry<T>>) {
    var k := IndexOf(es, id);
    if k == |es| then es else es[..k] + es[k + 1..]
  }

  lemma {:induction false} ExpiredIs<T>(es: seq<Entry<T>>, now: int, n: nat)
    requires n <= |es| && (forall i :: 0 <= i < n ==> es[i].expire <= now)
    requires n < |es| ==> now < es[n].expire
    ensures Expired(es, now) == n
  {
    var r := Expired(es, now);
    assert r < |es| ==> now < es[r].expire;
  }

  lemma {:induction false} IndexIs<T>(es: seq<Entry<T>>, k: nat)
    requires k < |es| && Distinct(es)
    ensures IndexOf(es, es[k].id) == k
  {
    var r := IndexOf(es, es[k].id);
    assert r < |es| ==> es[r].id == es[k].id;
  }

  /** Insertion keeps the order, and puts the timer behind every one that does not expire later. */
  lemma {:induction false} InsertSorted<T>(es: seq<Entry<T>>, e: Entry<T>) returns (k: nat)
    requires Sorted(es)
    ensures Sorted(Insert(es, e)) && k <= |es|
    ensures Insert(es, e) == es[..k] + [e] + es[k..]
    ensures forall i :: 0 <= i < |es| ==> (i < k <==> es[i].expire <= e.expire)
  {
    k := Expired(es, e.expire);
    var r := Insert(es, e);
    forall i, j | 0 <= i < j < |r| ensures r[i].expire <= r[j].expire {
      assert r[i] == if i < k then es[i] else if i == k then e else es[i - 1];
      assert r[j] == if j < k then es[j] else if j == k then e else es[j - 1];
    }
  }

  /** In a sorted list the timers that tick takes from the front are all that have expired. */
  lemma {:induction false} ExpiredAll<T>(es: seq<Entry<T>>, now: int)
    requires Sorted(es)
    ensures forall i :: 0 <= i < |es| ==> (i < Expired(es, now) <==> es[i].expire <= now)
  {
  }

  /** The list without number `k`. */
  function CutAt<T>(es: seq<Entry<T>>, k: nat): (r: seq<Entry<T>>)
    requires k < |es|
    ensures |r| == |es| - 1 && forall i :: 0 <= i < |r| ==> r[i] == es[if i < k then i else i + 1]
  {
    es[..k] + es[k + 1..]
  }

  /** Sorted, no timer twice, and all expiries above `lo` and up to `hi`. */
  predicate Good<T(==)>(es: seq<Entry<T>>, lo: int, hi: int) {
    && Sorted(es) && Distinct(es)
    && forall i :: 0 <= i < |es| ==> lo < es[i].expire <= hi
  }

  lemma {:induction false} CutGood<T>(es: seq<Entry<T>>, k: nat, lo: int, hi: int)
    requires Good(es, lo, hi) && k < |es|
    ensures Good(CutAt(es, k), lo, hi) && Remove(es, es[k].id) == CutAt(es, k)
    ensures forall i :: 0 <= i < |es| - 1 ==> CutAt(es, k)[i].id != es[k].id
  {
    IndexIs(es, k);
  }

  /** Under a clock that does not run backwards, a timer added or adjusted goes to the tail. */
  lemma {:induction false} PushGood<T>(es: seq<Entry<T>>, e: Entry<T>, lo: int, hi: int)
    requires Good(es, lo, hi) && lo < e.expire && hi <= e.expire
    requires forall i :: 0 <= i < |es| ==> es[i].id != e.id
    ensures Insert(es, e) == es + [e] && Good(es + [e], lo, e.expire)
  {
    ExpiredIs(es, e.expire, |es|);
    assert es[..|es|] == es && es[|es|..] == [];
  }

  lemma {:induction false} DropGood<T>(es: seq<Entry<T>>, n: nat, lo: int, hi: int, now: int)
    requires Good(es, lo, hi) && n == Expired(es, now)
    ensures Good(es[n..], now, hi) && forall i :: 0 <= i < |es| ==> (i < n <==> es[i].expire <= now)
  {
    ExpiredAll(es, now);
  }

  lemma {:induction false} CutIn<T>(es: seq<Entry<T>>, k: nat, x: Entry<T>)
    requires k < |es| && x in es && x != es[k]
    ensures x in CutAt(es, k)
  {
    var i :| 0 <= i < |es| && es[i] == x;
    assert CutAt(es, k)[if i < k then i else i - 1] == x;
  }

  lemma {:induction false} DropIn<T>(es: seq<Entry<T>>, now: int, x: Entry<T>)
    requires x in es && now < x.expire
    ensures x in es[Expired(es, now)..]
  {
    var n := Expired(es, now);
    var i :| 0 <= i < |es| && es[i] == x;
    assert n <= i && es[n..][i - n] == x;
  }
}
