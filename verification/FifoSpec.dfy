/** A bounded first-in-first-out queue: what `block_queue` promises, one operation at a
    time, and what that means for whole runs of operations. */
module FifoSpec {

  datatype Op<T> = Push(item: T) | Pop | Back | Full | Empty | Size | Clear

  /** `Blocked` is a pop that would wait. */
  datatype Reply<T> = Done(ok: bool) | Item(item: T) | Blocked | Count(n: nat)

  function ReplyTo<T>(q: seq<T>, max: nat, op: Op<T>): Reply<T> {
    match op
    case Push(_) => Done(|q| < max)
    case Pop => if q == [] then Blocked else Item(q[0])
    case Back => if q == [] then Done(false) else Item(q[|q| - 1])
    case Full => Done(|q| >= max)
    case Empty => Done(q == [])
    case Size => Count(|q|)
    case Clear => Done(true)
  }

  function Apply<T>(q: seq<T>, max: nat, op: Op<T>): seq<T> {
    match op
    case Push(item) => if |q| < max then q + [item] else q
    case Pop => if q == [] then q else q[1..]
    case Clear => []
    case _ => q
  }

  function After<T>(q: seq<T>, max: nat, ops: seq<Op<T>>): seq<T>
    decreases |ops|
  {
    if ops == [] then q else After(Apply(q, max, ops[0]), max, ops[1..])
  }

  /** What one operation puts in: the item of a push that is answered true. */
  function Came<T>(q: seq<T>, max: nat, op: Op<T>): seq<T> {
    if op.Push? && ReplyTo(q, max, op) == Done(true) then [op.item] else []
  }

  /** What one operation takes out: the item a pop hands out, all that a clear discards. */
  function Gone<T>(q: seq<T>, max: nat, op: Op<T>): seq<T> {
    match op
    case Pop => (match ReplyTo(q, max, op) case Item(item) => [item] case _ => [])
    case Clear => q
    case _ => []
  }

  function Accepted<T>(q: seq<T>, max: nat, ops: seq<Op<T>>): seq<T>
    decreases |ops|
  {
    if ops == [] then []
    else Came(q, max, ops[0]) + Accepted(Apply(q, max, ops[0]), max, ops[1..])
  }

  function Departed<T>(q: seq<T>, max: nat, ops: seq<Op<T>>): seq<T>
    decreases |ops|
  {
    if ops == [] then []
    else Gone(q, max, ops[0]) + Departed(Apply(q, max, ops[0]), max, ops[1..])
  }

  lemma {:induction false} OneStep<T>(q: seq<T>, max: nat, op: Op<T>)
    requires |q| <= max
    ensures Gone(q, max, op) + Apply(q, max, op) == q + Came(q, max, op)
    ensures |Apply(q, max, op)| <= max
  {
    if op.Pop? && q != [] {
      assert q == [q[0]] + q[1..];
    }
  }

  lemma {:induction false} Regroup<T>(
    gone: seq<T>, out: seq<T>, rest: seq<T>, q': seq<T>, taken: seq<T>, q: seq<T>, came: seq<T>)
    requires gone + q' == q + came && out + rest == q' + taken
    ensures (gone + out) + rest == q + (came + taken)
  {
    assert (gone + out) + rest == gone + (out + rest);
    assert gone + (q' + taken) == (gone + q') + taken;
    assert (q + came) + taken == q + (came + taken);
  }

  /** Whatever the run, the items leave in exactly the order in which they were accepted,
      each once, and the queue is what has not left yet; it never outgrows its bound. */
  lemma {:induction false} FirstInFirstOut<T>(q: seq<T>, max: nat, ops: seq<Op<T>>)
    requires |q| <= max
    ensures Departed(q, max, ops) + After(q, max, ops) == q + Accepted(q, max, ops)
    ensures |After(q, max, ops)| <= max
    decreases |ops|
  {
    hide Apply, Gone, Came;
    if ops != [] {
      var q' := Apply(q, max, ops[0]);
      var gone, came := Gone(q, max, ops[0]), Came(q, max, ops[0]);
      var out, taken := Departed(q', max, ops[1..]), Accepted(q', max, ops[1..]);
      OneStep(q, max, ops[0]);
      FirstInFirstOut(q', max, ops[1..]);
      Regroup(gone, out, After(q', max, ops[1..]), q', taken, q, came);
    }
  }
}
