/** The asynchronous log: write_log on the producers' side, async_write_log on the
    consumer's, and the bounded queue between them.  Lines are numbered in the order in
    which write_log formats them, so that two equal texts are still two lines. */
module LogPipeline {
  import opened Wrappers

  /** Where a producer is in write_log: the line is formatted, full() said no, or the line
      is to go to the file directly. */
  datatype Pc = Idle | Ready(line: nat) | WillPush(line: nat) | WillWrite(line: nat)

  /** A line in the file; `direct` if write_log put it there itself. */
  datatype Entry = Entry(line: nat, direct: bool)

  /** `next` is the number of lines formatted; `queued` and `lost` are history: the lines
      whose push succeeded, and those whose push was refused. */
  datatype Log = Log(
    isAsync: bool, max: nat, producers: seq<Pc>, queue: seq<nat>, hand: Option<nat>, file: seq<Entry>,
    next: nat, queued: seq<nat>, lost: seq<nat>)

  function Start(isAsync: bool, max: nat, producers: nat): Log {
    Log(isAsync, max, seq(producers, _ => Idle), [], None, [], 0, [], [])
  }

  /** Producer `i` goes on, or the consumer does. */
  datatype Step = Producer(i: nat) | Consumer

  predicate Enabled(s: Log, step: Step) {
    match step
    case Producer(i) => i < |s.producers|
    case Consumer => s.hand.Some? || s.queue != []
  }

  function NextPc(s: Log, t: Pc): Pc {
    match t
    case Idle => Ready(s.next)
    case Ready(line) => if s.isAsync && !(|s.queue| >= s.max) then WillPush(line) else WillWrite(line)
    case WillPush(_) => Idle
    case WillWrite(_) => Idle
  }

  function Produce(s: Log, i: nat): Log
    requires i < |s.producers|
  {
    var t := s.producers[i];
    var fits := t.WillPush? && |s.queue| < s.max;
    s.(producers := s.producers[i := NextPc(s, t)],
       next := if t.Idle? then s.next + 1 else s.next,
       queue := if fits then s.queue + [t.line] else s.queue,
       queued := if fits then s.queued + [t.line] else s.queued,
       lost := if t.WillPush? && !fits then s.lost + [t.line] else s.lost,
       file := if t.WillWrite? then s.file + [Entry(t.line, true)] else s.file)
  }

  function Consume(s: Log): Log
    requires Enabled(s, Consumer)
  {
    if s.hand.Some?
    then s.(hand := None, file := s.file + [Entry(s.hand.value, false)])
    else s.(hand := Some(s.queue[0]), queue := s.queue[1..])
  }

  function Next(s: Log, step: Step): Log
    requires Enabled(s, step)
  {
    match step
    case Producer(i) => Produce(s, i)
    case Consumer => Consume(s)
  }

  predicate Possible(s: Log, run: seq<Step>)
    decreases |run|
  {
    run == [] || (Enabled(s, run[0]) && Possible(Next(s, run[0]), run[1..]))
  }

  function After(s: Log, run: seq<Step>): Log
    requires Possible(s, run)
    decreases |run|
  {
    if run == [] then s else After(Next(s, run[0]), run[1..])
  }

  // ---- every line is somewhere, once ----

  function Carries(t: Pc): seq<nat> {
    if t.Idle? then [] else [t.line]
  }

  function InHand(hand: Option<nat>): seq<nat> {
    if hand.Some? then [hand.value] else []
  }

  function Lines(file: seq<Entry>): (r: seq<nat>)
    ensures |r| == |file|
  {
    seq(|file|, k requires 0 <= k < |file| => file[k].line)
  }

  function Times(lines: seq<nat>, line: nat): nat {
    multiset(lines)[line]
  }

  lemma {:induction false} TimesAppend(lines: seq<nat>, x: nat, line: nat)
    ensures Times(lines + [x], line) == Times(lines, line) + Times([x], line)
  {
  }

  lemma {:induction false} TimesFirst(lines: seq<nat>, line: nat)
    requires lines != []
    ensures Times(lines, line) == Times([lines[0]], line) + Times(lines[1..], line)
  {
    assert lines == [lines[0]] + lines[1..];
  }

  /** How often `line` is carried by a producer. */
  function Carried(ps: seq<Pc>, line: nat): nat {
    if ps == [] then 0 else Times(Carries(ps[0]), line) + Carried(ps[1..], line)
  }

  /** How often `line` exists in the whole pipeline. */
  function Copies(s: Log, line: nat): nat {
    Times(Lines(s.file), line) + Times(InHand(s.hand), line) + Times(s.queue, line)
    + Carried(s.producers, line) + Times(s.lost, line)
  }

  lemma {:induction false} CarriedUpdate(ps: seq<Pc>, i: nat, t: Pc, line: nat)
    requires i < |ps|
    ensures Carried(ps[i := t], line) + Times(Carries(ps[i]), line) == Carried(ps, line) + Times(Carries(t), line)
  {
    hide Carries, Times;
    if i == 0 {
      assert ps[i := t][1..] == ps[1..];
    } else {
      assert ps[i := t][1..] == ps[1..][i - 1 := t];
      CarriedUpdate(ps[1..], i - 1, t, line);
    }
  }

  lemma {:induction false} LinesAppend(file: seq<Entry>, e: Entry)
    ensures Lines(file + [e]) == Lines(file) + [e.line]
  {
  }

  lemma {:induction false} CarriesStep(s: Log, t: Pc, line: nat)
    ensures Times(Carries(NextPc(s, t)), line)
         == if t.Idle? then (if line == s.next then 1 else 0) else if t.Ready? then Times(Carries(t), line) else 0
    ensures !t.Idle? ==> Carries(t) == [t.line]
    ensures t.Idle? ==> Times(Carries(t), line) == 0
  {
  }

  /** What a producer's action does to everything but the producers. */
  lemma {:induction false} PlacesStep(s: Log, i: nat, line: nat)
    requires i < |s.producers|
    ensures var s', t := Produce(s, i), s.producers[i];
      Times(Lines(s'.file), line) + Times(s'.queue, line) + Times(s'.lost, line)
      == Times(Lines(s.file), line) + Times(s.queue, line) + Times(s.lost, line)
         + (if t.WillPush? || t.WillWrite? then Times([t.line], line) else 0)
  {
    hide Lines, Times, NextPc;
    var t := s.producers[i];
    if t.WillWrite? {
      LinesAppend(s.file, Entry(t.line, true));
      TimesAppend(Lines(s.file), t.line, line);
    } else if t.WillPush? {
      TimesAppend(s.queue, t.line, line);
      TimesAppend(s.lost, t.line, line);
    }
  }

  lemma {:induction false} ProduceCopies(s: Log, i: nat, line: nat)
    requires i < |s.producers|
    ensures Copies(Produce(s, i), line) ==
            Copies(s, line) + (if s.producers[i].Idle? && line == s.next then 1 else 0)
  {
    var t := s.producers[i];
    CarriedUpdate(s.producers, i, NextPc(s, t), line);
    CarriesStep(s, t, line);
    PlacesStep(s, i, line);
    hide Carried, Lines, Times, Carries, NextPc;
  }

  lemma {:induction false} ConsumeCopies(s: Log, line: nat)
    requires Enabled(s, Consumer)
    ensures Copies(Consume(s), line) == Copies(s, line)
  {
    assert Times([], line) == 0;
    hide Carried, Lines, Times;
    if s.hand.Some? {
      LinesAppend(s.file, Entry(s.hand.value, false));
      TimesAppend(Lines(s.file), s.hand.value, line);
    } else {
      TimesFirst(s.queue, line);
    }
  }

  ghost predicate EachOnce(s: Log) {
    forall line: nat :: Copies(s, line) == if line < s.next then 1 else 0
  }

  lemma {:induction false} KeepsEachOnce(s: Log, step: Step)
    requires EachOnce(s) && Enabled(s, step)
    ensures EachOnce(Next(s, step))
  {
    hide Copies;
    forall line: nat
      ensures Copies(Next(s, step), line) == if line < Next(s, step).next then 1 else 0
    {
      if step.Producer? {
        ProduceCopies(s, step.i, line);
      } else {
        ConsumeCopies(s, line);
      }
    }
  }

  lemma {:induction false} RunKeepsEachOnce(s: Log, run: seq<Step>)
    requires EachOnce(s) && Possible(s, run)
    ensures EachOnce(After(s, run))
    decreases |run|
  {
    hide EachOnce, Next;
    if run != [] {
      KeepsEachOnce(s, run[0]);
      RunKeepsEachOnce(Next(s, run[0]), run[1..]);
    }
  }

  lemma {:induction false} StartEachOnce(isAsync: bool, max: nat, producers: nat)
    ensures EachOnce(Start(isAsync, max, producers))
  {
    forall line: nat ensures Copies(Start(isAsync, max, producers), line) == 0 {
      NobodyCarries(producers, line);
    }
  }

  lemma {:induction false} NobodyCarries(producers: nat, line: nat)
    ensures Carried(seq(producers, _ => Idle), line) == 0
  {
    if producers > 0 {
      NobodyCarries(producers - 1, line);
      assert seq(producers, _ => Idle)[1..] == seq(producers - 1, _ => Idle);
    }
  }

  /** Whatever the interleaving of any number of producers and the consumer, each line
      formatted is in exactly one place: the file, the consumer's hand, the queue, a
      producer's hand, or lost in a refused push. */
  lemma {:induction false} LinesAreConserved(isAsync: bool, max: nat, producers: nat, run: seq<Step>, line: nat)
    requires Possible(Start(isAsync, max, producers), run)
    ensures var s := After(Start(isAsync, max, producers), run);
      Copies(s, line) == if line < s.next then 1 else 0
  {
    StartEachOnce(isAsync, max, producers);
    RunKeepsEachOnce(Start(isAsync, max, producers), run);
    hide Copies;
  }

  // ---- full() answered before push ----

  /** What full() said still holds: only the consumer has touched the queue since. */
  predicate RoomInv(s: Log) {
    && |s.queue| <= s.max
    && s.lost == []
    && (forall i :: 0 <= i < |s.producers| && s.producers[i].WillPush? ==> |s.queue| < s.max)
  }

  lemma {:induction false} KeepsRoom(s: Log, step: Step)
    requires RoomInv(s) && Enabled(s, step) && |s.producers| <= 1
    ensures RoomInv(Next(s, step)) && |Next(s, step).producers| <= 1
  {
  }

  lemma {:induction false} RunKeepsRoom(s: Log, run: seq<Step>)
    requires RoomInv(s) && Possible(s, run) && |s.producers| <= 1
    ensures RoomInv(After(s, run))
    decreases |run|
  {
    hide RoomInv, Next;
    if run != [] {
      KeepsRoom(s, run[0]);
      RunKeepsRoom(Next(s, run[0]), run[1..]);
    }
  }

  /** The server's main loop is the only producer: the push behind full() == false never
      fails, so no line is lost. */
  lemma {:induction false} SingleProducerLosesNothing(isAsync: bool, max: nat, run: seq<Step>)
    requires Possible(Start(isAsync, max, 1), run)
    ensures After(Start(isAsync, max, 1), run).lost == []
  {
    RunKeepsRoom(Start(isAsync, max, 1), run);
  }

  /** `n` lines put into the queue by producer 0. */
  function Fill(n: nat): (run: seq<Step>) {
    if n == 0 then [] else [Producer(0), Producer(0), Producer(0)] + Fill(n - 1)
  }

  lemma {:induction false} FirstStep(s: Log, step: Step, rest: seq<Step>)
    requires Enabled(s, step) && Possible(Next(s, step), rest)
    ensures Possible(s, [step] + rest)
    ensures After(s, [step] + rest) == After(Next(s, step), rest)
  {
    hide Next;
    assert ([step] + rest)[1..] == rest;
  }

  lemma {:induction false} ThreeSteps(s: Log, a: Step, b: Step, c: Step, rest: seq<Step>)
    requires Enabled(s, a) && Enabled(Next(s, a), b) && Enabled(Next(Next(s, a), b), c)
    requires Possible(Next(Next(Next(s, a), b), c), rest)
    ensures Possible(s, [a, b, c] + rest)
    ensures After(s, [a, b, c] + rest) == After(Next(Next(Next(s, a), b), c), rest)
  {
    hide Next;
    FirstStep(Next(Next(s, a), b), c, rest);
    FirstStep(Next(s, a), b, [c] + rest);
    FirstStep(s, a, [b] + ([c] + rest));
    assert [a, b, c] + rest == [a] + ([b] + ([c] + rest));
  }

  /** Filling the queue with `n` lines and going on with `rest`. */
  lemma {:induction false} FillFills(s: Log, n: nat, rest: seq<Step>)
    requires AtRest(s) && |s.queue| + n <= s.max
    requires forall s' :: AtRest(s') && s'.max == s.max && |s'.queue| == |s.queue| + n ==>
               Possible(s', rest) && After(s', rest).lost != []
    ensures Possible(s, Fill(n) + rest) && After(s, Fill(n) + rest).lost != []
    decreases n
  {
    if n == 0 {
      assert Fill(n) + rest == rest;
    } else {
      var s3 := Produce(Produce(Produce(s, 0), 0), 0);
      FillFills(s3, n - 1, rest);
      ThreeSteps(s, Producer(0), Producer(0), Producer(0), Fill(n - 1) + rest);
      assert Fill(n) + rest == [Producer(0), Producer(0), Producer(0)] + (Fill(n - 1) + rest);
    }
  }

  predicate AtRest(s: Log) {
    s.isAsync && |s.producers| >= 2 && s.producers[0].Idle? && s.producers[1].Idle?
  }

  /** Both producers see the last free slot before either uses it. */
  function Race(): seq<Step> {
    [Producer(0), Producer(0), Producer(1)] + ([Producer(1), Producer(0), Producer(1)] + [])
  }

  lemma {:induction false} RaceLoses(s: Log)
    requires AtRest(s) && |s.queue| + 1 == s.max
    ensures Possible(s, Race()) && After(s, Race()).lost != []
  {
    var s3 := Produce(Produce(Produce(s, 0), 0), 1);
    ThreeSteps(s3, Producer(1), Producer(0), Producer(1), []);
    ThreeSteps(s, Producer(0), Producer(0), Producer(1), [Producer(1), Producer(0), Producer(1)] + []);
  }

  ghost predicate NeverLoses(isAsync: bool, max: nat, producers: nat) {
    forall run :: Possible(Start(isAsync, max, producers), run) ==>
      After(Start(isAsync, max, producers), run).lost == []
  }

  lemma {:induction false} TwoProducersCanLose(max: nat, producers: nat)
    requires max > 0 && producers > 1
    ensures !NeverLoses(true, max, producers)
  {
    var s := Start(true, max, producers);
    forall s' | AtRest(s') && s'.max == max && |s'.queue| == max - 1
      ensures Possible(s', Race()) && After(s', Race()).lost != []
    {
      RaceLoses(s');
    }
    FillFills(s, max - 1, Race());
    assert Possible(s, Fill(max - 1) + Race());
  }

  /** Nothing is ever pushed by a synchronous log or into a queue of no slots. */
  lemma {:induction false} NoQueueNoLoss(s: Log, run: seq<Step>)
    requires (!s.isAsync || s.max == 0) && s.lost == [] && Possible(s, run)
    requires forall i :: 0 <= i < |s.producers| ==> !s.producers[i].WillPush?
    ensures After(s, run).lost == []
    decreases |run|
  {
    if run != [] {
      NoQueueNoLoss(Next(s, run[0]), run[1..]);
    }
  }

  /** write_log ignores the result of push, and full() and push are two critical sections:
      no run loses a line if and only if there is at most one producer, or no queue. */
  lemma {:induction false} NeverLosesExact(isAsync: bool, max: nat, producers: nat)
    ensures NeverLoses(isAsync, max, producers) <==> !isAsync || max == 0 || producers <= 1
  {
    if isAsync && max > 0 && producers > 1 {
      TwoProducersCanLose(max, producers);
    } else {
      var s := Start(isAsync, max, producers);
      forall run | Possible(s, run) ensures After(s, run).lost == [] {
        if producers <= 1 {
          RunKeepsRoom(s, run);
        } else {
          NoQueueNoLoss(s, run);
        }
      }
    }
  }

  // ---- order ----

  function QueuedLines(file: seq<Entry>): seq<nat> {
    if file == [] then []
    else QueuedLines(file[..|file| - 1]) + (if file[|file| - 1].direct then [] else [file[|file| - 1].line])
  }

  /** The lines that went through the queue are in the file, the hand and the queue in the
      order in which they were pushed. */
  predicate QueueOrder(s: Log) {
    QueuedLines(s.file) + InHand(s.hand) + s.queue == s.queued
  }

  lemma {:induction false} QueuedLinesAppend(file: seq<Entry>, e: Entry)
    ensures QueuedLines(file + [e]) == QueuedLines(file) + (if e.direct then [] else [e.line])
  {
    assert (file + [e])[..|file|] == file;
  }

  lemma {:induction false} ProduceKeepsOrder(s: Log, i: nat)
    requires QueueOrder(s) && i < |s.producers|
    ensures QueueOrder(Produce(s, i))
  {
    hide QueuedLines, NextPc;
    var t := s.producers[i];
    if t.WillWrite? {
      QueuedLinesAppend(s.file, Entry(t.line, true));
    } else if t.WillPush? {
      var front := QueuedLines(s.file) + InHand(s.hand);
      assert front + (s.queue + [t.line]) == (front + s.queue) + [t.line];
    }
  }

  lemma {:induction false} ConsumeKeepsOrder(s: Log)
    requires QueueOrder(s) && Enabled(s, Consumer)
    ensures QueueOrder(Consume(s))
  {
    hide QueuedLines;
    if s.hand.Some? {
      QueuedLinesAppend(s.file, Entry(s.hand.value, false));
    } else {
      assert s.queue == [s.queue[0]] + s.queue[1..];
    }
  }

  lemma {:induction false} KeepsQueueOrder(s: Log, step: Step)
    requires QueueOrder(s) && Enabled(s, step)
    ensures QueueOrder(Next(s, step))
  {
    hide QueueOrder;
    match step
    case Producer(i) => ProduceKeepsOrder(s, i);
    case Consumer => ConsumeKeepsOrder(s);
  }

  lemma {:induction false} QueuedLinesKeepOrder(isAsync: bool, max: nat, producers: nat, run: seq<Step>)
    requires Possible(Start(isAsync, max, producers), run)
    ensures QueueOrder(After(Start(isAsync, max, producers), run))
  {
    RunKeepsQueueOrder(Start(isAsync, max, producers), run);
  }

  lemma {:induction false} RunKeepsQueueOrder(s: Log, run: seq<Step>)
    requires QueueOrder(s) && Possible(s, run)
    ensures QueueOrder(After(s, run))
    decreases |run|
  {
    hide QueueOrder, Next;
    if run != [] {
      KeepsQueueOrder(s, run[0]);
      RunKeepsQueueOrder(Next(s, run[0]), run[1..]);
    }
  }

  /** With one producer: all lines, in the order in which the file has or will have them. */
  function Sequel(s: Log): seq<nat>
    requires |s.producers| == 1
  {
    Lines(s.file) + InHand(s.hand) + s.queue + Carries(s.producers[0])
  }

  function UpTo(n: nat): (r: seq<nat>)
    ensures |r| == n && forall k :: 0 <= k < n ==> r[k] == k
  {
    seq(n, k => k)
  }

  predicate InOrder(s: Log)
    requires |s.producers| == 1
  {
    Sequel(s) == UpTo(s.next)
  }

  /** A line written directly passes lines that are still queued or in the consumer's hand. */
  predicate Overtakes(s: Log, step: Step) {
    step.Producer? && step.i < |s.producers| && s.producers[step.i].WillWrite? && (s.queue != [] || s.hand.Some?)
  }

  predicate EverOvertakes(s: Log, run: seq<Step>)
    requires Possible(s, run)
    decreases |run|
  {
    run != [] && (Overtakes(s, run[0]) || EverOvertakes(Next(s, run[0]), run[1..]))
  }

  /** The line in the producer's hand is the last one formatted. */
  predicate LastInv(s: Log) {
    && |s.producers| == 1
    && RoomInv(s)
    && (!s.producers[0].Idle? ==> s.producers[0].line + 1 == s.next)
    && (forall a, b :: 0 <= a < b < |s.queued| ==> s.queued[a] < s.queued[b])
    && (forall a :: 0 <= a < |s.queued| ==> s.queued[a] < if s.producers[0].Idle? then s.next else s.producers[0].line)
  }

  lemma {:induction false} KeepsLast(s: Log, step: Step)
    requires LastInv(s) && Enabled(s, step)
    ensures LastInv(Next(s, step))
  {
    KeepsRoom(s, step);
    hide RoomInv;
  }

  lemma {:induction false} FormatStep(s: Log)
    requires LastInv(s) && s.producers[0].Idle?
    ensures InOrder(Produce(s, 0)) <==> InOrder(s)
  {
    hide RoomInv;
    var s' := Produce(s, 0);
    assert Sequel(s') == Sequel(s) + [s.next];
    assert UpTo(s'.next) == UpTo(s.next) + [s.next];
    if InOrder(s') {
      assert Sequel(s) == Sequel(s')[..|Sequel(s)|];
      assert UpTo(s.next) == UpTo(s'.next)[..s.next];
    }
  }

  lemma {:induction false} PushStep(s: Log)
    requires LastInv(s) && !s.producers[0].Idle? && !s.producers[0].WillWrite?
    ensures Sequel(Produce(s, 0)) == Sequel(s)
  {
    var front := Lines(s.file) + InHand(s.hand);
    if s.producers[0].WillPush? {
      assert (front + s.queue) + [s.producers[0].line] == (front + (s.queue + [s.producers[0].line])) + [];
    }
  }

  /** Past the line that was formatted last, nothing can follow in order. */
  lemma {:induction false} Passed(front: seq<nat>, x: nat, waiting: seq<nat>, n: nat)
    requires x + 1 == n && waiting != []
    ensures front + [x] + waiting != UpTo(n)
  {
    var lines := front + [x] + waiting;
    if |lines| == n {
      assert lines[|front|] == x;
      assert UpTo(n)[|front|] == |front|;
    }
  }

  lemma {:induction false} WriteStep(s: Log)
    requires LastInv(s) && s.producers[0].WillWrite?
    ensures InOrder(Produce(s, 0)) <==> InOrder(s) && s.queue == [] && s.hand == None
  {
    hide RoomInv, Lines;
    var s' := Produce(s, 0);
    var x := s.producers[0].line;
    var waiting := InHand(s.hand) + s.queue;
    LinesAppend(s.file, Entry(x, true));
    assert Sequel(s) == Lines(s.file) + waiting + [x];
    assert Sequel(s') == Lines(s.file) + [x] + waiting;
    if waiting == [] {
      assert Sequel(s') == Sequel(s);
    } else {
      Passed(Lines(s.file), x, waiting, s.next);
    }
  }

  lemma {:induction false} ConsumeStep(s: Log)
    requires |s.producers| == 1 && Enabled(s, Consumer)
    ensures Sequel(Consume(s)) == Sequel(s)
  {
    hide Lines;
    if s.hand.Some? {
      LinesAppend(s.file, Entry(s.hand.value, false));
      assert (Lines(s.file) + [s.hand.value]) + [] + s.queue == Lines(s.file) + [s.hand.value] + s.queue;
    } else {
      assert s.queue == [s.queue[0]] + s.queue[1..];
      assert Lines(s.file) + [] + s.queue == Lines(s.file) + [s.queue[0]] + s.queue[1..];
    }
  }

  lemma {:induction false} OrderStep(s: Log, step: Step)
    requires LastInv(s) && Enabled(s, step) && LastInv(Next(s, step))
    ensures InOrder(Next(s, step)) <==> InOrder(s) && !Overtakes(s, step)
  {
    hide RoomInv;
    if step.Consumer? {
      ConsumeStep(s);
      hide Sequel;
    } else if s.producers[0].Idle? {
      FormatStep(s);
      hide InOrder;
    } else if s.producers[0].WillWrite? {
      WriteStep(s);
      hide InOrder;
    } else {
      PushStep(s);
      hide Sequel;
    }
  }

  lemma {:induction false} RunOrder(s: Log, run: seq<Step>)
    requires LastInv(s) && Possible(s, run)
    ensures LastInv(After(s, run))
    ensures InOrder(After(s, run)) <==> InOrder(s) && !EverOvertakes(s, run)
    decreases |run|
  {
    hide InOrder, Next, Overtakes, Enabled;
    if run != [] {
      KeepsLast(s, run[0]);
      OrderStep(s, run[0]);
      RunOrder(Next(s, run[0]), run[1..]);
    }
  }

  /** With the one producer of the server, the file gets the lines in the order in which
      they were logged if and only if no line was written directly while an earlier one
      was still in the queue or in the consumer's hand. */
  lemma {:induction false} FileOrderExact(isAsync: bool, max: nat, run: seq<Step>)
    requires Possible(Start(isAsync, max, 1), run)
    ensures |After(Start(isAsync, max, 1), run).producers| == 1
    ensures InOrder(After(Start(isAsync, max, 1), run)) <==> !EverOvertakes(Start(isAsync, max, 1), run)
  {
    RunOrder(Start(isAsync, max, 1), run);
  }

  /** And those that went through the queue always keep the order in which they were logged. */
  lemma {:induction false} QueuedLinesAreLogOrdered(isAsync: bool, max: nat, run: seq<Step>)
    requires Possible(Start(isAsync, max, 1), run)
    ensures var lines := QueuedLines(After(Start(isAsync, max, 1), run).file);
      forall a, b :: 0 <= a < b < |lines| ==> lines[a] < lines[b]
  {
    RunOrder(Start(isAsync, max, 1), run);
    QueuedLinesKeepOrder(isAsync, max, 1, run);
    hide Possible, After, Start;
    PrefixIncreases(After(Start(isAsync, max, 1), run));
  }

  lemma {:induction false} PrefixIncreases(s: Log)
    requires QueueOrder(s) && LastInv(s)
    ensures var lines := QueuedLines(s.file); forall a, b :: 0 <= a < b < |lines| ==> lines[a] < lines[b]
  {
    hide QueuedLines;
    var lines := QueuedLines(s.file);
    assert s.queued == lines + (InHand(s.hand) + s.queue);
    assert lines == s.queued[..|lines|];
  }

  /** With a queue of one slot, the second line can pass the first. */
  lemma {:induction false} DirectLineOvertakes()
    ensures var run := [Producer(0), Producer(0), Producer(0)] + ([Producer(0), Producer(0), Producer(0)] + []);
      && Possible(Start(true, 1, 1), run)
      && Lines(After(Start(true, 1, 1), run).file) == [1] && After(Start(true, 1, 1), run).queue == [0]
  {
    var s := Start(true, 1, 1);
    var s3 := Produce(Produce(Produce(s, 0), 0), 0);
    ThreeSteps(s3, Producer(0), Producer(0), Producer(0), []);
    ThreeSteps(s, Producer(0), Producer(0), Producer(0), [Producer(0), Producer(0), Producer(0)] + []);
  }
}
