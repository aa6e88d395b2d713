/** How the bytes of a request were cut into reads does not matter. */
module ChunkIndependence {
  import opened Wrappers
  import opened CStrings
  import opened RequestParser

  function Flatten(chunks: seq<string>): string {
    if chunks == [] then "" else chunks[0] + Flatten(chunks[1..])
  }

  /** The event loop: every chunk that arrives is followed by one call of process_read,
      until a call returns something else than NO_REQUEST. */
  function Feed(p: Parser, chunks: seq<string>): (o: Outcome)
    requires p.Wf()
    ensures o.parser.Wf()
    decreases |chunks|
  {
    if chunks == [] then Outcome(NoRequest, p, None)
    else
      var o := ProcessRead(p.Plus(chunks[0]));
      if o.verdict != NoRequest then o else Feed(o.parser, chunks[1..])
  }

  /** process_read as far as the blank line. */
  function Head(p: Parser): (o: Outcome)
    requires p.Wf()
    ensures o.parser.Wf() && (o.verdict == NoRequest ==> o.body == None)
    decreases p.Unscanned()
  {
    if p.state.Content? then Outcome(NoRequest, p, None)
    else
      var s := ScanLine(p.held[p.scanned..]);
      if s.status != LineOk then Outcome(NoRequest, p.(scanned := p.scanned + s.at), None)
      else
        match Turn(EndLine(p, s.at))
        case Stop(o) => o
        case Again(_, q) => Head(q)
  }

  /** A verdict was reached, or the blank line in front of a body. */
  predicate Decided(o: Outcome) {
    o.verdict != NoRequest || o.parser.state.Content?
  }

  /** The scanned part of a line holds no line end. */
  predicate Unbroken(p: Parser) {
    p.Wf() && forall i :: 0 <= i < p.scanned ==> p.held[i] != '\r' && p.held[i] != '\n'
  }

  // ---- scanning ----

  /** Bytes without a line end are passed over. */
  lemma {:induction false} ScanBehind(a: string, b: string)
    requires forall i :: 0 <= i < |a| ==> a[i] != '\r' && a[i] != '\n'
    ensures ScanLine(a + b) == Scan(ScanLine(b).status, |a| + ScanLine(b).at)
  {
    FindBehind(a, b, "\r\n");
  }

  /** At a line end, the next byte decides. */
  lemma {:induction false} ScanFront(b: string)
    requires b != "" && (b[0] == '\r' || b[0] == '\n')
    ensures ScanLine(b) == Scan(
      if b[0] == '\n' then LineBad else if |b| == 1 then LineOpen else if b[1] == '\n' then LineOk else LineBad, 0)
  {
    FindIs(b, "\r\n", 0);
  }

  lemma {:induction false} ScanFrontOn(b: string, t: string)
    requires b != "" ==> b[0] == '\r' || b[0] == '\n'
    ensures ScanLine(b).status != LineOpen ==> ScanLine(b + t) == ScanLine(b)
    ensures ScanLine(b).at == 0
  {
    if b != "" {
      ScanFront(b);
      ScanFront(b + t);
    }
  }

  /** A line that is complete or bad stays so; a scan that ran out of bytes goes on
      where it stopped. */
  lemma {:induction false} ScanOn(s: string, t: string)
    ensures var r := ScanLine(s);
      if r.status != LineOpen then ScanLine(s + t) == r
      else var x := ScanLine(s[r.at..] + t); ScanLine(s + t) == Scan(x.status, r.at + x.at)
    ensures ScanLine(s).status == LineBad ==> ScanLine(s[ScanLine(s).at..] + t) == Scan(LineBad, 0)
  {
    hide ScanLine;
    var at := ScanLine(s).at;
    var a, b := s[..at], s[at..];
    assert s == a + b;
    assert s + t == a + (b + t);
    ScanBehind(a, b);
    ScanBehind(a, b + t);
    ScanFrontOn(b, t);
  }

  // ---- the head of a request ----

  /** Bytes behind the end of the line do not change what is done with the line. */
  lemma {:induction false} TurnOn(p: Parser, t: string)
    requires p.Wf() && !p.state.Content? && NUL in p.held[..p.scanned]
    ensures match Turn(p)
      case Stop(o) => Turn(p.Plus(t)) == Stop(o.(parser := o.parser.Plus(t)))
      case Again(ok, q) => Turn(p.Plus(t)) == Again(ok, q.Plus(t))
  {
    CutLocal(p.held, p.held + t, p.scanned);
    assert (p.held + t)[p.scanned..] == p.held[p.scanned..] + t;
  }

  lemma {:induction false} EndLineOn(p: Parser, at: nat, t: string)
    requires p.Wf() && p.scanned + at + 2 <= |p.held|
    ensures EndLine(p.Plus(t), at) == EndLine(p, at).Plus(t)
    ensures NUL in EndLine(p, at).held[..EndLine(p, at).scanned]
  {
    var line := EndLine(p, at);
    assert EndLine(p.Plus(t), at).held == line.held + t;
    assert line.held[..line.scanned][p.scanned + at] == NUL;
  }

  /** A scan that stopped, and the same scan with more bytes. */
  lemma {:induction false} ScanStep(p: Parser, t: string, at: nat)
    requires p.Wf() && p.scanned + at <= |p.held|
    requires at == ScanLine(p.held[p.scanned..]).at
    ensures var s := ScanLine(p.held[p.scanned..]);
      var x := ScanLine(p.Plus(t).held[p.scanned..]);
      var y := ScanLine(p.Plus(t).held[p.scanned + at..]);
      if s.status == LineOk then x == s else x == Scan(y.status, at + y.at)
  {
    DropPlus(p.held, p.scanned, at, t);
    ScanOn(p.held[p.scanned..], t);
  }

  lemma {:induction false} StillUnbroken(p: Parser)
    requires Unbroken(p)
    ensures Unbroken(p.(scanned := p.scanned + ScanLine(p.held[p.scanned..]).at))
  {
    var unread := p.held[p.scanned..];
    var at := ScanLine(unread).at;
    forall i | p.scanned <= i < p.scanned + at ensures p.held[i] != '\r' && p.held[i] != '\n' {
      assert p.held[i] == unread[i - p.scanned];
    }
  }

  /** Where the scan of a line starts does not matter if it ends at the same place. */
  lemma {:induction false} SameScan(a: Parser, b: Parser)
    requires a.Wf() && !a.state.Content? && b.Wf() && b == a.(scanned := b.scanned)
    requires var x, y := ScanLine(a.held[a.scanned..]), ScanLine(b.held[b.scanned..]);
      x.status == y.status && a.scanned + x.at == b.scanned + y.at
    ensures Head(a) == Head(b)
  {
    hide Turn, ScanLine;
    var y := ScanLine(b.held[b.scanned..]);
    if y.status == LineOk {
      var x := ScanLine(a.held[a.scanned..]);
      assert EndLine(a, x.at) == EndLine(b, y.at);
    }
  }

  /** A pause within a line. */
  lemma {:induction false} PauseStep(p: Parser, t: string)
    requires p.Wf() && !p.state.Content?
    requires ScanLine(p.held[p.scanned..]).status != LineOk
    ensures Head(p.Plus(t)) == Head(p.(scanned := p.scanned + ScanLine(p.held[p.scanned..]).at).Plus(t))
  {
    hide Head, Turn, EndLine, ScanLine;
    var at := ScanLine(p.held[p.scanned..]).at;
    ScanStep(p, t, at);
    SameScan(p.Plus(t), p.(scanned := p.scanned + at).Plus(t));
  }

  /** The head after a turn of the loop. */
  function HeadAfter(next: Next): (o: Outcome)
    requires next.Stop? ==> next.outcome.parser.Wf() && next.outcome.verdict != NoRequest
    requires next.Again? ==> next.parser.Wf()
    ensures o.parser.Wf() && (o.verdict == NoRequest ==> o.body == None)
  {
    match next
    case Stop(o) => o
    case Again(_, q) => Head(q)
  }

  lemma {:induction false} HeadUnfold(p: Parser)
    requires p.Wf() && !p.state.Content?
    ensures var s := ScanLine(p.held[p.scanned..]);
      Head(p) == if s.status != LineOk then Outcome(NoRequest, p.(scanned := p.scanned + s.at), None)
                 else HeadAfter(Turn(EndLine(p, s.at)))
  {
    hide Turn, EndLine, ScanLine;
  }

  lemma {:induction false} HeadOfContent(p: Parser)
    requires p.Wf() && p.state.Content?
    ensures Head(p) == Outcome(NoRequest, p, None)
  {
  }

  /** Feeding more bytes after a pause is the same as having had them at once. */
  lemma {:induction false} HeadOn(p: Parser, t: string)
    requires Unbroken(p)
    ensures var o := Head(p);
      if Decided(o) then Head(p.Plus(t)) == o.(parser := o.parser.Plus(t))
      else Unbroken(o.parser) && Head(p.Plus(t)) == Head(o.parser.Plus(t))
    decreases p.Unscanned()
  {
    hide Head, Turn, ScanLine;
    if p.state.Content? {
      HeadOfContent(p);
      HeadOfContent(p.Plus(t));
    } else {
      HeadUnfold(p);
      HeadUnfold(p.Plus(t));
      var s := ScanLine(p.held[p.scanned..]);
      ScanStep(p, t, s.at);
      if s.status == LineOk {
        var line := EndLine(p, s.at);
        EndLineOn(p, s.at, t);
        TurnOn(line, t);
        if Turn(line).Again? {
          HeadOn(Turn(line).parser, t);
        }
      } else {
        PauseStep(p, t);
        StillUnbroken(p);
      }
    }
  }

  /** process_read is its head, and then the turns on the body if there is one. */
  lemma {:induction false} LoopIsHead(ok: bool, p: Parser)
    requires p.Wf() && !p.state.Content?
    ensures var h := Head(p);
      Loop(ok, p) == if h.verdict == NoRequest && h.parser.state.Content? then ProcessRead(h.parser) else h
    decreases p.Unscanned()
  {
    var s := ScanLine(p.held[p.scanned..]);
    if s.status == LineOk {
      var next := Turn(EndLine(p, s.at));
      if next.Again? && !next.parser.state.Content? {
        LoopIsHead(true, next.parser);
      }
    }
  }

  lemma {:induction false} PlusPlus(p: Parser, a: string, b: string)
    ensures p.Plus(a).Plus(b) == p.Plus(a + b)
    ensures p.Plus("") == p
  {
    assert p.held + a + b == p.held + (a + b);
    assert p.held + "" == p.held;
  }

  /** Going on with the reads that are left after a call of process_read. */
  function Resume(o: Outcome, chunks: seq<string>): Outcome
    requires o.parser.Wf()
  {
    if o.verdict != NoRequest then o else Feed(o.parser, chunks)
  }

  lemma {:induction false} WholeStep(p: Parser, chunks: seq<string>)
    requires Unbroken(p) && chunks != []
    ensures var o, rest := Head(p.Plus(chunks[0])), Flatten(chunks[1..]);
      var whole := Head(p.Plus(Flatten(chunks)));
      if Decided(o) then whole == o.(parser := o.parser.Plus(rest))
      else Unbroken(o.parser) && whole == Head(o.parser.Plus(rest))
  {
    HeadOn(p.Plus(chunks[0]), Flatten(chunks[1..]));
    PlusPlus(p, chunks[0], Flatten(chunks[1..]));
  }

  lemma {:induction false} FeedStep(p: Parser, chunks: seq<string>)
    requires p.Wf() && !p.state.Content? && chunks != []
    ensures var o := Head(p.Plus(chunks[0]));
      Feed(p, chunks) == Resume(if o.verdict == NoRequest && o.parser.state.Content? then ProcessRead(o.parser) else o,
                                chunks[1..])
  {
    LoopIsHead(true, p.Plus(chunks[0]));
  }

  /** However the bytes are cut into reads: what process_read decides before a body,
      and everything it has learnt about the request then, are the same as if all bytes
      had come in one read; without a decision even the whole state is the same. */
  lemma {:induction false} ChunkIndependence(p: Parser, chunks: seq<string>)
    requires Unbroken(p) && !p.state.Content? && chunks != []
    ensures var whole := Head(p.Plus(Flatten(chunks)));
      && (whole.verdict != NoRequest ==> Learnt(Feed(p, chunks), whole))
      && (!Decided(whole) ==> Feed(p, chunks) == whole)
    decreases |chunks|
  {
    var o := Head(p.Plus(chunks[0]));
    WholeStep(p, chunks);
    FeedStep(p, chunks);
    if Decided(o) {
      LearntPlus(o, Flatten(chunks[1..]));
    } else if |chunks| == 1 {
      LastFeed(p.Plus(chunks[0]));
    } else {
      ChunkIndependence(o.parser, chunks[1..]);
    }
  }

  lemma {:induction false} LearntPlus(o: Outcome, t: string)
    ensures Learnt(o, o.(parser := o.parser.Plus(t)))
  {
  }

  /** Nothing more to feed: calling process_read again would change nothing. */
  lemma {:induction false} LastFeed(p: Parser)
    requires Unbroken(p)
    ensures !Decided(Head(p)) ==> Head(Head(p).parser.Plus("")) == Head(p)
  {
    HeadOn(p, "");
    PlusPlus(p, "", "");
  }

  /** A scan that stops without a line is all that process_read does. */
  lemma {:induction false} NoLine(p: Parser)
    requires p.Wf() && !p.state.Content? && ScanLine(p.held[p.scanned..]).status != LineOk
    ensures ProcessRead(p) == Outcome(NoRequest, p.(scanned := p.scanned + ScanLine(p.held[p.scanned..]).at), None)
  {
    hide ScanLine, Turn, EndLine;
  }

  lemma {:induction false} BadAgain(p: Parser, t: string)
    requires p.Wf() && ScanLine(p.held[p.scanned..]).status == LineBad
    ensures var at := ScanLine(p.held[p.scanned..]).at;
      && ScanLine(p.Plus(t).held[p.scanned..]) == Scan(LineBad, at)
      && ScanLine(p.Plus(t).held[p.scanned + at..]) == Scan(LineBad, 0)
  {
    DropPlus(p.held, p.scanned, ScanLine(p.held[p.scanned..]).at, t);
    ScanOn(p.held[p.scanned..], t);
    hide ScanLine;
  }

  /** A line judged LINE_BAD stays bad whatever arrives later: process_read reports
      NO_REQUEST for ever, and learns nothing more. */
  lemma {:induction false} StaysBad(p: Parser, chunks: seq<string>)
    requires p.Wf() && !p.state.Content? && ScanLine(p.held[p.scanned..]).status == LineBad
    ensures var o := Feed(p, chunks); o.verdict == NoRequest && o.parser.state == p.state && o.parser.req == p.req
    decreases |chunks|
  {
    hide ScanLine, ProcessRead;
    if chunks != [] {
      var q := p.Plus(chunks[0]);
      BadAgain(p, chunks[0]);
      NoLine(q);
      StaysBad(ProcessRead(q).parser, chunks[1..]);
    }
  }

  /** The same verdict, state and request; `b` may hold bytes that had not arrived for `a`. */
  predicate Learnt(a: Outcome, b: Outcome) {
    && a.verdict == b.verdict && a.body == b.body
    && a.parser == b.parser.(held := a.parser.held) && a.parser.held <= b.parser.held
  }

  // ---- the read that brings the blank line ----

  /** The bytes behind the first `h` bytes of the reads: those of the read in which these
      bytes end, and the later reads. */
  function ReadsBehind(h: nat, chunks: seq<string>): (string, seq<string>)
    decreases |chunks|
  {
    if chunks == [] then ("", [])
    else if h <= |chunks[0]| then (chunks[0][h..], chunks[1..])
    else ReadsBehind(h - |chunks[0]|, chunks[1..])
  }

  /** A line end that was not there before ends in the new bytes. */
  lemma {:induction false} LateLine(s: string, t: string)
    requires ScanLine(s).status != LineOk && ScanLine(s + t).status == LineOk
    ensures ScanLine(s + t).at + 2 > |s|
  {
    hide ScanLine;
    var at := ScanLine(s + t).at;
    if at + 2 <= |s| {
      NotPassed(s, t, at);
    }
  }

  lemma {:induction false} NotPassed(s: string, t: string, at: nat)
    requires at == ScanLine(s + t).at && at + 2 <= |s| && ScanLine(s + t).status == LineOk
    ensures ScanLine(s).status == LineOk
  {
    assert forall i :: 0 <= i < |s| ==> s[i] == (s + t)[i];
    ScanStops(s, at);
  }

  /** What lies behind a blank line is less than what had not been scanned. */
  lemma {:induction false} HeadShrinks(p: Parser)
    requires p.Wf() && !p.state.Content? && Head(p).parser.state.Content?
    ensures |Head(p).parser.held| + 2 <= p.Unscanned()
    decreases p.Unscanned()
  {
    hide Head, Turn, ScanLine;
    HeadUnfold(p);
    var s := ScanLine(p.held[p.scanned..]);
    if s.status == LineOk {
      var line := EndLine(p, s.at);
      TurnHolds(line);
      if Turn(line).Again? {
        if Turn(line).parser.state.Content? {
          HeadOfContent(Turn(line).parser);
        } else {
          HeadShrinks(Turn(line).parser);
        }
      }
    }
  }

  /** No turn adds bytes, and a turn on the head that stops does not reach a body. */
  lemma {:induction false} TurnHolds(p: Parser)
    requires p.Wf() && !p.state.Content?
    ensures match Turn(p)
      case Stop(o) => !o.parser.state.Content?
      case Again(_, q) => q.held == p.held[p.scanned..] && q.scanned == 0
  {
    hide Cut;
  }

  /** A blank line that is reached only with new bytes leaves fewer bytes than these behind it. */
  lemma {:induction false} LateBlank(p: Parser, t: string)
    requires p.Wf() && !Decided(Head(p)) && Head(p.Plus(t)).parser.state.Content?
    ensures |Head(p.Plus(t)).parser.held| < |t|
    decreases p.Unscanned()
  {
    hide Head, Turn, ScanLine;
    if p.state.Content? {
      HeadOfContent(p);
    }
    HeadUnfold(p);
    HeadUnfold(p.Plus(t));
    var s := ScanLine(p.held[p.scanned..]);
    ScanStep(p, t, s.at);
    if s.status == LineOk {
      var line := EndLine(p, s.at);
      EndLineOn(p, s.at, t);
      TurnOn(line, t);
      if Turn(line).Again? {
        if Turn(line).parser.state.Content? {
          HeadOfContent(Turn(line).parser);
        }
        LateBlank(Turn(line).parser, t);
      }
    } else {
      LateFirst(p, t);
    }
  }

  lemma {:induction false} LateFirst(p: Parser, t: string)
    requires p.Wf() && !p.state.Content? && Head(p.Plus(t)).parser.state.Content?
    requires ScanLine(p.held[p.scanned..]).status != LineOk
    ensures |Head(p.Plus(t)).parser.held| < |t|
  {
    hide Head, Turn, ScanLine;
    var q := p.Plus(t);
    HeadUnfold(q);
    DropPlus(p.held, p.scanned, 0, t);
    var x := ScanLine(q.held[q.scanned..]);
    if x.status == LineOk {
      LateLine(p.held[p.scanned..], t);
      var line := EndLine(q, x.at);
      TurnHolds(line);
      if Turn(line).Again? {
        if Turn(line).parser.state.Content? {
          HeadOfContent(Turn(line).parser);
        } else {
          HeadShrinks(Turn(line).parser);
        }
      }
    }
  }

  /** When the bytes hold a request with a body, the reads reach the blank line with the
      same request, and the bytes behind it are those of the one read.  It is reached in
      read number k: the bytes behind it are fewer than that read has. */
  lemma {:induction false} BodyStart(p: Parser, chunks: seq<string>) returns (k: nat, q: Parser)
    requires Unbroken(p) && !p.state.Content? && chunks != []
    requires var whole := Head(p.Plus(Flatten(chunks)));
      whole.verdict == NoRequest && whole.parser.state.Content?
    ensures 1 <= k <= |chunks|
    ensures q.scanned == 0 && q.Plus(Flatten(chunks[k..])) == Head(p.Plus(Flatten(chunks))).parser
    ensures Feed(p, chunks) == Resume(ProcessRead(q), chunks[k..])
    ensures if Decided(Head(p)) then k == 1 && q.held == Head(p).parser.held + chunks[0]
            else |q.held| < |chunks[k - 1]|
    decreases |chunks|
  {
    hide Head, Feed, ProcessRead, Turn, ScanLine;
    var o := Head(p.Plus(chunks[0]));
    WholeStep(p, chunks);
    FeedStep(p, chunks);
    HeadStart(p.Plus(chunks[0]));
    HeadOn(p, chunks[0]);
    k, q := 1, o.parser;
    if !Decided(o) {
      LastFeed(p.Plus(chunks[0]));
      PlusPlus(o.parser, "", "");
      NotLast(p, chunks);
      k, q := BodyStart(o.parser, chunks[1..]);
      assert chunks[1..][k..] == chunks[k + 1..];
      k := k + 1;
    } else if !Decided(Head(p)) {
      LateBlank(p, chunks[0]);
    }
  }

  lemma {:induction false} FlattenOne(chunks: seq<string>)
    ensures |chunks| == 1 ==> Flatten(chunks) == chunks[0]
  {
    if |chunks| == 1 {
      assert Flatten(chunks) == chunks[0] + "";
    }
  }

  /** The last read decides. */
  lemma {:induction false} NotLast(p: Parser, chunks: seq<string>)
    requires Unbroken(p) && chunks != [] && !Decided(Head(p.Plus(chunks[0])))
    requires Decided(Head(p.Plus(Flatten(chunks))))
    ensures |chunks| > 1
  {
    FlattenOne(chunks);
  }

  /** The bytes behind the blank line are the last of the bytes that were there. */
  lemma {:induction false} HeadSuffix(p: Parser)
    requires p.Wf() && Head(p).parser.state.Content?
    ensures var n := |Head(p).parser.held|; n <= |p.held| && Head(p).parser.held == p.held[|p.held| - n..]
    decreases p.Unscanned()
  {
    hide Head, Turn, ScanLine;
    if p.state.Content? {
      HeadOfContent(p);
    } else {
      HeadUnfold(p);
      var s := ScanLine(p.held[p.scanned..]);
      if s.status == LineOk {
        var line := EndLine(p, s.at);
        TurnHolds(line);
        assert line.held[line.scanned..] == p.held[p.scanned + s.at + 2..];
        if Turn(line).Again? {
          HeadSuffix(Turn(line).parser);
        }
      }
    }
  }

  lemma {:induction false} FlattenDrop(chunks: seq<string>, k: nat)
    requires k < |chunks|
    ensures |Flatten(chunks)| >= |chunks[k]| + |Flatten(chunks[k + 1..])|
  {
    if k > 0 {
      FlattenDrop(chunks[1..], k - 1);
      assert chunks[1..][k..] == chunks[k + 1..];
    }
  }

  /** Only one read can bring byte number `h`. */
  lemma {:induction false} ReadsBehindIs(h: nat, chunks: seq<string>, k: nat, got: string)
    requires 1 <= k <= |chunks| && |got| < |chunks[k - 1]| && h <= |Flatten(chunks)|
    requires got + Flatten(chunks[k..]) == Flatten(chunks)[h..]
    ensures ReadsBehind(h, chunks) == (got, chunks[k..])
    decreases |chunks|
  {
    var first, later := chunks[0], Flatten(chunks[1..]);
    assert |got| + |Flatten(chunks[k..])| == |first| + |later| - h;
    if k == 1 {
      assert (first + later)[h..] == first[h..] + later;
      assert (got + later)[..|got|] == got;
    } else {
      FlattenDrop(chunks[1..], k - 2);
      assert chunks[1..][k - 1..] == chunks[k..];
      assert (first + later)[h..] == later[h - |first|..];
      ReadsBehindIs(h - |first|, chunks[1..], k - 1, got);
    }
  }

  lemma {:induction false} HeadStart(p: Parser)
    requires p.Wf() && !p.state.Content?
    ensures Head(p).parser.state.Content? ==> Head(p).parser.scanned == 0
    decreases p.Unscanned()
  {
    var s := ScanLine(p.held[p.scanned..]);
    if s.status == LineOk {
      var next := Turn(EndLine(p, s.at));
      if next.Again? && !next.parser.state.Content? {
        HeadStart(next.parser);
      }
    }
  }
}
