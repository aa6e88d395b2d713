/** When a request body is complete: exactly when the code notices, and with which bytes. */
module BodyCompletion {
  import opened Wrappers
  import opened CStrings
  import opened RequestParser
  import opened ChunkIndependence

  /** A parser waiting for a body of n > 0 bytes. */
  predicate Waiting(p: Parser) {
    p.Wf() && p.state.Content? && p.req.contentLength > 0
  }

  /** parse_line run over body bytes, again after every CR LF it finds there: how many
      bytes the lines take, and how far it gets in the bytes behind them. */
  function Scanned(got: string): (r: (nat, nat))
    ensures r.0 + r.1 <= |got|
    decreases |got|
  {
    var s := ScanLine(got);
    if s.status != LineOk then (0, s.at)
    else var r := Scanned(got[s.at + 2..]); (s.at + 2 + r.0, r.1)
  }

  lemma {:induction false} ScannedIs(got: string)
    ensures var s, r := ScanLine(got), Scanned(got);
      && r.0 + r.1 <= |got| && s.at <= |got|
      && (if s.status != LineOk then r == (0, s.at)
          else s.at + 2 <= |got| && r == (s.at + 2 + Scanned(got[s.at + 2..]).0, Scanned(got[s.at + 2..]).1))
  {
  }

  /** The turn on a body that is incomplete drops what was scanned. */
  lemma {:induction false} TurnAgain(p: Parser)
    requires Waiting(p) && p.Unscanned() < p.req.contentLength
    ensures Turn(p) == Again(false, p.(held := p.held[p.scanned..], scanned := 0))
  {
    hide Cut;
  }

  /** A line among the body bytes is taken. */
  lemma {:induction false} LineTaken(q: Parser)
    requires Waiting(q) && q.scanned == 0 && |q.held| < q.req.contentLength && ScanLine(q.held).status == LineOk
    ensures Loop(false, q) == Loop(false, q.(held := q.held[ScanLine(q.held).at + 2..]))
  {
    hide Turn, ScanLine;
    assert q.held[0..] == q.held;
    var line := EndLine(q, ScanLine(q.held).at);
    TurnAgain(line);
    assert line.held[line.scanned..] == q.held[ScanLine(q.held).at + 2..];
  }

  lemma {:induction false} NoLineTaken(q: Parser)
    requires Waiting(q) && q.scanned == 0 && ScanLine(q.held).status != LineOk
    ensures ScanLine(q.held).at <= |q.held| && Loop(false, q) == Left(q, 0, ScanLine(q.held).at)
  {
    hide Turn, EndLine;
    assert q.held[0..] == q.held;
  }

  /** The outcome of a call that gave up `taken` bytes and scanned `at` of the others. */
  function Left(q: Parser, taken: nat, at: nat): Outcome
    requires taken <= |q.held|
  {
    Outcome(NoRequest, q.(held := q.held[taken..], scanned := at), None)
  }

  lemma {:induction false} LeftBehind(q: Parser, d: nat, taken: nat, at: nat)
    requires d + taken <= |q.held|
    ensures Left(q.(held := q.held[d..]), taken, at) == Left(q, d + taken, at)
  {
    assert q.held[d..][taken..] == q.held[d + taken..];
  }

  /** What a call that leaves the body incomplete does behind its turn on the body. */
  lemma {:induction false} ScansOn(q: Parser)
    requires Waiting(q) && q.scanned == 0 && |q.held| < q.req.contentLength
    ensures Scanned(q.held).0 + Scanned(q.held).1 <= |q.held|
    ensures Loop(false, q) == Left(q, Scanned(q.held).0, Scanned(q.held).1)
    decreases |q.held|
  {
    hide Loop, Scanned, ScanLine, Left;
    var s := ScanLine(q.held);
    ScannedIs(q.held);
    if s.status == LineOk {
      var next := q.(held := q.held[s.at + 2..]);
      LineTaken(q);
      ScansOn(next);
      LeftBehind(q, s.at + 2, Scanned(next.held).0, Scanned(next.held).1);
    } else {
      NoLineTaken(q);
    }
  }

  /** One call of process_read while a body is awaited: it is complete exactly when n
      bytes lie behind m_checked_idx, and m_string is then the n bytes from m_start_line;
      otherwise the bytes that were scanned before, and the lines found now, are given up. */
  lemma {:induction false} OneCall(p: Parser)
    requires Waiting(p)
    ensures var o, n := ProcessRead(p), p.req.contentLength;
      if p.Unscanned() >= n then o.verdict == GetRequest && o.body == Some(p.held[..n]) && o.parser.req == p.req
      else
        var (taken, at) := Scanned(p.held[p.scanned..]);
        o == Left(p.(held := p.held[p.scanned..]), taken, at)
  {
    hide Cut, Scanned;
    if p.Unscanned() < p.req.contentLength {
      TurnAgain(p);
      ScansOn(p.(held := p.held[p.scanned..], scanned := 0));
    }
  }

  /** Too few bytes behind m_checked_idx: no split of them completes the request. */
  lemma {:induction false} Starved(p: Parser, chunks: seq<string>)
    requires Waiting(p) && p.Unscanned() + |Flatten(chunks)| < p.req.contentLength
    ensures Feed(p, chunks).verdict == NoRequest
    decreases |chunks|
  {
    hide ProcessRead;
    if chunks != [] {
      OneCall(p.Plus(chunks[0]));
      Starved(ProcessRead(p.Plus(chunks[0])).parser, chunks[1..]);
    }
  }

  /** What was learnt from the head stays, however the body arrives. */
  lemma {:induction false} FeedKeepsRequest(p: Parser, chunks: seq<string>)
    requires Waiting(p)
    ensures Feed(p, chunks).parser.req == p.req
    decreases |chunks|
  {
    hide ProcessRead;
    if chunks != [] {
      OneCall(p.Plus(chunks[0]));
      if ProcessRead(p.Plus(chunks[0])).verdict == NoRequest {
        FeedKeepsRequest(ProcessRead(p.Plus(chunks[0])).parser, chunks[1..]);
      }
    }
  }

  // ---- which bytes become the body ----

  /** From which of the bytes behind the blank line the body is taken; None while the
      request stays incomplete.  `got` are the bytes from m_start_line on after a read,
      `k` of them lie in front of m_checked_idx, and `chunks` are the later reads. */
  function BodyAt(n: nat, got: string, k: nat, chunks: seq<string>): (b: Option<nat>)
    requires k <= |got|
    ensures b.Some? ==> b.value + n <= |got| + |Flatten(chunks)|
    decreases |chunks|
  {
    if |got| - k >= n then Some(0)
    else if chunks == [] then None
    else
      var (taken, at) := Scanned(got[k..]);
      match BodyAt(n, got[k..][taken..] + chunks[0], at, chunks[1..])
      case None => None
      case Some(b) => Some(k + taken + b)
  }

  /** The same bytes, counted from `d` places earlier. */
  lemma {:induction false} BodyFurtherOn(got: string, d: nat, chunks: seq<string>, b: nat, n: nat)
    requires d <= |got| && chunks != [] && b + n <= |got[d..] + chunks[0]| + |Flatten(chunks[1..])|
    ensures (got[d..] + chunks[0] + Flatten(chunks[1..]))[b..b + n] == (got + Flatten(chunks))[d + b..d + b + n]
  {
    assert got[d..] + chunks[0] + Flatten(chunks[1..]) == (got + Flatten(chunks))[d..];
  }

  /** The body of a request from the blank line on, for every split and any number of
      bytes: `BodyAt` says whether the request completes, and with which bytes. */
  lemma {:induction false} BodyTaken(p: Parser, chunks: seq<string>)
    requires Waiting(p)
    ensures var o, n, all := Resume(ProcessRead(p), chunks), p.req.contentLength, p.held + Flatten(chunks);
      match BodyAt(n, p.held, p.scanned, chunks)
      case None => o.verdict == NoRequest
      case Some(b) => o.verdict == GetRequest && o.body == Some(all[b..b + n])
    decreases |chunks|
  {
    hide ProcessRead, Scanned;
    var n := p.req.contentLength;
    OneCall(p);
    if p.Unscanned() >= n {
      assert (p.held + Flatten(chunks))[0..n] == p.held[..n];
    } else if chunks != [] {
      var (taken, at) := Scanned(p.held[p.scanned..]);
      var q := ProcessRead(p).parser;
      assert q.held == p.held[p.scanned + taken..];
      BodyTaken(q.Plus(chunks[0]), chunks[1..]);
      var b := BodyAt(n, q.held + chunks[0], at, chunks[1..]);
      if b.Some? {
        BodyFurtherOn(p.held, p.scanned + taken, chunks, b.value, n);
      }
    }
  }

  /** The base of the body never moves: no read but the one before the last leaves
      m_checked_idx behind it, no incomplete read holds a whole line, and the last read
      brings n bytes behind m_checked_idx. */
  predicate OnBase(n: nat, got: string, k: nat, chunks: seq<string>)
    requires k <= |got|
    decreases |chunks|
  {
    |got| - k >= n ||
    (k == 0 && chunks != [] && ScanLine(got).status != LineOk
     && OnBase(n, got + chunks[0], ScanLine(got).at, chunks[1..]))
  }

  lemma {:induction false} BaseExact(n: nat, got: string, k: nat, chunks: seq<string>)
    requires k <= |got|
    ensures BodyAt(n, got, k, chunks) == Some(0) <==> OnBase(n, got, k, chunks)
    decreases |chunks|
  {
    hide ScanLine;
    if |got| - k < n && chunks != [] && k == 0 {
      assert got[0..] == got;
      if ScanLine(got).status != LineOk {
        BaseExact(n, got + chunks[0], ScanLine(got).at, chunks[1..]);
      }
    }
  }

  /** The request is incomplete, or complete with the `n` bytes from place `b` on. */
  predicate Taken(o: Outcome, all: string, n: nat, b: Option<nat>) {
    match b
    case None => o.verdict == NoRequest
    case Some(k) => o.verdict == GetRequest && k + n <= |all| && o.body == Some(all[k..k + n])
  }

  /** The body of a request, from the blank line on.  `p.held` are the body bytes of the
      read that brought the blank line, `chunks` the later reads.  The request is completed
      with the first n bytes if and only if the base does not move; whatever the split and
      however many bytes follow, it is otherwise incomplete or completed with n bytes from
      further on; and when no more than the announced bytes arrive, only incomplete. */
  lemma {:induction false} BodyExact(p: Parser, chunks: seq<string>) returns (b: Option<nat>)
    requires Waiting(p) && p.scanned == 0
    ensures var o, n, all := Resume(ProcessRead(p), chunks), p.req.contentLength, p.held + Flatten(chunks);
      && b == BodyAt(n, p.held, 0, chunks)
      && Taken(o, all, n, b)
      && (b == Some(0) <==> OnBase(n, p.held, 0, chunks))
      && (|all| < n ==> b == None)
      && (|all| == n ==> b == None || b == Some(0))
  {
    hide BodyAt, OnBase, ProcessRead;
    b := BodyAt(p.req.contentLength, p.held, 0, chunks);
    BodyTaken(p, chunks);
    BaseExact(p.req.contentLength, p.held, 0, chunks);
    BodyAtFits(p.req.contentLength, p.held, 0, chunks);
  }

  lemma {:induction false} BodyAtFits(n: nat, got: string, k: nat, chunks: seq<string>)
    requires k <= |got|
    ensures var b := BodyAt(n, got, k, chunks); b.Some? ==> b.value + n <= |got| + |Flatten(chunks)|
  {
  }

  /** The bytes of the reads that lie behind the blank line, when it was not reached before. */
  lemma {:induction false} BehindBlank(p: Parser, chunks: seq<string>, k: nat, got: string)
    requires p.Wf() && !p.state.Content? && !Decided(Head(p)) && 1 <= k <= |chunks| && |got| < |chunks[k - 1]|
    requires var whole := Head(p.Plus(Flatten(chunks))).parser;
      whole.state.Content? && got + Flatten(chunks[k..]) == whole.held
    ensures var n := |Head(p.Plus(Flatten(chunks))).parser.held|;
      n <= |Flatten(chunks)| && ReadsBehind(|Flatten(chunks)| - n, chunks) == (got, chunks[k..])
  {
    hide Head, Decided;
    var all, n := Flatten(chunks), |Head(p.Plus(Flatten(chunks))).parser.held|;
    LateBlank(p, all);
    HeadSuffix(p.Plus(all));
    assert (p.held + all)[|p.held + all| - n..] == all[|all| - n..];
    ReadsBehindIs(|all| - n, chunks, k, got);
  }

  /** A whole request with a body, cut into reads in any way, with any number of bytes
      behind it.  `got` and `rest` are the bytes behind the blank line of the read that
      brought it, and the later reads; they depend on the reads and on how many bytes the
      one read has behind its blank line. */
  lemma {:induction false} WholeRequest(p: Parser, chunks: seq<string>)
    returns (got: string, rest: seq<string>, b: Option<nat>)
    requires Unbroken(p) && !p.state.Content? && chunks != []
    requires var whole := Head(p.Plus(Flatten(chunks))); whole.verdict == NoRequest && Waiting(whole.parser)
    ensures exists k :: 0 <= k <= |chunks| && rest == chunks[k..]
    ensures var n := |Head(p.Plus(Flatten(chunks))).parser.held|;
      if Decided(Head(p)) then got == Head(p).parser.held + chunks[0] && rest == chunks[1..]
      else n <= |Flatten(chunks)| && (got, rest) == ReadsBehind(|Flatten(chunks)| - n, chunks)
    ensures var whole, o := Head(p.Plus(Flatten(chunks))).parser, Feed(p, chunks);
      var all, n := whole.held, whole.req.contentLength;
      && got + Flatten(rest) == all
      && o.parser.req == whole.req
      && b == BodyAt(n, got, 0, rest)
      && Taken(o, all, n, b)
      && (b == Some(0) <==> OnBase(n, got, 0, rest))
      && (|all| == n ==> b == None || b == Some(0))
  {
    hide BodyAt, OnBase, ProcessRead, Head, Feed, Taken, Flatten, Decided, ReadsBehind;
    var k, q := BodyStart(p, chunks);
    got, rest := q.held, chunks[k..];
    b := BodyExact(q, rest);
    KeepsRequest(q, rest);
    if !Decided(Head(p)) {
      BehindBlank(p, chunks, k, got);
    }
  }

  lemma {:induction false} KeepsRequest(p: Parser, chunks: seq<string>)
    requires Waiting(p)
    ensures Resume(ProcessRead(p), chunks).parser.req == p.req
  {
    hide ProcessRead, Scanned;
    OneCall(p);
    if ProcessRead(p).verdict == NoRequest {
      FeedKeepsRequest(ProcessRead(p).parser, chunks);
    }
  }

  predicate Letters(s: string) {
    forall c :: c in s ==> c != '\r' && c != '\n'
  }

  lemma {:induction false} LettersAreScanned(s: string)
    requires Letters(s)
    ensures Scanned(s) == (0, |s|)
  {
    assert forall i :: 0 <= i < |s| ==> s[i] in s;
    ScanStops(s, |s|);
  }

  /** A body without line ends that is whole after two reads: the bytes of the first one
      are given up when the second arrives. */
  lemma {:induction false} TwoReadsAt(n: nat, a: string, b: string, c: string)
    requires Letters(a) && Letters(b) && a != "" && b != "" && |a| + |b| == n && |c| >= n
    ensures BodyAt(n, a, 0, [b]) == None
    ensures BodyAt(n, a, 0, [b, c]) == Some(|a|)
  {
    hide Scanned;
    assert a[0..] == a && a[0..][0..] == a && (a + b)[|a|..] == b && b[0..] == b;
    LettersAreScanned(a);
    LettersAreScanned(b);
    assert [b][1..] == [] && [b, c][1..] == [c] && [c][1..] == [];
    assert BodyAt(n, b + c, |b|, []) == Some(0);
    assert BodyAt(n, a + b, |a|, [c]) == Some(|a|);
  }

  lemma {:induction false} FlattenTwo(b: string, c: string)
    ensures Flatten([b]) == b && Flatten([b, c]) == b + c
  {
    assert [b, c][1..] == [c] && [b][1..] == [] && [c][1..] == [];
    assert Flatten([]) == "" && b + "" == b && c + "" == c;
  }

  /** Such a request is not complete when its body is whole, and whatever is sent next, if
      long enough, completes it with the second part of the body and the bytes behind. */
  lemma {:induction false} SplitBodyIsLost(p: Parser, b: string, c: string)
    requires Waiting(p) && p.scanned == 0 && Letters(p.held) && Letters(b) && p.held != "" && b != ""
    requires |p.held| + |b| == p.req.contentLength <= |c|
    ensures Resume(ProcessRead(p), [b]).verdict == NoRequest
    ensures Resume(ProcessRead(p), [b, c]).verdict == GetRequest
    ensures Resume(ProcessRead(p), [b, c]).body == Some((b + c)[..p.req.contentLength])
  {
    hide ProcessRead, Resume, BodyAt, Letters;
    var n := p.req.contentLength;
    TwoReadsAt(n, p.held, b, c);
    FlattenTwo(b, c);
    BodyTaken(p, [b]);
    BodyTaken(p, [b, c]);
    assert (p.held + (b + c))[|p.held|..|p.held| + n] == (b + c)[..n];
  }

  /** A three-byte body "abc" whose request is served with the body "cde". */
  lemma {:induction false} WrongBody(req: Request)
    requires req.contentLength == 3
    ensures var o := Resume(ProcessRead(Parser(Content, req, "ab", 0)), ["c", "defg"]);
      o.verdict == GetRequest && o.body == Some("cde")
  {
    hide ProcessRead, Resume;
    SplitBodyIsLost(Parser(Content, req, "ab", 0), "c", "defg");
    assert ("c" + "defg")[..3] == "cde";
  }

  // ---- the intended test ----

  /** process_read on a body with the turn that process_read means: an incomplete body
      is left alone, so the base of the body does not move. */
  function IntendedRead(p: Parser): (o: Outcome)
    requires Waiting(p) && p.scanned == 0
  {
    if |p.held| >= p.req.contentLength then Turn(p).outcome else Outcome(NoRequest, p, None)
  }

  function IntendedFeed(p: Parser, chunks: seq<string>): Outcome
    requires Waiting(p) && p.scanned == 0
    decreases |chunks|
  {
    var o := IntendedRead(p);
    if o.verdict != NoRequest || chunks == [] then o
    else IntendedFeed(o.parser.Plus(chunks[0]), chunks[1..])
  }

  /** With it, every split completes the request exactly when n bytes have arrived, with
      the first n. */
  lemma {:induction false} IntendedBody(p: Parser, chunks: seq<string>)
    requires Waiting(p) && p.scanned == 0
    ensures var o, n, all := IntendedFeed(p, chunks), p.req.contentLength, p.held + Flatten(chunks);
      if |all| < n then o.verdict == NoRequest && o.parser == p.Plus(Flatten(chunks))
      else o.verdict == GetRequest && o.body == Some(all[..n])
    decreases |chunks|
  {
    var n := p.req.contentLength;
    if |p.held| >= n {
      assert (p.held + Flatten(chunks))[..n] == p.held[..n];
    } else if chunks == [] {
      PlusPlus(p, "", "");
    } else {
      IntendedBody(p.Plus(chunks[0]), chunks[1..]);
      PlusPlus(p, chunks[0], Flatten(chunks[1..]));
      assert p.held + Flatten(chunks) == p.held + chunks[0] + Flatten(chunks[1..]);
    }
  }

  /** The code as written agrees with the intended test on verdict and body whenever the
      base does not move; when n bytes have arrived and it does move, the code has not
      completed the request, or has taken the body from further on. */
  lemma {:induction false} IntendedAgrees(p: Parser, chunks: seq<string>) returns (b: Option<nat>)
    requires Waiting(p) && p.scanned == 0
    ensures var o, i, n := Resume(ProcessRead(p), chunks), IntendedFeed(p, chunks), p.req.contentLength;
      && b == BodyAt(n, p.held, 0, chunks)
      && (OnBase(n, p.held, 0, chunks) ==> b == Some(0) && o.verdict == i.verdict && o.body == i.body)
      && (i.verdict == GetRequest && !OnBase(n, p.held, 0, chunks) ==> b == None || b.value > 0)
      && (i.verdict == NoRequest ==> b == None && o.verdict == NoRequest)
  {
    hide BodyAt, OnBase, ProcessRead, IntendedFeed;
    b := BodyExact(p, chunks);
    IntendedBody(p, chunks);
  }

  /** At the end of every read that leaves the body incomplete, parse_line does not move. */
  predicate Clean(n: nat, got: string, chunks: seq<string>)
    decreases |chunks|
  {
    |got| >= n ||
    (ScanLine(got).status != LineOk && ScanLine(got).at == 0
     && (chunks == [] || Clean(n, got + chunks[0], chunks[1..])))
  }

  lemma {:induction false} WholeBody(p: Parser)
    requires Waiting(p) && p.scanned == 0 && |p.held| >= p.req.contentLength
    ensures IntendedRead(p) == ProcessRead(p) && ProcessRead(p).verdict == GetRequest
  {
    hide Cut, ScanLine;
  }

  /** On clean reads the code as written is the intended code, its whole state included. */
  lemma {:induction false} CleanAgrees(p: Parser, chunks: seq<string>)
    requires Waiting(p) && p.scanned == 0 && Clean(p.req.contentLength, p.held, chunks)
    ensures IntendedFeed(p, chunks) == Resume(ProcessRead(p), chunks)
    decreases |chunks|
  {
    if |p.held| >= p.req.contentLength {
      hide ProcessRead, IntendedRead;
      WholeBody(p);
    } else {
      hide ProcessRead, ScanLine, Scanned;
      OneCall(p);
      ScannedIs(p.held);
      assert p.held[0..] == p.held;
      if chunks != [] {
        CleanAgrees(p.Plus(chunks[0]), chunks[1..]);
      }
    }
  }

  /** With exactly the announced bytes, the reads that complete the request are the clean ones. */
  lemma {:induction false} CleanExact(n: nat, got: string, chunks: seq<string>)
    requires |got| + |Flatten(chunks)| == n
    ensures OnBase(n, got, 0, chunks) <==> Clean(n, got, chunks)
    decreases |chunks|
  {
    hide ScanLine;
    if |got| < n {
      assert chunks != [];
      var rest := got + chunks[0];
      if ScanLine(got).at == 0 {
        CleanExact(n, rest, chunks[1..]);
      } else if ScanLine(got).at <= |rest| {
        NotBehind(n, rest, ScanLine(got).at, chunks[1..]);
      }
    }
  }

  lemma {:induction false} NotBehind(n: nat, got: string, k: nat, chunks: seq<string>)
    requires 0 < k <= |got| && |got| + |Flatten(chunks)| == n
    ensures !OnBase(n, got, k, chunks)
  {
  }
}
