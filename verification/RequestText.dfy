/** A whole request, as a client writes it, and what the server makes of it. */
module RequestText {
  import opened Wrappers
  import opened CStrings
  import opened Decimal
  import opened RequestParser
  import opened ChunkIndependence
  import opened RequestGrammar
  import opened HeaderRoundTrip
  import opened BodyCompletion

  /** The field lines, each with its line end. */
  function Block(lines: seq<string>): string {
    if lines == [] then "" else lines[0] + CRLF + Block(lines[1..])
  }

  predicate FieldLines(lines: seq<string>) {
    forall k :: 0 <= k < |lines| ==> lines[k] != "" && OneLine(lines[k])
  }

  // ---- what the field lines mean, each field on its own ----

  predicate Names(line: string, name: string) {
    HasPrefixNoCase(line, name)
  }

  /** The value behind a field name. */
  function Value(line: string, name: string): string
    requires Names(line, name)
  {
    Skip(line[|name|..], " \t")
  }

  /** The last line with this name. */
  function LastField(lines: seq<string>, name: string): Option<string> {
    if lines == [] then None
    else if Names(lines[|lines| - 1], name) then Some(Value(lines[|lines| - 1], name))
    else LastField(lines[..|lines| - 1], name)
  }

  function Length(lines: seq<string>): int {
    match LastField(lines, "Content-Length:")
    case None => 0
    case Some(v) => ToInt32(Atol(v))
  }

  predicate KeepAlive(lines: seq<string>) {
    exists k :: 0 <= k < |lines| && Names(lines[k], "Connection:")
      && EqualsNoCase(Value(lines[k], "Connection:"), "keep-alive")
  }

  /** The request line's verb and path, and of the fields: the last length, the last host,
      and whether any line asks to keep the connection. */
  function Understood(l: Line, lines: seq<string>): Request
    requires l.Valid()
  {
    var post := EqualsNoCase(l.verb, "POST");
    Meaning(FRESH, l).(
      verb := if post then POST else GET, cgi := post,
      contentLength := Length(lines), linger := KeepAlive(lines), host := LastField(lines, "Host:"))
  }

  /** parse_headers on one line after the other. */
  function Fold(req: Request, lines: seq<string>): Request {
    if lines == [] then req else ParseHeader(Fold(req, lines[..|lines| - 1]), lines[|lines| - 1])
  }

  lemma {:induction false} FoldFront(req: Request, lines: seq<string>)
    requires lines != []
    ensures Fold(req, lines) == Fold(ParseHeader(req, lines[0]), lines[1..])
    decreases |lines|
  {
    hide ParseHeader;
    var n := |lines| - 1;
    if n > 0 {
      FoldFront(req, lines[..n]);
      assert lines[..n][1..] == lines[1..][..n - 1];
      assert lines[1..][n - 1] == lines[n];
    } else {
      assert lines[1..] == [] && lines[..0] == [];
    }
  }

  /** No line has two of the names. */
  lemma {:induction false} OneName(line: string)
    ensures !(Names(line, "Connection:") && Names(line, "Content-Length:"))
    ensures !(Names(line, "Connection:") && Names(line, "Host:"))
    ensures !(Names(line, "Content-Length:") && Names(line, "Host:"))
  {
    if |line| >= 5 {
      NamedAt(line, "Connection:", 0);
      NamedAt(line, "Connection:", 3);
      NamedAt(line, "Content-Length:", 0);
      NamedAt(line, "Content-Length:", 3);
      NamedAt(line, "Host:", 0);
    }
  }

  lemma {:induction false} NamedAt(line: string, name: string, k: nat)
    requires k < |name| && k < |line|
    ensures Names(line, name) ==> ToLower(line[k]) == ToLower(name[k])
  {
    if Names(line, name) {
      assert line[..|name|][k] == line[k];
    }
  }

  /** The effect of one more line on each of the three fields. */
  lemma {:induction false} OneMore(req: Request, line: string)
    ensures ParseHeader(req, line) == req.(
      contentLength :=
        if Names(line, "Content-Length:") then ToInt32(Atol(Value(line, "Content-Length:"))) else req.contentLength,
      linger := req.linger || (Names(line, "Connection:") && EqualsNoCase(Value(line, "Connection:"), "keep-alive")),
      host := if Names(line, "Host:") then Some(Value(line, "Host:")) else req.host)
  {
    hide ToInt32, Atol, Skip, EqualsNoCase, HasPrefixNoCase;
    OneName(line);
  }

  lemma {:induction false} KeepAliveMore(lines: seq<string>)
    requires lines != []
    ensures var line := lines[|lines| - 1];
      KeepAlive(lines) <==> (
        KeepAlive(lines[..|lines| - 1])
        || (Names(line, "Connection:") && EqualsNoCase(Value(line, "Connection:"), "keep-alive")))
  {
    hide Names, Value, EqualsNoCase;
    var n := |lines| - 1;
    if KeepAlive(lines) {
      var k :| 0 <= k < |lines| && Names(lines[k], "Connection:")
        && EqualsNoCase(Value(lines[k], "Connection:"), "keep-alive");
      assert k < n ==> lines[..n][k] == lines[k];
    }
  }

  /** The lines one after the other give each field its meaning. */
  lemma {:induction false} FieldsMean(req: Request, lines: seq<string>)
    requires req.contentLength == 0 && !req.linger && req.host == None
    ensures Fold(req, lines) ==
            req.(contentLength := Length(lines), linger := KeepAlive(lines), host := LastField(lines, "Host:"))
  {
    hide ParseHeader, ToInt32, Atol, Names, Value, EqualsNoCase, KeepAlive;
    if lines == [] {
      assert !KeepAlive(lines) by { NoKeepAlive(); }
    } else {
      var n := |lines| - 1;
      FieldsMean(req, lines[..n]);
      OneMore(Fold(req, lines[..n]), lines[n]);
      KeepAliveMore(lines);
    }
  }

  lemma {:induction false} NoKeepAlive()
    ensures !KeepAlive([])
  {
  }

  /** process_read over the field lines. */
  lemma {:induction false} BlockIsRead(req: Request, lines: seq<string>, rest: string)
    requires FieldLines(lines)
    ensures Head(Parser(Header, req, Block(lines) + rest, 0)) == Head(Parser(Header, Fold(req, lines), rest, 0))
    decreases |lines|
  {
    hide Head, ParseHeader, OneLine, Fold;
    if lines == [] {
      assert "" + rest == rest;
      FoldNone(req);
    } else {
      var tail := Block(lines[1..]) + rest;
      assert Block(lines) + rest == lines[0] + "\r\n" + tail;
      FieldLine(req, lines[0], tail);
      FoldFront(req, lines);
      assert forall k :: 0 <= k < |lines[1..]| ==> lines[1..][k] == lines[k + 1];
      BlockIsRead(ParseHeader(req, lines[0]), lines[1..], rest);
    }
  }

  lemma {:induction false} FoldNone(req: Request)
    ensures Fold(req, []) == req
  {
  }

  /** process_read over the request line. */
  lemma {:induction false} LineIsRead(l: Line, rest: string)
    requires l.Valid() && OneLine(l.Text())
    ensures Head(START.Plus(l.Text() + CRLF + rest)) == Head(Parser(Header, Meaning(FRESH, l), rest, 0))
  {
    hide Head, ParseRequestLine, Meaning;
    var text := l.Text() + CRLF + rest;
    assert "" + text == text;
    EndOfLine(RequestLine, FRESH, l.Text(), rest);
    ValidIsAccepted(FRESH, l);
    HeadUnfold(Parser(RequestLine, FRESH, text, 0));
    hide Line.Text, Line.Valid;
  }

  /** The text of a request in front of its body. */
  function Text(l: Line, lines: seq<string>): string {
    l.Text() + CRLF + (Block(lines) + CRLF)
  }

  /** Every valid request line with any field lines is read to the blank line and
      understood: verb, path, length, keep-alive flag and host are what the text says. */
  lemma {:induction false} RequestIsRead(l: Line, lines: seq<string>, body: string)
    requires l.Valid() && OneLine(l.Text()) && FieldLines(lines)
    ensures var read := Understood(l, lines);
      Head(START.Plus(Text(l, lines) + body)) ==
        if read.contentLength == 0 then Outcome(GetRequest, Parser(Header, read, body, 0), None)
        else Outcome(NoRequest, Parser(Content, read, body, 0), None)
  {
    hide Head, Fold, Block, Length, KeepAlive, LastField, FieldLines;
    MeaningIsFresh(l);
    hide Meaning, Line.Text, Line.Valid;
    assert Text(l, lines) + body == l.Text() + CRLF + (Block(lines) + (CRLF + body));
    LineIsRead(l, Block(lines) + (CRLF + body));
    BlockIsRead(Meaning(FRESH, l), lines, CRLF + body);
    FieldsMean(Meaning(FRESH, l), lines);
    BlankLine(Understood(l, lines), body);
  }

  lemma {:induction false} MeaningIsFresh(l: Line)
    requires l.Valid()
    ensures var m := Meaning(FRESH, l);
      m.contentLength == 0 && !m.linger && m.host == None
      && (m.cgi <==> EqualsNoCase(l.verb, "POST")) && m.verb == (if m.cgi then POST else GET)
  {
  }

  /** A request without a body, cut into reads in any way: do_request is called with what
      the text says. */
  lemma {:induction false} InAnyReads(l: Line, lines: seq<string>, chunks: seq<string>)
    requires l.Valid() && OneLine(l.Text()) && FieldLines(lines) && Length(lines) == 0
    requires chunks != [] && Flatten(chunks) == Text(l, lines)
    ensures var o := Feed(START, chunks);
      o.verdict == GetRequest && o.parser.req == Understood(l, lines) && o.body == None
  {
    hide Head, Feed, Text, Understood, FieldLines, Line.Valid, Line.Text;
    LengthOf(l, lines);
    assert Text(l, lines) + "" == Text(l, lines);
    RequestIsRead(l, lines, "");
    ChunkIndependence.ChunkIndependence(START, chunks);
  }

  lemma {:induction false} LengthOf(l: Line, lines: seq<string>)
    requires l.Valid()
    ensures Understood(l, lines).contentLength == Length(lines)
  {
  }

  lemma {:induction false} NothingReadYet()
    ensures !Decided(Head(START))
  {
    hide Turn;
    ScanStops("", 0);
    assert ""[0..] == "";
  }

  /** A request with a body, cut into reads in any way and with any number of bytes behind
      its blank line.  `got` are the bytes behind the blank line in the read that brings it,
      `rest` the later reads.  do_request is called with n of the bytes from place `b` on or
      not at all, as `BodyAt` says; with the first n if and only if the base does not move. */
  lemma {:induction false} BodyInAnyReads(l: Line, lines: seq<string>, bytes: string, chunks: seq<string>)
    requires l.Valid() && OneLine(l.Text()) && FieldLines(lines) && Length(lines) > 0
    requires chunks != [] && Flatten(chunks) == Text(l, lines) + bytes
    ensures var (got, rest) := ReadsBehind(|Text(l, lines)|, chunks);
      var o, n, b := Feed(START, chunks), Length(lines), BodyAt(Length(lines), got, 0, rest);
      && got + Flatten(rest) == bytes
      && o.parser.req == Understood(l, lines)
      && Taken(o, bytes, n, b)
      && (b == Some(0) <==> OnBase(n, got, 0, rest))
      && (|bytes| == n ==> b == None || b == Some(0))
  {
    hide Head, Feed, Text, Understood, FieldLines, Line.Valid, Line.Text, BodyAt, OnBase, Taken, ReadsBehind;
    LengthOf(l, lines);
    RequestIsRead(l, lines, bytes);
    NothingReadYet();
    var got, rest, b := WholeRequest(START, chunks);
  }

  // ---- requests that are refused ----

  /** A line of text that is no request line of the grammar. */
  ghost predicate Refused(line: string) {
    OneLine(line) && forall l: Line :: l.Valid() ==> l.Text() != line
  }

  lemma {:induction false} RefusedIsRead(line: string, rest: string)
    requires Refused(line)
    ensures var o := Head(START.Plus(line + CRLF + rest)); o.verdict == BadRequest && o.body == None
  {
    hide Head, ParseRequestLine, Line.Text, Line.Valid, Cut;
    var text := line + CRLF + rest;
    assert "" + text == text;
    EndOfLine(RequestLine, FRESH, line, rest);
    HeadUnfold(Parser(RequestLine, FRESH, text, 0));
    if ParseRequestLine(FRESH, line).0 {
      var l := AcceptedIsValid(FRESH, line);
    }
  }

  /** A request whose first line is no request line is answered with BAD_REQUEST, whatever
      follows the line and however the bytes are cut into reads. */
  lemma {:induction false} RefusedInAnyReads(line: string, rest: string, chunks: seq<string>)
    requires Refused(line) && chunks != [] && Flatten(chunks) == line + CRLF + rest
    ensures Feed(START, chunks).verdict == BadRequest && Feed(START, chunks).body == None
    ensures ProcessRead(START.Plus(line + CRLF + rest)).verdict == BadRequest
  {
    hide Head, Feed, Refused, ProcessRead, Turn;
    RefusedIsRead(line, rest);
    ChunkIndependence.ChunkIndependence(START, chunks);
    AtOnce(START.Plus(line + CRLF + rest));
  }

  lemma {:induction false} AtOnce(p: Parser)
    requires p.Wf() && !p.state.Content? && Head(p).verdict != NoRequest
    ensures ProcessRead(p) == Head(p)
  {
    LoopIsHead(true, p);
    hide Head, Loop;
  }

  /** A valid request line, for comparison, is never answered so. */
  lemma {:induction false} ValidIsNotRefused(l: Line, lines: seq<string>, body: string)
    requires l.Valid() && OneLine(l.Text()) && FieldLines(lines)
    ensures Head(START.Plus(Text(l, lines) + body)).verdict != BadRequest
  {
    hide Head, Text, Understood;
    RequestIsRead(l, lines, body);
  }

  /** With a negative length the store behind the body lies in front of it, as soon as the
      blank line is read and whatever the reads. */
  lemma {:induction false} NegativeLengthIsStray(l: Line, lines: seq<string>, bytes: string, chunks: seq<string>)
    requires l.Valid() && OneLine(l.Text()) && FieldLines(lines) && Length(lines) < 0
    requires chunks != [] && Flatten(chunks) == Text(l, lines) + bytes
    ensures Feed(START, chunks).verdict == StrayWrite
  {
    hide Head, Feed, Text, Understood, FieldLines, Line.Valid, Line.Text, ProcessRead;
    LengthOf(l, lines);
    RequestIsRead(l, lines, bytes);
    var k, q := BodyStart(START, chunks);
    StrayTurn(q);
  }

  lemma {:induction false} StrayTurn(p: Parser)
    requires p.Wf() && p.state.Content? && p.req.contentLength < 0
    ensures ProcessRead(p).verdict == StrayWrite
  {
    hide Cut, ScanLine;
  }
}
