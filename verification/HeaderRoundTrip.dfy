/** The header printer of the response side and the header parser of the request side
    undo each other, and a reply announces the length it has. */
module HeaderRoundTrip {
  import opened Wrappers
  import opened CStrings
  import opened Decimal
  import opened RequestParser
  import opened ChunkIndependence
  import opened ResponseText

  /** One field line in front of other bytes. */
  lemma {:induction false} FieldLine(req: Request, line: string, rest: string)
    requires line != "" && OneLine(line)
    ensures Head(Parser(Header, req, line + "\r\n" + rest, 0)) == Head(Parser(Header, ParseHeader(req, line), rest, 0))
  {
    hide ParseHeader;
    EndOfLine(Header, req, line, rest);
    HeadUnfold(Parser(Header, req, line + "\r\n" + rest, 0));
  }

  /** The blank line. */
  lemma {:induction false} BlankLine(req: Request, rest: string)
    ensures Head(Parser(Header, req, "\r\n" + rest, 0)) ==
      if req.contentLength == 0 then Outcome(GetRequest, Parser(Header, req, rest, 0), None)
      else Outcome(NoRequest, Parser(Content, req, rest, 0), None)
  {
    EndOfLine(Header, req, "", rest);
    assert "" + "\r\n" + rest == "\r\n" + rest;
    HeadUnfold(Parser(Header, req, "\r\n" + rest, 0));
    HeadOfContent(Parser(Content, req, rest, 0));
  }

  lemma {:induction false} EndOfLine(state: CheckState, req: Request, line: string, rest: string)
    requires OneLine(line)
    ensures var p := Parser(state, req, line + "\r\n" + rest, 0);
      && ScanLine(p.held[p.scanned..]) == Scan(LineOk, |line|)
      && Cut(EndLine(p, |line|).held) == line
      && EndLine(p, |line|).held[EndLine(p, |line|).scanned..] == rest
  {
    var s := line + "\r\n" + rest;
    assert s[0..] == s;
    assert forall i :: 0 <= i < |line| ==> s[i] == line[i] && line[i] in line;
    ScanStops(s, |line|);
    var e := EndLine(Parser(state, req, s, 0), |line|).held;
    assert e[..|line|] == line;
    CutIs(e, |line|);
    assert e[|line| + 2..] == rest;
  }

  /** A field line of the printed shape, with its name found and its blank passed over. */
  lemma {:induction false} NamedField(name: string, value: string)
    requires value != "" && value[0] !in BLANKS
    ensures var line := name + " " + value;
      HasPrefixNoCase(line, name) && Skip(line[|name|..], BLANKS) == value
  {
    hide Span;
    var line := name + " " + value;
    assert line[..|name|] == name;
    assert line[|name|..] == " " + value;
    SpanFront(" ", value, BLANKS);
    assert (" " + value)[1..] == value;
  }

  lemma {:induction false} LengthIsRead(req: Request, n: int)
    requires -INT32_MAX - 1 <= n <= INT32_MAX
    ensures ParseHeader(req, LengthLine(n)) == req.(contentLength := n)
  {
    hide Skip, Atol, ToInt32, PrintInt;
    PrintIntFront(n);
    NamedField("Content-Length:", PrintInt(n));
    NotConnection(LengthLine(n));
    AtolPrintInt(n);
  }

  lemma {:induction false} PrintIntFront(n: int)
    ensures PrintInt(n) != "" && PrintInt(n)[0] !in BLANKS
    ensures OneLine(PrintInt(n))
  {
    if n >= 0 {
      assert Print(n)[0] in Print(n);
    }
  }

  lemma {:induction false} AtolPrintInt(n: int)
    requires -INT32_MAX - 1 <= n <= INT32_MAX
    ensures ToInt32(Atol(PrintInt(n))) == n
  {
    if n < 0 {
      ReadPrint(-n);
      assert PrintInt(n)[1..] == Print(-n);
    } else {
      AtolPrint(n);
    }
  }

  lemma {:induction false} NotConnection(line: string)
    requires |line| > 3 && line[3] == 't'
    ensures !HasPrefixNoCase(line, "Connection:")
  {
    if |line| >= 11 {
      assert ToLower(line[..11][3]) != ToLower("Connection:"[3]);
    }
  }

  lemma {:induction false} LingerIsRead(req: Request, linger: bool)
    ensures ParseHeader(req, LingerLine(linger)) == if linger then req.(linger := true) else req
  {
    hide Skip, HasPrefixNoCase;
    NamedField("Connection:", if linger then "keep-alive" else "close");
  }

  predicate OneLine(s: string) {
    forall c :: c in s ==> c != '\r' && c != '\n' && c != NUL
  }

  lemma {:induction false} PrintedLines(n: int, linger: bool)
    ensures OneLine(LengthLine(n)) && LengthLine(n) != ""
    ensures OneLine(LingerLine(linger)) && LingerLine(linger) != ""
  {
    PrintIntFront(n);
    forall c | c in LengthLine(n) ensures c != '\r' && c != '\n' && c != NUL {
      assert c in "Content-Length:" + " " || c in PrintInt(n);
    }
  }

  /** What add_headers prints is read back: the length, the keep-alive flag, and whether a
      body follows, for every `int` that is not negative and whatever bytes follow. */
  lemma {:induction false} HeadersRoundTrip(req: Request, n: int, linger: bool, rest: string)
    requires -INT32_MAX - 1 <= n <= INT32_MAX && !req.linger
    ensures var read := req.(contentLength := n, linger := linger);
      Head(Parser(Header, req, Headers(n, linger) + rest, 0)) ==
        if n == 0 then Outcome(GetRequest, Parser(Header, read, rest, 0), None)
        else Outcome(NoRequest, Parser(Content, read, rest, 0), None)
  {
    hide LengthLine, LingerLine, ParseHeader, Head;
    var tail := LingerLine(linger) + CRLF + (CRLF + rest);
    assert Headers(n, linger) + rest == LengthLine(n) + CRLF + tail;
    LengthIsRead(req, n);
    LingerIsRead(req.(contentLength := n), linger);
    PrintedLines(n, linger);
    FieldLine(req, LengthLine(n), tail);
    FieldLine(req.(contentLength := n), LingerLine(linger), CRLF + rest);
    BlankLine(req.(contentLength := n, linger := linger), rest);
  }

  /** Behind the status line of an error page, the header parser finds as many bytes as the
      page announced (section 3.3.2 of RFC 7230). */
  lemma {:induction false} PageIsFramed(code: HttpCode, linger: bool)
    requires code in {BadRequest, NoResource, ForbiddenRequest, InternalError}
    ensures var page := ErrorPage(code);
      var status, text := StatusLine(page.status, page.title), PageText(page, linger);
      && status <= text
      && var o := Head(Parser(Header, FRESH, text[|status|..], 0));
        o.parser.state.Content? && o.parser.req.contentLength == |o.parser.held| && o.parser.held == page.form
  {
    hide Head, Headers, StatusLine;
    var page := ErrorPage(code);
    PageLengths(code);
    HeadersRoundTrip(FRESH, |page.form|, linger, page.form);
    var status, text := StatusLine(page.status, page.title), PageText(page, linger);
    assert text == status + (Headers(|page.form|, linger) + page.form);
    assert text[|status|..] == Headers(|page.form|, linger) + page.form;
  }

  /** Behind the header of a file, the announced length is the file size if and only if the
      size fits an `int`. */
  lemma {:induction false} FileIsFramed(size: nat, linger: bool)
    requires size > 0
    ensures var status, text := StatusLine(200, OK_200_TITLE), FileHead(size, linger);
      && status <= text
      && var o := Head(Parser(Header, FRESH, text[|status|..], 0));
        o.parser.held == "" && (o.parser.req.contentLength == size <==> size <= INT32_MAX)
  {
    hide Head, Headers, StatusLine;
    HeadersRoundTrip(FRESH, ToInt32(size), linger, "");
    var status, text := StatusLine(200, OK_200_TITLE), FileHead(size, linger);
    assert text[|status|..] == Headers(ToInt32(size), linger) + "";
  }
}
