/** What `process_read` computes, as functions on values.  The buffer is reduced to
    the bytes from `m_start_line` on; `HttpConn` proves that the in-place code
    computes exactly these functions. */
module RequestParser {
  import opened Wrappers
  import opened CStrings
  import opened Decimal

  datatype Method = GET | POST
  datatype CheckState = RequestLine | Header | Content
  datatype LineStatus = LineOk | LineBad | LineOpen

  /** What has been learnt about the request; the `char*` fields as the strings they
      point to, a null pointer as `None`. */
  datatype Request = Request(
    verb: Method, cgi: bool, url: Option<string>,
    contentLength: int, linger: bool, host: Option<string>)

  const FRESH := Request(GET, false, None, 0, false, None)

  // ---- one line ----

  datatype Scan = Scan(status: LineStatus, at: nat)

  /** parse_line on the bytes not yet scanned: where it stops and what it reports. */
  function ScanLine(s: string): (r: Scan)
    ensures r.at <= |s| && forall i :: 0 <= i < r.at ==> s[i] != '\r' && s[i] != '\n'
    ensures r.at < |s| ==> s[r.at] == '\r' || s[r.at] == '\n'
    ensures r.status == LineOk ==> r.at + 2 <= |s| && s[r.at] == '\r' && s[r.at + 1] == '\n'
  {
    var i := Find(s, "\r\n");
    if i == |s| then Scan(LineOpen, i)
    else if s[i] == '\n' then Scan(LineBad, i)
    else if i + 1 == |s| then Scan(LineOpen, i)
    else if s[i + 1] == '\n' then Scan(LineOk, i)
    else Scan(LineBad, i)
  }

  /** A scan that passed `k` bytes and met a line end, or the end of the bytes. */
  lemma {:induction false} ScanStops(s: string, k: nat)
    requires k <= |s| && forall i :: 0 <= i < k ==> s[i] != '\r' && s[i] != '\n'
    requires k < |s| ==> s[k] == '\r' || s[k] == '\n'
    ensures ScanLine(s) == Scan(
      if k == |s| then LineOpen
      else if s[k] == '\n' then LineBad
      else if k + 1 == |s| then LineOpen
      else if s[k + 1] == '\n' then LineOk else LineBad, k)
  {
    FindIs(s, "\r\n", k);
  }

  function ParseRequestLine(req: Request, line: string): (r: (bool, Request))
    ensures r.1 == req.(verb := r.1.verb, cgi := r.1.cgi, url := r.1.url)
  {
    var u := Find(line, BLANKS);
    if u == |line| then (false, req.(url := None))
    else
      var (ok, url) := ParseTarget(line[u + 1..]);
      if EqualsNoCase(line[..u], "GET") then (ok, req.(verb := GET, url := url))
      else if EqualsNoCase(line[..u], "POST") then (ok, req.(verb := POST, cgi := true, url := url))
      else (false, req.(url := Some(line[u + 1..])))
  }

  lemma {:induction false} ParseRequestLineIs(req: Request, line: string, u: nat)
    requires u == Find(line, BLANKS)
    ensures ParseRequestLine(req, line) ==
      if u == |line| then (false, req.(url := None))
      else
        var (ok, url) := ParseTarget(line[u + 1..]);
        if EqualsNoCase(line[..u], "GET") then (ok, req.(verb := GET, url := url))
        else if EqualsNoCase(line[..u], "POST") then (ok, req.(verb := POST, cgi := true, url := url))
        else (false, req.(url := Some(line[u + 1..])))
  {
  }

  /** What follows the method: is it accepted, and what m_url ends up pointing to. */
  function ParseTarget(rest: string): (bool, Option<string>) {
    var t := Skip(rest, "\t");
    var v := Find(t, BLANKS);
    if v == |t| then (false, Some(t))
    else if !EqualsNoCase(Skip(t[v + 1..], BLANKS), "HTTP/1.1") then (false, Some(t[..v]))
    else ParsePath(StripScheme(t[..v]))
  }

  lemma {:induction false} ParseTargetIs(rest: string, t: string, v: nat)
    requires t == rest[Span(rest, "\t")..] && v == Find(t, BLANKS)
    ensures ParseTarget(rest) ==
      if v == |t| then (false, Some(t))
      else if !EqualsNoCase(Skip(t[v + 1..], BLANKS), "HTTP/1.1") then (false, Some(t[..v]))
      else ParsePath(StripScheme(t[..v]))
  {
  }

  /** The path of an absolute-form target, the target itself otherwise. */
  function StripScheme(target: string): Option<string> {
    if HasPrefixNoCase(target, "http://") then
      var s := Find(target[7..], "/");
      if s == |target[7..]| then None else Some(target[7 + s..])
    else Some(target)
  }

  function ParsePath(path: Option<string>): (bool, Option<string>) {
    if path.None? || path.value == "" || path.value[0] != '/' then (false, path)
    else if |path.value| == 1 then (true, Some("/judge.html"))
    else (true, path)
  }

  /** parse_headers on a line that is not blank. */
  function ParseHeader(req: Request, line: string): (r: Request)
    ensures r == req.(linger := r.linger, contentLength := r.contentLength, host := r.host)
  {
    if HasPrefixNoCase(line, "Connection:") then
      if EqualsNoCase(Skip(line[11..], BLANKS), "keep-alive") then req.(linger := true) else req
    else if HasPrefixNoCase(line, "Content-Length:") then
      req.(contentLength := ToInt32(Atol(Skip(line[15..], BLANKS))))
    else if HasPrefixNoCase(line, "Host:") then
      req.(host := Some(Skip(line[5..], BLANKS)))
    else req
  }

  // ---- the main state machine ----

  /** `held` is the buffer from m_start_line to m_read_idx, and `scanned` is
      m_checked_idx - m_start_line. */
  datatype Parser = Parser(state: CheckState, req: Request, held: string, scanned: nat) {
    predicate Wf() { scanned <= |held| }

    /** More bytes arrive. */
    function Plus(bytes: string): Parser { this.(held := held + bytes) }

    function Unscanned(): nat requires Wf() { |held| - scanned }
  }

  const START := Parser(RequestLine, FRESH, "", 0)

  /** `body` is what m_string points to when a request with a body is complete. */
  datatype Outcome = Outcome(verdict: HttpCode, parser: Parser, body: Option<string>)

  /** Both bytes of the line end are overwritten with NUL. */
  function EndLine(p: Parser, at: nat): (q: Parser)
    requires p.Wf() && p.scanned + at + 2 <= |p.held|
    ensures q.Wf() && q.Unscanned() == p.Unscanned() - at - 2
  {
    var end := p.scanned + at;
    p.(held := p.held[end := NUL][end + 1 := NUL], scanned := end + 2)
  }

  /** How a turn of the loop ends: `process_read` returns, or the loop goes on with
      line_status LINE_OK (`ok`) or LINE_OPEN. */
  datatype Next = Stop(outcome: Outcome) | Again(ok: bool, parser: Parser)

  /** The body of the loop of process_read; the text of the line ends at the first NUL. */
  function Turn(p: Parser): (r: Next)
    requires p.Wf()
    ensures r.Stop? ==> r.outcome.parser.Wf() && r.outcome.verdict != NoRequest
    ensures r.Again? ==> r.parser.Wf() && r.parser.Unscanned() == p.Unscanned() && r.parser.scanned == 0
    ensures r.Again? ==> r.ok == !p.state.Content? && (p.state.Content? ==> r.parser.state.Content?)
  {
    var text := Cut(p.held);
    var q := p.(held := p.held[p.scanned..], scanned := 0);
    match p.state
    case RequestLine =>
      var (ok, req) := ParseRequestLine(p.req, text);
      if ok then Again(true, q.(req := req, state := Header))
      else Stop(Outcome(BadRequest, q.(req := req), None))
    case Header =>
      if text != "" then Again(true, q.(req := ParseHeader(p.req, text)))
      else if p.req.contentLength != 0 then Again(true, q.(state := Content))
      else Stop(Outcome(GetRequest, q, None))
    case Content =>
      var n := p.req.contentLength;
      if n < 0 then Stop(Outcome(StrayWrite, q, None))
      else if |q.held| >= n then Stop(Outcome(GetRequest, CloseBody(p, q), Some(p.held[..n])))
      else Again(false, q)
  }

  /** The loop of process_read from its condition on; `ok` says that line_status is
      LINE_OK.  The measure is the unread bytes, then whether a turn on the body is due. */
  function Loop(ok: bool, p: Parser): (o: Outcome)
    requires p.Wf()
    ensures o.parser.Wf()
    decreases p.Unscanned(), p.state.Content? && ok
  {
    if p.state.Content? && ok then
      match Turn(p)
      case Stop(o) => o
      case Again(ok', q) => Loop(ok', q)
    else
      var s := ScanLine(p.held[p.scanned..]);
      if s.status != LineOk then Outcome(NoRequest, p.(scanned := p.scanned + s.at), None)
      else
        match Turn(EndLine(p, s.at))
        case Stop(o) => o
        case Again(ok', q) => Loop(ok', q)
  }

  /** The NUL stored behind the body. */
  function CloseBody(p: Parser, q: Parser): (r: Parser)
    requires p.Wf() && q.scanned == 0 && p.req.contentLength >= 0
    ensures r.Wf()
  {
    var k := p.req.contentLength - p.scanned;
    if 0 <= k < |q.held| then q.(held := q.held[k := NUL]) else q
  }

  /** One call of process_read. */
  function ProcessRead(p: Parser): (o: Outcome)
    requires p.Wf()
    ensures o.parser.Wf()
  {
    Loop(true, p)
  }
}
