/** The request side of `http_conn`: one fixed buffer, parsed in place. */
module HttpConnection {
  import opened Wrappers
  import opened CStrings
  import opened Decimal
  import opened RequestParser
  import Reads = ChunkIndependence

  const READ_BUFFER_SIZE := 2048

  /** What recv reports when there are no more bytes. */
  datatype SocketEnd = WouldBlock | Closed | Failed

  /** A `char*` into the buffer is an index, a null pointer is `None`. */
  class HttpConn {
    const readBuf: array<char>
    var readIdx: nat
    var checkedIdx: nat
    var startLine: nat
    var checkState: CheckState
    var verb: Method
    var cgi: bool
    var url: Option<nat>
    var version: Option<nat>
    var host: Option<nat>
    var contentLength: int
    var linger: bool
    var content: Option<nat>

    ghost predicate Valid()
      reads this, readBuf
    {
      && readBuf.Length == READ_BUFFER_SIZE
      && startLine <= checkedIdx <= readIdx <= READ_BUFFER_SIZE
      && (checkedIdx > 0 ==> readBuf[checkedIdx - 1] != '\r')
      && Settled(url, startLine) && Settled(host, startLine)
      && (checkState.RequestLine? ==> host == None)
    }

    /** The pointer is null, or its string ends before `limit`. */
    ghost predicate Settled(p: Option<nat>, limit: nat)
      reads readBuf
      requires limit <= readBuf.Length
    {
      p.Some? ==> p.value < limit && NUL in readBuf[p.value..limit]
    }

    ghost function Text(p: Option<nat>): Option<string>
      reads readBuf
    {
      if p.None? || p.value > readBuf.Length then None else Some(Cut(readBuf[p.value..]))
    }

    ghost function Req(): Request
      reads this, readBuf
    {
      Request(verb, cgi, Text(url), contentLength, linger, Text(host))
    }

    /** The abstract parser this object represents. */
    ghost function Abs(): (p: Parser)
      reads this, readBuf
      requires Valid()
      ensures p.Wf()
    {
      Parser(checkState, Req(), readBuf[startLine..readIdx], checkedIdx - startLine)
    }

    constructor ()
      ensures Valid() && fresh(readBuf) && Abs() == START
    {
      readBuf := new char[READ_BUFFER_SIZE](_ => NUL);
      checkState, verb, cgi, linger, contentLength := RequestLine, GET, false, false, 0;
      url, version, host, content := None, None, None, None;
      readIdx, checkedIdx, startLine := 0, 0, 0;
    }

    /** Ready for the next request. */
    method Init()
      requires Valid()
      modifies this, readBuf
      ensures Valid() && Abs() == START
    {
      checkState, verb, cgi, linger, contentLength := RequestLine, GET, false, false, 0;
      url, version, host := None, None, None;
      readIdx, checkedIdx, startLine := 0, 0, 0;
      forall i | 0 <= i < readBuf.Length { readBuf[i] := NUL; }
    }

    /** The bytes from `lo` to `hi` are the old ones. */
    twostate predicate Untouched(lo: int, hi: int)
      reads readBuf
    {
      forall i {:trigger readBuf[i]} :: lo <= i < hi && 0 <= i < readBuf.Length ==> readBuf[i] == old(readBuf[i])
    }

    /** Stores at or behind `limit` leave the strings settled there alone. */
    twostate lemma Kept(limit: nat)
      requires limit <= readBuf.Length && url == old(url) && host == old(host)
      requires old(Settled(url, limit)) && old(Settled(host, limit))
      requires Untouched(0, limit)
      ensures Settled(url, limit) && Settled(host, limit)
      ensures Text(url) == old(Text(url)) && Text(host) == old(Text(host))
    {
      assert readBuf[..limit] == old(readBuf[..])[..limit];
      if url.Some? { CutBelow(old(readBuf[..]), readBuf[..], url.value, limit); }
      if host.Some? { CutBelow(old(readBuf[..]), readBuf[..], host.value, limit); }
    }

    /** read: `avail` are the bytes the socket has, `end` is what recv reports behind them.
        How many bytes each recv hands over is up to the kernel; a recv into no room
        returns 0. */
    method Read(avail: string, end: SocketEnd) returns (ok: bool)
      requires Valid()
      modifies this`readIdx, readBuf
      ensures Valid()
      ensures ok <==> end.WouldBlock? && old(readIdx) + |avail| < 2048
      ensures ok ==> readIdx < READ_BUFFER_SIZE && Abs() == old(Abs()).Plus(avail)
    {
      hide Settled, Text;
      if readIdx >= READ_BUFFER_SIZE {
        return false;
      }
      ghost var start := readIdx;
      var got := 0;
      while true
        invariant got <= |avail| && readIdx == start + got <= READ_BUFFER_SIZE
        invariant Untouched(0, start)
        invariant forall i :: 0 <= i < got ==> readBuf[start + i] == avail[i]
        decreases |avail| - got
      {
        if readIdx == READ_BUFFER_SIZE {
          Kept(startLine);
          return false;
        }
        if got == |avail| {
          Kept(startLine);
          assert readBuf[startLine..readIdx] == old(readBuf[startLine..readIdx]) + avail;
          return end.WouldBlock?;
        }
        var n :| 1 <= n <= READ_BUFFER_SIZE - readIdx && n <= |avail| - got;
        forall i | 0 <= i < n { readBuf[readIdx + i] := avail[got + i]; }
        readIdx := readIdx + n;
        got := got + n;
      }
    }

    /** The two bytes in front of m_checked_idx are NUL now, and no other byte changed. */
    twostate predicate EndedLine()
      reads this, readBuf
      requires 2 <= checkedIdx <= readBuf.Length
    {
      && readBuf[checkedIdx - 2] == NUL && readBuf[checkedIdx - 1] == NUL
      && Untouched(0, checkedIdx - 2) && Untouched(checkedIdx, readBuf.Length)
    }

    /** Both bytes of a line end become NUL. */
    method TerminateLine()
      requires Valid() && checkedIdx + 2 <= readIdx
      modifies this`checkedIdx, readBuf
      ensures Valid() && Req() == old(Req())
      ensures checkedIdx == old(checkedIdx) + 2 && EndedLine()
    {
      readBuf[checkedIdx] := NUL;
      checkedIdx := checkedIdx + 1;
      readBuf[checkedIdx] := NUL;
      checkedIdx := checkedIdx + 1;
      Kept(startLine);
    }

    /** What parse_line does where it meets a CR, an LF or the end of the bytes. */
    method AtLineEnd() returns (r: LineStatus)
      requires Valid()
      requires checkedIdx < readIdx ==> readBuf[checkedIdx] == '\r' || readBuf[checkedIdx] == '\n'
      modifies this`checkedIdx, readBuf
      ensures Valid() && Req() == old(Req())
      ensures r ==
        if old(checkedIdx) == readIdx then LineOpen
        else if old(readBuf[checkedIdx]) == '\n' then LineBad
        else if old(checkedIdx) + 1 == readIdx then LineOpen
        else if old(readBuf[checkedIdx + 1]) == '\n' then LineOk else LineBad
      ensures r != LineOk ==> checkedIdx == old(checkedIdx) && Untouched(0, readBuf.Length)
      ensures r == LineOk ==> checkedIdx == old(checkedIdx) + 2 && EndedLine()
    {
      if checkedIdx == readIdx {
        return LineOpen;
      }
      var temp := readBuf[checkedIdx];
      if temp == '\r' {
        if checkedIdx + 1 == readIdx {
          return LineOpen;
        } else if readBuf[checkedIdx + 1] == '\n' {
          TerminateLine();
          return LineOk;
        }
        return LineBad;
      } else {
        if checkedIdx > 1 && readBuf[checkedIdx - 1] == '\r' {
          // Here parse_line would end the line; the scan never passes a CR, so it cannot happen.
          assert false;
        }
        return LineBad;
      }
    }

    /** parse_line: scan on, and report the line. */
    method ParseLine() returns (r: LineStatus)
      requires Valid()
      modifies this`checkedIdx, readBuf
      ensures Valid() && Req() == old(Req())
      ensures var s := ScanLine(old(readBuf[checkedIdx..readIdx]));
        && r == s.status
        && (r != LineOk ==> checkedIdx == old(checkedIdx) + s.at && Untouched(0, readBuf.Length))
        && (r == LineOk ==> checkedIdx == old(checkedIdx) + s.at + 2 && EndedLine())
    {
      hide ScanLine;
      ghost var start, unread := checkedIdx, readBuf[checkedIdx..readIdx];
      SkipText();
      ScanStops(unread, checkedIdx - start);
      r := AtLineEnd();
    }

    /** The loop of parse_line: up to a CR, an LF or the end of the bytes. */
    method SkipText()
      requires Valid()
      modifies this`checkedIdx
      ensures Valid() && old(checkedIdx) <= checkedIdx
      ensures forall i :: old(checkedIdx) <= i < checkedIdx ==> readBuf[i] != '\r' && readBuf[i] != '\n'
      ensures checkedIdx < readIdx ==> readBuf[checkedIdx] == '\r' || readBuf[checkedIdx] == '\n'
    {
      while checkedIdx < readIdx
        invariant old(checkedIdx) <= checkedIdx <= readIdx
        invariant forall i :: old(checkedIdx) <= i < checkedIdx ==> readBuf[i] != '\r' && readBuf[i] != '\n'
        invariant checkedIdx > 0 ==> readBuf[checkedIdx - 1] != '\r'
      {
        var temp := readBuf[checkedIdx];
        if temp == '\r' || temp == '\n' {
          break;
        }
        checkedIdx := checkedIdx + 1;
      }
    }

    /** The C string at a pointer. */
    function At(p: nat): (s: string)
      reads readBuf
      requires p <= readBuf.Length
    {
      Cut(readBuf[p..])
    }

    /** A complete line lies between `text` and m_start_line, closed by two NULs. */
    ghost predicate LineAt(text: nat)
      reads this`startLine, readBuf
      requires startLine <= readBuf.Length
    {
      text + 2 <= startLine && readBuf[startLine - 2] == NUL && readBuf[startLine - 1] == NUL
    }

    /** A NUL stored into the string at `p` splits it in two. */
    method Split(p: nat, k: nat)
      requires readBuf.Length == READ_BUFFER_SIZE && startLine <= READ_BUFFER_SIZE
      requires LineAt(p) && k < |At(p)|
      modifies readBuf
      ensures At(p) == old(At(p))[..k] && At(p + k + 1) == old(At(p))[k + 1..]
      ensures LineAt(p + k + 1) && p + k + 1 + |At(p + k + 1)| + 2 <= startLine
      ensures Untouched(0, p + k) && readBuf[p + k] == NUL && Untouched(p + k + 1, readBuf.Length)
    {
      Bound(p);
      CutStore(readBuf[..], p, k);
      ghost var before := readBuf[..];
      readBuf[p + k] := NUL;
      assert readBuf[..] == before[p + k := NUL];
      Tails(before, p);
      Tails(readBuf[..], p);
      Tails(readBuf[..], p + k + 1);
    }

    lemma {:induction false} Tails(b: string, p: nat)
      requires p <= |b|
      ensures b[p..] == b[p..|b|]
    {
    }

    /** The string of a line ends before the two NULs that close the line. */
    lemma {:induction false} Bound(p: nat)
      requires startLine <= readBuf.Length && LineAt(p)
      ensures p + |At(p)| + 2 <= startLine
    {
      assert readBuf[p..][startLine - 2 - p] == NUL;
      assert forall i :: 0 <= i < |At(p)| ==> At(p)[i] == readBuf[p + i] && At(p)[i] in At(p);
    }

    /** The NUL in front of the next line ends every string of this line. */
    lemma {:induction false} UrlSettled()
      requires startLine <= readBuf.Length && 0 < startLine && readBuf[startLine - 1] == NUL
      requires url.Some? ==> url.value < startLine
      ensures Settled(url, startLine)
    {
      if url.Some? {
        assert readBuf[url.value..startLine][startLine - 1 - url.value] == NUL;
      }
    }

    method ParseRequestLine(text: nat) returns (code: HttpCode)
      requires Valid() && checkState.RequestLine? && LineAt(text)
      modifies this`url, this`version, this`verb, this`cgi, this`checkState, readBuf
      ensures Valid()
      ensures var (ok, req) := RequestParser.ParseRequestLine(old(Req()), old(At(text)));
        && Req() == req
        && code == (if ok then NoRequest else BadRequest)
        && checkState == (if ok then Header else RequestLine)
      ensures Untouched(0, text) && Untouched(startLine, readBuf.Length)
    {
      hide RequestParser.ParseRequestLine;
      code := ParseMethod(text);
      UrlSettled();
    }

    /** parse_request_line, without what it leaves unchanged. */
    method ParseMethod(text: nat) returns (code: HttpCode)
      requires readBuf.Length == READ_BUFFER_SIZE && startLine <= READ_BUFFER_SIZE && LineAt(text)
      requires checkState.RequestLine? && host == None
      modifies this`url, this`version, this`verb, this`cgi, this`checkState, readBuf
      ensures url.Some? ==> url.value < startLine
      ensures readBuf[startLine - 1] == NUL
      ensures var (ok, req) := RequestParser.ParseRequestLine(old(Req()), old(At(text)));
        && verb == req.verb && cgi == req.cgi && Text(url) == req.url
        && code == (if ok then NoRequest else BadRequest)
        && checkState == (if ok then Header else RequestLine)
      ensures Untouched(0, text) && Untouched(startLine, readBuf.Length)
    {
      hide RequestParser.ParseRequestLine, RequestParser.ParseTarget, EqualsNoCase, Cut, Find, At, LineAt;
      Bound(text);
      LineEnds(text);
      var u := Find(At(text), BLANKS);
      ParseRequestLineIs(Req(), At(text), u);
      if u == |At(text)| {
        url := None;
        return BadRequest;
      }
      Split(text, u);
      url := Some(text + u + 1);
      ghost var rest := At(url.value);
      if EqualsNoCase(At(text), "GET") {
        verb := GET;
      } else if EqualsNoCase(At(text), "POST") {
        verb := POST;
        cgi := true;
      } else {
        UrlText();
        return BadRequest;
      }
      code := ParseTarget();
      assert RequestParser.ParseTarget(rest) == (code == NoRequest, Text(url));
    }

    /** Passing over characters at the front of a string. */
    lemma {:induction false} Drop(p: nat, k: nat)
      requires startLine <= readBuf.Length && LineAt(p) && k <= |At(p)|
      ensures LineAt(p + k) && At(p + k) == At(p)[k..]
    {
      Bound(p);
      CutDrop(readBuf[..], p, k);
      Tails(readBuf[..], p);
      Tails(readBuf[..], p + k);
    }

    /** The rest of parse_request_line, from the target on. */
    method ParseTarget() returns (code: HttpCode)
      requires readBuf.Length == READ_BUFFER_SIZE && startLine <= READ_BUFFER_SIZE
      requires url.Some? && LineAt(url.value) && checkState.RequestLine?
      modifies this`url, this`version, this`checkState, readBuf
      ensures url.Some? ==> url.value < startLine
      ensures readBuf[startLine - 1] == NUL
      ensures var (ok, target) := RequestParser.ParseTarget(old(At(url.value)));
        && Text(url) == target
        && code == (if ok then NoRequest else BadRequest)
        && checkState == (if ok then Header else RequestLine)
      ensures Untouched(0, old(url.value)) && Untouched(startLine, readBuf.Length)
    {
      hide EqualsNoCase, RequestParser.ParseTarget, RequestParser.ParsePath, StripScheme, Cut, Find, Span, Skip, At;
      var tabs := Span(At(url.value), "\t");
      Drop(url.value, tabs);
      var p := url.value + tabs;
      url := Some(p);
      ghost var t := At(p);
      var v := Find(At(p), BLANKS);
      ParseTargetIs(old(At(url.value)), t, v);
      if v == |At(p)| {
        version := None;
        UrlText();
        return BadRequest;
      }
      Split(p, v);
      assert At(p) == t[..v] && At(p + v + 1) == t[v + 1..];
      code := ParseVersion(p + v + 1);
    }

    /** The version, at `w`, behind the target at m_url. */
    method ParseVersion(w: nat) returns (code: HttpCode)
      requires readBuf.Length == READ_BUFFER_SIZE && startLine <= READ_BUFFER_SIZE
      requires url.Some? && LineAt(w) && checkState.RequestLine?
      requires url.value <= readBuf.Length && url.value + |At(url.value)| < w
      modifies this`url, this`version, this`checkState, readBuf
      ensures url.Some? ==> url.value < startLine
      ensures readBuf[startLine - 1] == NUL
      ensures var target := old(At(url.value));
        var r := if !EqualsNoCase(Skip(old(At(w)), BLANKS), "HTTP/1.1") then (false, Some(target))
                 else RequestParser.ParsePath(StripScheme(target));
        && Text(url) == r.1
        && code == (if r.0 then NoRequest else BadRequest)
        && checkState == (if r.0 then Header else RequestLine)
      ensures Untouched(0, old(url.value)) && Untouched(startLine, readBuf.Length)
    {
      hide EqualsNoCase, RequestParser.ParsePath, StripScheme, Cut, Find, Span, At;
      var blanks := Span(At(w), BLANKS);
      Drop(w, blanks);
      version := Some(w + blanks);
      if !EqualsNoCase(At(w + blanks), "HTTP/1.1") {
        UrlText();
        return BadRequest;
      }
      EightLong(w + blanks);
      code := ParsePath(w + blanks);
    }

    lemma {:induction false} LineEnds(text: nat)
      requires startLine <= readBuf.Length && LineAt(text)
      ensures text + 2 <= startLine && readBuf[startLine - 1] == NUL
    {
    }

    lemma {:induction false} UrlText()
      requires url.Some? ==> url.value <= readBuf.Length
      ensures Text(url) == if url.Some? then Some(At(url.value)) else None
    {
    }

    lemma {:induction false} EightLong(w: nat)
      requires w <= readBuf.Length && EqualsNoCase(At(w), "HTTP/1.1")
      ensures |At(w)| == 8
    {
    }

    /** The last part of parse_request_line: the target at m_url, followed by a NUL, by
        blanks, and at `w` by the eight bytes of the version.  Rewriting "/" to
        "/judge.html" takes twelve bytes from m_url on, and that many are there. */
    method ParsePath(w: nat) returns (code: HttpCode)
      requires readBuf.Length == READ_BUFFER_SIZE && startLine <= READ_BUFFER_SIZE
      requires url.Some? && LineAt(w) && |At(w)| == 8 && checkState.RequestLine?
      requires url.value <= readBuf.Length && url.value + |At(url.value)| < w
      modifies this`url, this`checkState, readBuf
      ensures url.Some? ==> url.value < startLine
      ensures readBuf[startLine - 1] == NUL
      ensures var (ok, target) := RequestParser.ParsePath(StripScheme(old(At(url.value))));
        && Text(url) == target
        && code == (if ok then NoRequest else BadRequest)
        && checkState == (if ok then Header else RequestLine)
      ensures Untouched(0, old(url.value)) && Untouched(startLine, readBuf.Length)
    {
      hide Cut, Find, EqualsNoCase, LineAt, At, StripScheme, Text;
      Bound(w);
      LineEnds(w);
      StripUrl();
      UrlText();
      if url.None? || At(url.value) == "" || At(url.value)[0] != '/' {
        return BadRequest;
      }
      if |At(url.value)| == 1 {
        StrCat(url.value, "judge.html");
        assert At(url.value) == "/" + "judge.html" == "/judge.html";
        UrlText();
      }
      checkState := Header;
      return NoRequest;
    }

    /** An absolute-form target is cut down to its path. */
    method StripUrl()
      requires url.Some? && url.value <= readBuf.Length
      modifies this`url
      ensures Text(url) == StripScheme(old(At(url.value)))
      ensures url.Some? ==> old(url.value) <= url.value <= readBuf.Length
      ensures url.Some? ==> url.value + |At(url.value)| == old(url.value + |At(url.value)|)
    {
      hide EqualsNoCase, Find, Cut;
      var p := url.value;
      if HasPrefixNoCase(At(p), "http://") {
        CutDrop(readBuf[..], p, 7);
        var s := Find(At(p + 7), "/");
        if s == |At(p + 7)| {
          url := None;
        } else {
          CutDrop(readBuf[..], p + 7, s);
          url := Some(p + 7 + s);
        }
      }
    }

    /** strcat: the bytes of `t` and a NUL, from the end of the string at `p` on. */
    method StrCat(p: nat, t: string)
      requires p <= readBuf.Length && p + |At(p)| + |t| < readBuf.Length && NUL !in t
      modifies readBuf
      ensures At(p) == old(At(p)) + t
      ensures Untouched(0, old(p + |At(p)|)) && Untouched(old(p + |At(p)|) + |t| + 1, readBuf.Length)
      ensures readBuf[old(p + |At(p)|) + |t|] == NUL
    {
      hide Cut;
      var end := p + |At(p)|;
      ghost var before := At(p);
      forall i | 0 <= i < |t| { readBuf[end + i] := t[i]; }
      readBuf[end + |t|] := NUL;
      var all := before + t;
      assert readBuf[p..][..|all|] == all;
      CutIs(readBuf[p..], |all|);
    }

    /** strcpy( m_url, page ) in do_request: the page and a NUL, over whatever the buffer
        holds from m_url on. */
    method SetUrl(page: string)
      requires url.Some? && url.value + |page| < readBuf.Length && NUL !in page
      modifies readBuf
      ensures Text(url) == Some(page)
      ensures Untouched(0, url.value) && Untouched(url.value + |page| + 1, readBuf.Length)
    {
      hide Cut;
      var p := url.value;
      forall i | 0 <= i < |page| { readBuf[p + i] := page[i]; }
      readBuf[p + |page|] := NUL;
      assert readBuf[p..][..|page|] == page;
      CutIs(readBuf[p..], |page|);
    }

    /** parse_headers; the line is the C string at `text`. */
    method ParseHeaders(text: nat) returns (code: HttpCode)
      requires Valid() && checkState.Header? && LineAt(text)
      modifies this`checkState, this`linger, this`contentLength, this`host
      ensures Valid()
      ensures var line := At(text);
        if line != "" then
          code == NoRequest && checkState == Header && Req() == RequestParser.ParseHeader(old(Req()), line)
        else
          && Req() == old(Req())
          && code == (if contentLength != 0 then NoRequest else GetRequest)
          && checkState == (if contentLength != 0 then Content else Header)
    {
      hide RequestParser.ParseHeader, Cut;
      Bound(text);
      Front(text);
      if readBuf[text] == NUL {
        if contentLength != 0 {
          checkState := Content;
          return NoRequest;
        }
        return GetRequest;
      }
      ParseField(text);
      return NoRequest;
    }

    lemma {:induction false} Front(text: nat)
      requires startLine <= readBuf.Length && LineAt(text)
      ensures readBuf[text] == NUL <==> At(text) == ""
    {
      Tails(readBuf[..], text);
    }

    /** The header fields parse_headers knows. */
    method ParseField(text: nat)
      requires readBuf.Length == READ_BUFFER_SIZE && startLine <= READ_BUFFER_SIZE && LineAt(text)
      modifies this`linger, this`contentLength, this`host
      ensures var req := RequestParser.ParseHeader(old(Req()), At(text));
        && linger == req.linger && contentLength == req.contentLength && Text(host) == req.host
      ensures host == old(host) || Settled(host, startLine)
    {
      hide EqualsNoCase, HasPrefixNoCase, Skip, Atol, ToInt32, Cut, At, Text, Settled;
      var line := At(text);
      if HasPrefixNoCase(line, "Connection:") {
        ConnectionField(text);
      } else if HasPrefixNoCase(line, "Content-Length:") {
        LengthField(text);
      } else if HasPrefixNoCase(line, "Host:") {
        HostField(text);
      }
    }

    method ConnectionField(text: nat)
      requires startLine <= readBuf.Length && LineAt(text) && HasPrefixNoCase(At(text), "Connection:")
      modifies this`linger
      ensures linger == (old(linger) || EqualsNoCase(Skip(At(text)[11..], BLANKS), "keep-alive"))
    {
      hide EqualsNoCase, Skip, Cut, At;
      var value := SkipBlanks(text, 11);
      if EqualsNoCase(At(value), "keep-alive") {
        linger := true;
      }
    }

    method LengthField(text: nat)
      requires startLine <= readBuf.Length && LineAt(text) && HasPrefixNoCase(At(text), "Content-Length:")
      modifies this`contentLength
      ensures contentLength == ToInt32(Atol(Skip(At(text)[15..], BLANKS)))
    {
      hide EqualsNoCase, Skip, Cut, At, Atol, ToInt32;
      var value := SkipBlanks(text, 15);
      contentLength := ToInt32(Atol(At(value)));
    }

    method HostField(text: nat)
      requires startLine <= readBuf.Length && LineAt(text) && HasPrefixNoCase(At(text), "Host:")
      modifies this`host
      ensures Text(host) == Some(Skip(At(text)[5..], BLANKS)) && Settled(host, startLine)
    {
      hide EqualsNoCase, Skip, Cut, At;
      var value := SkipBlanks(text, 5);
      host := Some(value);
      HostText();
    }

    lemma {:induction false} HostText()
      requires startLine <= readBuf.Length && host.Some? && LineAt(host.value)
      ensures Text(host) == Some(At(host.value)) && Settled(host, startLine)
    {
      assert readBuf[host.value..startLine][startLine - 1 - host.value] == NUL;
    }

    /** The value of a header field: behind its name of `k` characters, and blanks. */
    method SkipBlanks(text: nat, k: nat) returns (value: nat)
      requires startLine <= readBuf.Length && LineAt(text) && k <= |At(text)|
      ensures text <= value && LineAt(value) && At(value) == Skip(At(text)[k..], BLANKS)
    {
      hide Cut, Span, Find, At;
      Drop(text, k);
      Drop(text + k, Span(At(text + k), BLANKS));
      value := text + k + Span(At(text + k), BLANKS);
    }

    /** parse_content; `text` is where the body starts. */
    method ParseContent(text: nat) returns (code: HttpCode)
      requires readBuf.Length == READ_BUFFER_SIZE && readIdx < READ_BUFFER_SIZE && text <= checkedIdx <= readIdx
      modifies this`content, readBuf
      ensures code ==
        if readIdx < contentLength + checkedIdx then NoRequest
        else if contentLength < 0 then StrayWrite else GetRequest
      ensures code == GetRequest ==> content == Some(text) && text + contentLength <= readIdx
      ensures code == GetRequest ==> readBuf[text + contentLength] == NUL
      ensures code == GetRequest ==>
        Untouched(0, text + contentLength) && Untouched(text + contentLength + 1, readBuf.Length)
      ensures code != GetRequest ==> Untouched(0, readBuf.Length)
    {
      if readIdx >= contentLength + checkedIdx {
        if contentLength < 0 {
          return StrayWrite;
        }
        readBuf[text + contentLength] := NUL;
        content := Some(text);
        return GetRequest;
      }
      return NoRequest;
    }

    /** The condition of the loop in process_read, where it calls parse_line. */
    method NextLine() returns (r: LineStatus)
      requires Valid()
      modifies this`checkedIdx, readBuf
      ensures Valid()
      ensures var p := old(Abs());
        var s := ScanLine(p.held[p.scanned..]);
        && r == s.status
        && (r != LineOk ==> Abs() == p.(scanned := p.scanned + s.at))
        && (r == LineOk ==> Abs() == EndLine(p, s.at) && old(checkedIdx) + 2 <= checkedIdx && LineReady())
    {
      hide ScanLine, Cut;
      Unread();
      r := ParseLine();
      if r == LineOk {
        HeldEnded();
      } else {
        HeldKept();
      }
    }

    lemma {:induction false} Unread()
      requires Valid()
      ensures Abs().held[Abs().scanned..] == readBuf[checkedIdx..readIdx]
    {
    }

    twostate lemma HeldKept()
      requires startLine <= readIdx <= readBuf.Length
      requires Untouched(startLine, readIdx)
      ensures readBuf[startLine..readIdx] == old(readBuf[..])[startLine..readIdx]
    {
    }

    twostate lemma HeldEnded()
      requires startLine + 2 <= checkedIdx <= readIdx <= readBuf.Length && EndedLine()
      ensures var end := checkedIdx - 2 - startLine;
        readBuf[startLine..readIdx] == old(readBuf[..])[startLine..readIdx][end := NUL][end + 1 := NUL]
    {
    }

    /** A line was just ended by parse_line. */
    ghost predicate LineReady()
      reads this, readBuf
    {
      && startLine + 2 <= checkedIdx <= readBuf.Length
      && readBuf[checkedIdx - 2] == NUL && readBuf[checkedIdx - 1] == NUL
    }

    /** m_start_line = m_checked_idx */
    method NextLineStart()
      requires Valid()
      modifies this`startLine
      ensures Valid() && startLine == checkedIdx
      ensures var p := old(Abs()); Abs() == p.(held := p.held[p.scanned..], scanned := 0)
    {
      hide Cut, Settled, Text;
      Widen(url, startLine);
      Widen(host, startLine);
      Unread();
      startLine := checkedIdx;
    }

    /** text = get_line(), m_start_line = m_checked_idx. */
    method TakeText() returns (text: nat)
      requires Valid()
      modifies this`startLine
      ensures Valid() && text == old(startLine) && startLine == checkedIdx
      ensures var p := old(Abs()); Abs() == p.(held := p.held[p.scanned..], scanned := 0)
      ensures old(LineReady()) ==> LineAt(text) && At(text) == Cut(old(Abs()).held)
    {
      hide Cut, LineReady, Settled, Text, At, Req;
      if LineReady() {
        TextOfLine();
      }
      text := startLine;
      NextLineStart();
    }

    lemma {:induction false} Widen(p: Option<nat>, limit: nat)
      requires limit <= checkedIdx <= readBuf.Length && Settled(p, limit)
      ensures Settled(p, checkedIdx)
    {
      if p.Some? {
        assert readBuf[p.value..checkedIdx] == readBuf[p.value..limit] + readBuf[limit..checkedIdx];
      }
    }

    lemma {:induction false} TextOfLine()
      requires Valid() && LineReady()
      ensures At(startLine) == Cut(Abs().held)
      ensures startLine + 2 <= checkedIdx && readBuf[checkedIdx - 2] == NUL && readBuf[checkedIdx - 1] == NUL
    {
      var a, b, k := readBuf[startLine..], Abs().held, checkedIdx - startLine;
      assert a[..k] == b[..k];
      assert a[..k][k - 1] == NUL;
      CutLocal(a, b, k);
    }

    /** The turn of process_read on the request line. */
    method RequestLineTurn() returns (code: HttpCode)
      requires Valid() && checkState.RequestLine? && LineReady()
      modifies this, readBuf
      ensures Valid() && readIdx == old(readIdx) && checkedIdx == old(checkedIdx)
      ensures match RequestParser.Turn(old(Abs()))
        case Stop(o) => code == o.verdict && Abs() == o.parser && o.body == None
        case Again(_, q) => code == NoRequest && Abs() == q
    {
      hide RequestParser.ParseRequestLine, Cut;
      var text := TakeText();
      code := ParseRequestLine(text);
      HeldKept();
    }

    /** The turn of process_read on a header field or the blank line. */
    method HeaderTurn() returns (code: HttpCode)
      requires Valid() && checkState.Header? && LineReady()
      modifies this, readBuf
      ensures Valid() && readIdx == old(readIdx) && checkedIdx == old(checkedIdx)
      ensures match RequestParser.Turn(old(Abs()))
        case Stop(o) => code == o.verdict && Abs() == o.parser && o.body == None
        case Again(_, q) => code == NoRequest && Abs() == q
    {
      hide RequestParser.ParseHeader, Cut;
      var text := TakeText();
      code := ParseHeaders(text);
    }

    /** m_string points to the body, with a NUL behind it. */
    ghost predicate HasBody(body: string)
      reads this, readBuf
    {
      && content.Some? && content.value + |body| < readBuf.Length
      && readBuf[content.value..content.value + |body|] == body
      && readBuf[content.value + |body|] == NUL
    }

    lemma {:induction false} BodyThere(text: nat, body: string)
      requires text + |body| < readBuf.Length && content == Some(text)
      requires readBuf[text..text + |body|] == body && readBuf[text + |body|] == NUL
      ensures HasBody(body)
    {
    }

    /** parse_content behind TakeText: the strings of the head end before `text`. */
    method TakeBody(text: nat) returns (code: HttpCode)
      requires Valid() && readIdx < READ_BUFFER_SIZE && text <= startLine == checkedIdx && checkState.Content?
      requires Settled(url, text) && Settled(host, text)
      modifies this`content, readBuf
      ensures Valid()
      ensures code ==
        if readIdx < contentLength + checkedIdx then NoRequest
        else if contentLength < 0 then StrayWrite else GetRequest
      ensures code != GetRequest ==> Abs() == old(Abs())
      ensures code == GetRequest ==>
        Abs() == old(Abs()).(held := Closed(old(Abs()).held, text + contentLength - startLine))
      ensures code == GetRequest ==> HasBody(old(readBuf[..])[text..text + contentLength])
    {
      hide Cut, Closed, Settled, Text, HasBody;
      code := ParseContent(text);
      Kept(text);
      assert Settled(url, startLine) && Settled(host, startLine) by {
        Widen(url, text);
        Widen(host, text);
      }
      assert Req() == old(Req());
      hide Req;
      if code == GetRequest {
        assert HasBody(old(readBuf[..])[text..text + contentLength]) by {
          ghost var body := old(readBuf[..])[text..text + contentLength];
          assert readBuf[text..text + |body|] == body;
          BodyThere(text, body);
        }
        HeldClosed(text + contentLength - startLine);
      } else {
        HeldKept();
      }
    }

    static ghost function Closed(held: string, k: int): string {
      if 0 <= k < |held| then held[k := NUL] else held
    }

    lemma {:induction false} LengthOfReq()
      ensures Req().contentLength == contentLength
    {
    }

    lemma {:induction false} Held()
      requires Valid()
      ensures Abs().held == readBuf[..][startLine..readIdx]
    {
    }

    static lemma {:induction false} TurnOnBody(p: Parser)
      requires p.Wf() && p.state.Content?
      ensures var q, n := p.(held := p.held[p.scanned..], scanned := 0), p.req.contentLength;
        RequestParser.Turn(p) ==
          if n < 0 then Stop(Outcome(StrayWrite, q, None))
          else if |q.held| < n then Again(false, q)
          else Stop(Outcome(GetRequest, q.(held := Closed(q.held, n - p.scanned)), Some(p.held[..n])))
    {
      hide Cut;
    }

    /** The turn of process_read on the body. */
    method BodyTurn() returns (code: HttpCode)
      requires Valid() && checkState.Content? && readIdx < READ_BUFFER_SIZE
      modifies this, readBuf
      ensures Valid() && readIdx == old(readIdx) && checkedIdx == old(checkedIdx)
      ensures match RequestParser.Turn(old(Abs()))
        case Stop(o) => code == o.verdict && Abs() == o.parser && (o.body.Some? ==> HasBody(o.body.value))
        case Again(_, q) => code == NoRequest && Abs() == q
    {
      hide Cut, Settled, Text, Req, Closed, HasBody, RequestParser.Turn;
      TurnOnBody(Abs());
      LengthOfReq();
      if 0 <= contentLength <= readIdx - startLine {
        TakeOfSlice(readBuf[..], startLine, readIdx, contentLength);
      }
      Held();
      var text := TakeText();
      code := TakeBody(text);
    }

    /** The store behind the body, seen in the bytes that are held. */
    twostate lemma HeldClosed(k: int)
      requires startLine <= readIdx <= readBuf.Length && 0 <= startLine + k <= readIdx
      requires startLine + k < readBuf.Length && readBuf[startLine + k] == NUL
      requires Untouched(0, startLine + k) && Untouched(startLine + k + 1, readBuf.Length)
      ensures readBuf[startLine..readIdx] ==
        Closed(old(readBuf[..])[startLine..readIdx], k)
    {
    }

    /** The body of the loop of process_read. */
    method Turn() returns (code: HttpCode)
      requires Valid() && readIdx < READ_BUFFER_SIZE && (!checkState.Content? ==> LineReady())
      modifies this, readBuf
      ensures Valid() && readIdx == old(readIdx) && checkedIdx == old(checkedIdx)
      ensures match RequestParser.Turn(old(Abs()))
        case Stop(o) => code == o.verdict && Abs() == o.parser && (o.body.Some? ==> HasBody(o.body.value))
        case Again(_, q) => code == NoRequest && Abs() == q
    {
      hide RequestParser.Turn, HasBody, LineReady, Settled, Text, Req;
      match checkState
      case RequestLine => code := RequestLineTurn();
      case Header => code := HeaderTurn();
      case Content => code := BodyTurn();
    }

    static lemma {:induction false} LoopOnBody(p: Parser)
      requires p.Wf() && p.state.Content?
      ensures Loop(true, p) == match RequestParser.Turn(p) case Stop(o) => o case Again(ok, q) => Loop(ok, q)
    {
      hide RequestParser.Turn, ScanLine, EndLine;
    }

    static lemma {:induction false} LoopOnLine(ok: bool, p: Parser)
      requires p.Wf() && !(p.state.Content? && ok)
      ensures var s := ScanLine(p.held[p.scanned..]);
        Loop(ok, p) ==
          if s.status != LineOk then Outcome(NoRequest, p.(scanned := p.scanned + s.at), None)
          else match RequestParser.Turn(EndLine(p, s.at)) case Stop(o) => o case Again(ok', q) => Loop(ok', q)
    {
      hide RequestParser.Turn, EndLine;
    }

    /** One round of the loop of process_read, its condition included. */
    method Round(lineStatus: LineStatus) returns (done: bool, code: HttpCode, next: LineStatus)
      requires Valid() && readIdx < READ_BUFFER_SIZE
      modifies this, readBuf
      ensures Valid() && readIdx == old(readIdx)
      ensures var o := Loop(lineStatus == LineOk, old(Abs()));
        if done then code == o.verdict && Abs() == o.parser && (o.body.Some? ==> HasBody(o.body.value))
        else Loop(next == LineOk, Abs()) == o
      ensures !done ==> old(checkedIdx) < checkedIdx || (next == LineOpen && old(checkedIdx) == checkedIdx
                                                         && old(checkState.Content?) && lineStatus == LineOk)
    {
      hide Cut, ScanLine, RequestParser.Turn, EndLine, HasBody, Settled, Text, Req, Loop;
      next := lineStatus;
      if checkState.Content? && lineStatus == LineOk {
        LoopOnBody(Abs());
      } else {
        LoopOnLine(lineStatus == LineOk, Abs());
      }
      if !(checkState.Content? && lineStatus == LineOk) {
        next := NextLine();
        if next != LineOk {
          return true, NoRequest, next;
        }
      }
      var onBody := checkState.Content?;
      code := Turn();
      if code != NoRequest {
        return true, code, next;
      }
      done := false;
      if onBody {
        next := LineOpen;
      }
    }

    /** process_read; `GetRequest` is where it calls do_request. */
    method ProcessRead() returns (code: HttpCode)
      requires Valid() && readIdx < READ_BUFFER_SIZE
      modifies this, readBuf
      ensures Valid() && readIdx == old(readIdx)
      ensures var o := RequestParser.ProcessRead(old(Abs()));
        && code == o.verdict && Abs() == o.parser
        && (o.body.Some? ==> HasBody(o.body.value))
    {
      hide HasBody, Settled, Text, Req, Loop;
      var lineStatus := LineOk;
      while true
        invariant Valid() && readIdx == old(readIdx)
        invariant Loop(lineStatus == LineOk, Abs()) == RequestParser.ProcessRead(old(Abs()))
        decreases readIdx - checkedIdx, lineStatus == LineOk
      {
        var done;
        done, code, lineStatus := Round(lineStatus);
        if done {
          return code;
        }
      }
    }

    /** What the server does with a connection until a request is complete or refused:
        every chunk the socket delivers is read and parsed. */
    method Serve(chunks: seq<string>) returns (code: HttpCode)
      requires Valid() && readIdx + |Reads.Flatten(chunks)| < READ_BUFFER_SIZE
      modifies this, readBuf
      ensures Valid()
      ensures var o := Reads.Feed(old(Abs()), chunks);
        && code == o.verdict && Abs() == o.parser
        && (o.body.Some? ==> HasBody(o.body.value))
    {
      hide HasBody, Settled, Text, Req, RequestParser.ProcessRead;
      code := NoRequest;
      var k := 0;
      while k < |chunks|
        invariant Valid() && k <= |chunks| && code == NoRequest
        invariant readIdx + |Reads.Flatten(chunks[k..])| < READ_BUFFER_SIZE
        invariant Reads.Feed(Abs(), chunks[k..]) == Reads.Feed(old(Abs()), chunks)
      {
        assert chunks[k..][0] == chunks[k] && chunks[k..][1..] == chunks[k + 1..];
        var ok := Read(chunks[k], WouldBlock);
        code := ProcessRead();
        if code != NoRequest {
          return code;
        }
        k := k + 1;
      }
    }
  }
}
