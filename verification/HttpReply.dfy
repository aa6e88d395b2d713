/** The response side of `http_conn`: the reply is printed into a fixed buffer, and the
    buffer and the mapped file are sent with writev, resumed after every EAGAIN. */
module HttpReply {
  import opened Wrappers
  import opened CStrings
  import opened Decimal
  import opened ResponseText
  import opened ResponseStream

  const WRITE_BUFFER_SIZE := 1024

  /** What one writev reports; `Sent(n)` is cut down to what was offered. */
  datatype WritevResult = Sent(n: nat) | WouldBlock | Error

  /** How a call of write() leaves its loop. */
  datatype CallEnd = Blocked | Broken | Done

  /** The portions `ks` are what the first |ks| results report, each cut down to the offer. */
  predicate Reported(s: Send, results: seq<WritevResult>, ks: seq<nat>)
    decreases |ks|
  {
    ks == [] || (results != [] && results[0].Sent? && ks[0] == Accepted(s, results[0].n)
                 && Reported(Advance(s, ks[0]), results[1..], ks[1..]))
  }

  function Accepted(s: Send, n: nat): (k: nat)
    ensures k <= n && k <= |Offered(s)| && (k == n || k == |Offered(s)|)
  {
    if n <= |Offered(s)| then n else |Offered(s)|
  }

  class HttpReply {
    const writeBuf: array<char>
    var writeIdx: nat
    var linger: bool
    /** m_file_stat.st_size of the mapped file. */
    var fileSize: nat
    var bytesToSend: int
    var bytesHaveSend: int
    var base0: int
    var len0: int
    var base1: int
    var len1: int
    var ivCount: nat
    /** The bytes the socket has accepted, by where they were read from. */
    ghost var wire: seq<Source>

    ghost predicate Valid()
      reads this
    {
      writeBuf.Length == WRITE_BUFFER_SIZE && writeIdx < WRITE_BUFFER_SIZE
    }

    /** The text printed so far. */
    ghost function Written(): string
      reads this, writeBuf
      requires Valid()
    {
      writeBuf[..writeIdx]
    }

    function Sending(): Send
      reads this
    {
      Send(writeIdx, bytesToSend, bytesHaveSend, base0, len0, base1, len1, ivCount == 2)
    }

    constructor ()
      ensures Valid() && fresh(writeBuf) && Written() == "" && bytesToSend == bytesHaveSend == 0 && wire == []
    {
      writeBuf := new char[WRITE_BUFFER_SIZE](_ => '\0');
      writeIdx, linger, fileSize, bytesToSend, bytesHaveSend := 0, false, 0, 0, 0;
      base0, len0, base1, len1, ivCount := 0, 0, 0, 0, 0;
      wire := [];
    }

    /** init, for the fields of the response side. */
    method Init()
      requires Valid()
      modifies this, writeBuf
      ensures Valid() && Written() == "" && !linger && bytesToSend == bytesHaveSend == 0
      ensures wire == old(wire) && fileSize == old(fileSize)
    {
      linger, bytesToSend, bytesHaveSend, writeIdx := false, 0, 0, 0;
      forall i | 0 <= i < writeBuf.Length { writeBuf[i] := '\0'; }
    }

    /** add_response: vsnprintf stores as much of the formatted text as fits in front of a
        NUL, and a text that does not fit is not counted. */
    method AddResponse(text: string) returns (ok: bool)
      requires Valid()
      modifies this`writeIdx, writeBuf
      ensures Valid()
      ensures ok <==> old(writeIdx) + |text| < 1023
      ensures Written() == if ok then old(Written()) + text else old(Written())
    {
      var room := WRITE_BUFFER_SIZE - 1 - writeIdx;
      var stored := if |text| < room then |text| else if room == 0 then 0 else room - 1;
      forall i | 0 <= i < stored { writeBuf[writeIdx + i] := text[i]; }
      if room > 0 {
        writeBuf[writeIdx + stored] := '\0';
      }
      if |text| >= room {
        assert writeBuf[..writeIdx] == old(writeBuf[..writeIdx]);
        return false;
      }
      assert writeBuf[..writeIdx + |text|] == old(writeBuf[..writeIdx]) + text;
      writeIdx := writeIdx + |text|;
      return true;
    }

    /** add_headers; the results of the three calls are not looked at. */
    method AddHeaders(n: int)
      requires Valid()
      requires -INT32_MAX - 1 <= n <= INT32_MAX && writeIdx <= 100
      modifies this`writeIdx, writeBuf
      ensures Valid() && Written() == old(Written()) + Headers(n, linger)
    {
      hide LengthLine, LingerLine;
      HeadersLength(n, linger);
      var _ := AddResponse(LengthLine(n) + CRLF);
      var _ := AddResponse(LingerLine(linger) + CRLF);
      var _ := AddResponse(CRLF);
    }

    /** The status line, the headers and the text of a page without a file. */
    method AddPage(p: Page) returns (ok: bool)
      requires Valid() && writeIdx == 0
      requires 200 <= p.status <= 500 && |p.title| <= 20 && |p.form| <= 80
      modifies this`writeIdx, writeBuf
      ensures Valid() && ok && Written() == PageText(p, linger)
      ensures 0 < |PageText(p, linger)| < WRITE_BUFFER_SIZE - 1
    {
      hide StatusLine, Headers;
      StatusLineLength(p.status, p.title);
      HeadersLength(|p.form|, linger);
      AddFirst(StatusLine(p.status, p.title));
      AddHeaders(|p.form|);
      ok := AddResponse(p.form);
    }

    /** The status line, on a fresh buffer. */
    method AddFirst(text: string)
      requires Valid() && writeIdx == 0 && |text| <= 100
      modifies this`writeIdx, writeBuf
      ensures Valid() && Written() == text && writeIdx == |text|
    {
      var _ := AddResponse(text);
      assert Written() == text;
    }

    /** The status line and the headers of a file. */
    method AddFileHead(n: int)
      requires Valid() && writeIdx == 0 && -INT32_MAX - 1 <= n <= INT32_MAX
      modifies this`writeIdx, writeBuf
      ensures Valid() && Written() == StatusLine(200, OK_200_TITLE) + Headers(n, linger) && 0 < writeIdx <= 100
    {
      hide StatusLine, Headers;
      StatusLineLength(200, OK_200_TITLE);
      HeadersLength(n, linger);
      AddFirst(StatusLine(200, OK_200_TITLE));
      AddHeaders(n);
    }

    /** process_write on a fresh buffer.  No add_response call is refused, so a reply is
        always complete; an empty file ends in the default case of the switch. */
    method ProcessWrite(code: HttpCode) returns (ok: bool)
      requires Valid() && writeIdx == 0 && bytesHaveSend == 0
      modifies this, writeBuf
      ensures Valid() && linger == old(linger) && fileSize == old(fileSize)
      ensures wire == old(wire) && bytesHaveSend == 0
      ensures var error := code in {BadRequest, NoResource, ForbiddenRequest, InternalError};
        && (ok <==> error || (code == FileRequest && fileSize != 0))
        && (error ==> Written() == PageText(ErrorPage(code), linger)
                      && Exact(Sending()) && bytesToSend == |Written()|)
      ensures ok && code == FileRequest ==>
        && Written() == FileHead(fileSize, linger)
        && bytesToSend == ToInt32(|Written()| + fileSize)
        && Sending() == StartCut(|Written()|, fileSize)
        && (|Written()| + fileSize <= INT32_MAX ==>
              Sending() == Start(|Written()|, fileSize) && Exact(Sending()) && bytesToSend == |Written()| + fileSize)
    {
      hide PageText, Headers, StatusLine;
      if code in {BadRequest, NoResource, ForbiddenRequest, InternalError} {
        PageLengths(code);
        var added := AddPage(ErrorPage(code));
        base0, len0, ivCount, bytesToSend := 0, writeIdx, 1, writeIdx;
        return true;
      }
      if code == FileRequest {
        if fileSize != 0 {
          AddFileHead(ToInt32(fileSize));
          base0, len0, base1, len1, ivCount := 0, writeIdx, 0, fileSize, 2;
          bytesToSend := ToInt32(writeIdx + fileSize);
          StartIsExact(writeIdx, fileSize);
          return true;
        }
        AddFileHead(26);
        var _ := AddResponse("<html><body></body></html>");
      }
      return false;
    }

    /** write: `results` are what the writev calls report; when they run out the next one
        reports EAGAIN.  `ks` are the portions this call hands over, `end` is why it stops. */
    method Write(results: seq<WritevResult>) returns (ok: bool, ghost end: CallEnd, ghost ks: seq<nat>)
      requires Valid()
      modifies this, writeBuf
      ensures Valid() && fileSize == old(fileSize)
      ensures old(bytesToSend) == 0 ==> ok && ks == [] && wire == old(wire) && bytesToSend == 0 && Written() == ""
      ensures old(bytesToSend) != 0 ==>
        var s := old(Sending());
        && Accepts(s, ks) && |ks| <= |results| && Reported(s, results, ks)
        && wire == old(wire) + Wire(s, ks)
        && (end == Blocked ==>
              && ok && Sending() == After(s, ks) && Written() == old(Written()) && linger == old(linger)
              && (|ks| == |results| || results[|ks|].WouldBlock?) && (ks == [] || bytesToSend > 0))
        && (end == Broken ==> !ok && |ks| < |results| && results[|ks|].Error?)
        && (end == Done ==> After(s, ks).toSend <= 0
                            && ok == old(linger) && (ok ==> bytesToSend == bytesHaveSend == 0 && Written() == ""))
    {
      hide Offered, Advance;
      ks := [];
      if bytesToSend == 0 {
        end := Done;
        Init();
        return true, end, ks;
      }
      ghost var s := Sending();
      var i := 0;
      while true
        invariant i == |ks| <= |results| && Valid()
        invariant unchanged(writeBuf) && unchanged(this`writeIdx, this`linger, this`fileSize)
        invariant Accepts(s, ks) && Sending() == After(s, ks) && wire == old(wire) + Wire(s, ks)
        invariant Reported(s, results, ks) && (ks == [] || bytesToSend > 0)
        decreases |results| - i
      {
        if i == |results| || results[i].WouldBlock? {
          return true, Blocked, ks;
        }
        if results[i].Error? {
          return false, Broken, ks;
        }
        ghost var k := Accepted(Sending(), results[i].n);
        OneCall(Sending(), k);
        RunConcat(s, ks, [k]);
        ReportedOn(s, results, ks);
        SendOnce(results[i].n);
        ks := ks + [k];
        i := i + 1;
        if bytesToSend <= 0 {
          if linger {
            Init();
            return true, Done, ks;
          }
          return false, Done, ks;
        }
      }
    }

    /** One writev that reports `n` bytes, and the update behind it. */
    method SendOnce(n: nat)
      modifies this`bytesToSend, this`bytesHaveSend, this`base0, this`len0, this`base1, this`len1, this`wire
      ensures var s := old(Sending()); var k := Accepted(s, n);
        Sending() == Advance(s, k) && wire == old(wire) + Offered(s)[..k]
    {
      hide Offered;
      var k := Accepted(Sending(), n);
      wire := wire + Offered(Sending())[..k];
      bytesToSend := bytesToSend - k;
      bytesHaveSend := bytesHaveSend + k;
      if bytesHaveSend >= len0 {
        len0 := 0;
        base1 := bytesHaveSend - writeIdx;
        len1 := bytesToSend;
      } else {
        base0 := bytesHaveSend;
        len0 := len0 - bytesHaveSend;
      }
    }
  }

  lemma {:induction false} ReportedOn(s: Send, results: seq<WritevResult>, ks: seq<nat>)
    requires Reported(s, results, ks) && |ks| < |results| && results[|ks|].Sent?
    ensures Reported(s, results, ks + [Accepted(After(s, ks), results[|ks|].n)])
    decreases |ks|
  {
    hide Accepted, Advance;
    var k := Accepted(After(s, ks), results[|ks|].n);
    if ks == [] {
      assert [] + [k] == [k] && [k][1..] == [];
    } else {
      assert (ks + [k])[1..] == ks[1..] + [k];
      ReportedOn(Advance(s, ks[0]), results[1..], ks[1..]);
    }
  }
}
