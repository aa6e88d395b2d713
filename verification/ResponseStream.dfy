/** Which bytes of a reply are handed to the socket, and in which order, when writev
    accepts them in arbitrary portions.  A byte is named by where it is read from, so a
    statement about the stream holds for every header and every file. */
module ResponseStream {
  import opened Decimal

  /** Byte `i` of the write buffer, or byte `j` of the mapped file.  A file position that
      is negative lies in front of the mapping. */
  datatype Source = Header(i: int) | File(j: int)

  /** The fields of http_conn that write() works on: m_write_idx, bytes_to_send,
      bytes_have_send, and the two entries of m_iv with m_iv_count. */
  datatype Send = Send(
    head: nat, toSend: int, haveSend: int,
    base0: int, len0: int, base1: int, len1: int, withFile: bool)
  {
    function Total(): int { toSend + haveSend }
  }

  /** Positions base, base + 1, ... of one iovec entry. */
  function Positions(header: bool, base: int, len: int): (r: seq<Source>)
    ensures |r| == if len < 0 then 0 else len
  {
    seq(if len < 0 then 0 else len, i => if header then Header(base + i) else File(base + i))
  }

  /** What writev(m_iv, m_iv_count) is offered. */
  function Offered(s: Send): seq<Source> {
    Positions(true, s.base0, s.len0) + if s.withFile then Positions(false, s.base1, s.len1) else []
  }

  /** The whole reply, and what of it has not been accepted yet. */
  function Whole(s: Send): (r: seq<Source>) {
    seq(if s.Total() < 0 then 0 else s.Total(), i => if i < s.head then Header(i) else File(i - s.head))
  }

  function Rest(s: Send): seq<Source>
    requires 0 <= s.haveSend <= s.Total()
  {
    Whole(s)[s.haveSend..]
  }

  /** The state process_write leaves for a reply of `head` header bytes and `file` file bytes. */
  function Start(head: nat, file: nat): Send {
    Send(head, head + file, 0, 0, head, 0, file, file != 0)
  }

  /** The update after writev accepted `k` bytes. */
  function Advance(s: Send, k: nat): Send {
    var toSend, haveSend := s.toSend - k, s.haveSend + k;
    if haveSend >= s.len0 then
      s.(toSend := toSend, haveSend := haveSend, len0 := 0, base1 := haveSend - s.head, len1 := toSend)
    else
      s.(toSend := toSend, haveSend := haveSend, base0 := haveSend, len0 := s.len0 - haveSend)
  }

  /** The same update with the remaining header length that is meant. */
  function IntendedAdvance(s: Send, k: nat): Send {
    var toSend, haveSend := s.toSend - k, s.haveSend + k;
    if haveSend >= s.head then
      s.(toSend := toSend, haveSend := haveSend, len0 := 0, base1 := haveSend - s.head, len1 := toSend)
    else
      s.(toSend := toSend, haveSend := haveSend, base0 := haveSend, len0 := s.head - haveSend)
  }

  /** The iovec describes exactly what is still to be sent. */
  predicate Exact(s: Send) {
    && 0 < s.head <= s.Total() && 0 <= s.haveSend <= s.Total()
    && (s.withFile <==> s.head < s.Total())
    && (s.haveSend < s.head ==>
          s.base0 == s.haveSend && s.len0 == s.head - s.haveSend
          && (s.withFile ==> s.base1 == 0 && s.len1 == s.Total() - s.head))
    && (s.haveSend >= s.head ==>
          s.len0 == 0 && (s.withFile ==> s.base1 == s.haveSend - s.head && s.len1 == s.toSend))
  }

  lemma {:induction false} StartIsExact(head: nat, file: nat)
    requires head > 0
    ensures Exact(Start(head, file)) && |Rest(Start(head, file))| == head + file
  {
  }

  lemma {:induction false} ExactOffersRest(s: Send)
    requires Exact(s)
    ensures Offered(s) == Rest(s)
  {
    var a, b := Offered(s), Rest(s);
    assert |a| == |b|;
    forall i | 0 <= i < |a| ensures a[i] == b[i] {
      assert b[i] == Whole(s)[s.haveSend + i];
    }
  }

  /** The call found nothing sent yet, or finished the header. */
  predicate Smooth1(s: Send, k: nat) {
    s.haveSend == 0 || s.haveSend + k >= s.head
  }

  /** bytes_to_send + bytes_have_send never changes, and neither does the reply. */
  lemma {:induction false} TotalIsConstant(s: Send, k: nat)
    ensures Advance(s, k).Total() == s.Total() && IntendedAdvance(s, k).Total() == s.Total()
    ensures Whole(Advance(s, k)) == Whole(s) && Whole(IntendedAdvance(s, k)) == Whole(s)
  {
    hide Whole;
    WholeOf(s, Advance(s, k));
    WholeOf(s, IntendedAdvance(s, k));
  }

  lemma {:induction false} WholeOf(s: Send, t: Send)
    requires s.Total() == t.Total() && s.head == t.head
    ensures Whole(s) == Whole(t)
  {
  }

  /** One update keeps the iovec exact if and only if the call was smooth. */
  lemma {:induction false} AdvanceExact(s: Send, k: nat)
    requires Exact(s) && k <= |Offered(s)|
    ensures Exact(Advance(s, k)) <==> Smooth1(s, k)
    ensures Exact(IntendedAdvance(s, k))
  {
    ExactOffersRest(s);
  }

  /** After a call that was not smooth, an accepted offer is wrong, or nothing more is
      offered although bytes remain. */
  lemma {:induction false} RoughOffer(s: Send, k: nat)
    requires Exact(s) && k <= |Offered(s)| && !Smooth1(s, k)
    ensures var t := Advance(s, k);
      && t.toSend > 0
      && (t.withFile ==> !(Offered(t) <= Rest(t)))
      && (!t.withFile ==> |Offered(t)| < t.toSend && Offered(Advance(t, |Offered(t)|)) == [])
  {
    var t := Advance(s, k);
    var n := if t.len0 > 0 then t.len0 else 0;
    var a, b := Offered(t), Rest(t);
    assert n < |b| && b[n] == Whole(t)[t.haveSend + n] == Header(t.haveSend + n);
    if t.withFile {
      assert n < |a| && a[n] == File(t.base1);
    }
  }

  // ---- runs ----

  /** The state and the accepted bytes after a series of calls that accept ks[0], ks[1], ...
      bytes.  An EAGAIN between two of them changes nothing. */
  predicate Accepts(s: Send, ks: seq<nat>)
    decreases |ks|
  {
    ks == [] || (ks[0] <= |Offered(s)| && Accepts(Advance(s, ks[0]), ks[1..]))
  }

  function After(s: Send, ks: seq<nat>): Send
    decreases |ks|
  {
    if ks == [] then s else After(Advance(s, ks[0]), ks[1..])
  }

  function Wire(s: Send, ks: seq<nat>): seq<Source>
    requires Accepts(s, ks)
    decreases |ks|
  {
    if ks == [] then [] else Offered(s)[..ks[0]] + Wire(Advance(s, ks[0]), ks[1..])
  }

  predicate Smooth(s: Send, ks: seq<nat>)
    decreases |ks|
  {
    ks == [] || (Smooth1(s, ks[0]) && Smooth(Advance(s, ks[0]), ks[1..]))
  }

  /** A run in two parts: what a call of write() sends after an EAGAIN continues what the
      calls before it sent. */
  lemma {:induction false} RunConcat(s: Send, a: seq<nat>, b: seq<nat>)
    requires Accepts(s, a) && Accepts(After(s, a), b)
    ensures Accepts(s, a + b)
    ensures After(s, a + b) == After(After(s, a), b)
    ensures Wire(s, a + b) == Wire(s, a) + Wire(After(s, a), b)
    decreases |a|
  {
    hide Offered, Advance;
    if a == [] {
      assert [] + b == b;
    } else {
      assert (a + b)[1..] == a[1..] + b;
      RunConcat(Advance(s, a[0]), a[1..], b);
    }
  }

  lemma {:induction false} OneCall(s: Send, k: nat)
    requires k <= |Offered(s)|
    ensures Accepts(s, [k]) && After(s, [k]) == Advance(s, k) && Wire(s, [k]) == Offered(s)[..k]
  {
    hide Offered, Advance;
    assert [k][1..] == [];
  }

  /** A smooth run sends the reply in order: the accepted bytes are what was to be sent up
      to the bytes that remain, so they are all of it when none remains. */
  lemma {:induction false} SmoothRun(s: Send, ks: seq<nat>)
    requires Exact(s) && Accepts(s, ks) && Smooth(s, ks)
    ensures Exact(After(s, ks)) && After(s, ks).Total() == s.Total()
    ensures Wire(s, ks) + Rest(After(s, ks)) == Rest(s)
    ensures After(s, ks).toSend == 0 ==> Wire(s, ks) == Rest(s)
    decreases |ks|
  {
    hide Offered, Whole;
    if ks != [] {
      var k := ks[0];
      AdvanceExact(s, k);
      ExactOffersRest(s);
      TotalIsConstant(s, k);
      RestMinus(s, k);
      SmoothRun(Advance(s, k), ks[1..]);
      Append(Rest(s)[..k], Wire(Advance(s, k), ks[1..]), Rest(After(s, ks)), Rest(s), k);
    }
    if After(s, ks).toSend == 0 {
      RestLength(After(s, ks));
    }
  }

  lemma {:induction false} Append(a: seq<Source>, b: seq<Source>, c: seq<Source>, all: seq<Source>, k: nat)
    requires k <= |all| && a == all[..k] && b + c == all[k..]
    ensures a + b + c == all
  {
    assert a + b + c == a + (b + c);
  }

  lemma {:induction false} RestLength(s: Send)
    requires 0 <= s.haveSend <= s.Total()
    ensures |Rest(s)| == s.toSend
  {
  }

  lemma {:induction false} RestMinus(s: Send, k: nat)
    requires Exact(s) && k <= |Rest(s)|
    ensures s.haveSend + k <= s.Total() && Rest(Advance(s, k)) == Rest(IntendedAdvance(s, k)) == Rest(s)[k..]
  {
    TotalIsConstant(s, k);
  }

  /** A run was smooth if and only if at every point of it the socket was offered exactly
      what remained of the reply. */
  lemma {:induction false} StreamExactness(s: Send, ks: seq<nat>)
    requires Exact(s) && Accepts(s, ks)
    ensures Smooth(s, ks) <==> RightThroughout(s, ks)
    decreases |ks|
  {
    hide Offered, Whole;
    ExactOffersRest(s);
    if ks != [] {
      AdvanceExact(s, ks[0]);
      RestMinus(s, ks[0]);
      if Smooth1(s, ks[0]) {
        StreamExactness(Advance(s, ks[0]), ks[1..]);
      } else {
        RoughOffer(s, ks[0]);
        RestLength(Advance(s, ks[0]));
      }
    }
  }

  // ---- the bytes of a run that completes ----

  /** A state behind a call that was not smooth: the header is not finished, and either its
      next bytes are offered, but not all of them, or none, with a file pointer in front of
      the mapping. */
  predicate Rough(s: Send) {
    && 0 < s.haveSend < s.head <= s.Total()
    && (if s.len0 > 0
        then s.base0 == s.haveSend && s.haveSend + s.len0 < s.head && (s.withFile ==> s.base1 == 0)
        else s.len0 == 0 && (s.withFile ==> s.base1 < 0))
  }

  lemma {:induction false} BecomesRough(s: Send, k: nat)
    requires Exact(s) && k <= |Offered(s)| && !Smooth1(s, k)
    ensures Rough(Advance(s, k)) && k <= |Rest(s)| && Offered(s)[..k] == Rest(s)[..k]
  {
    ExactOffersRest(s);
  }

  /** Such a state offers header bytes in their place at most as far as they go, and then a
      byte that is not the next one of the header. */
  lemma {:induction false} RoughByte(s: Send, k: nat)
    requires Rough(s) && k <= |Offered(s)|
    ensures if k <= s.len0 then s.haveSend + k < s.head
            else s.withFile && Offered(s)[s.len0].File? && Rest(s)[s.len0].Header?
  {
    hide Offered, Whole;
    OfferedAt(s, k);
    if k > s.len0 {
      WholeAt(s, s.haveSend + s.len0);
    }
  }

  lemma {:induction false} OfferedAt(s: Send, k: nat)
    requires s.len0 >= 0 && k <= |Offered(s)|
    ensures k > s.len0 ==> s.withFile && Offered(s)[s.len0] == File(s.base1)
  {
  }

  lemma {:induction false} WholeAt(s: Send, i: nat)
    requires i < s.head <= s.Total()
    ensures i < |Whole(s)| && Whole(s)[i] == Header(i)
  {
  }

  lemma {:induction false} StaysRough(s: Send, k: nat)
    requires Rough(s) && k <= s.len0
    ensures Rough(Advance(s, k))
  {
  }

  /** From there on no run sends the rest of the reply: a wrong byte is accepted, or bytes
      remain. */
  lemma {:induction false} RoughRun(s: Send, ks: seq<nat>)
    requires Rough(s) && Accepts(s, ks)
    ensures After(s, ks).toSend > 0 || !(Wire(s, ks) <= Rest(s))
    decreases |ks|
  {
    hide Offered, Whole, Advance;
    if ks != [] {
      var k, rest := ks[0], Wire(Advance(s, ks[0]), ks[1..]);
      RoughByte(s, k);
      if k <= s.len0 {
        StaysRough(s, k);
        RoughRun(Advance(s, k), ks[1..]);
        RestOn(s, k);
        Behind(Offered(s)[..k], rest, Rest(s));
      } else {
        assert Wire(s, ks)[s.len0] == Offered(s)[s.len0];
      }
    }
  }

  lemma {:induction false} RestOn(s: Send, k: nat)
    requires 0 <= s.haveSend && s.haveSend + k <= s.Total()
    ensures k <= |Rest(s)| && 0 <= Advance(s, k).haveSend <= Advance(s, k).Total()
    ensures Rest(Advance(s, k)) == Rest(s)[k..]
  {
    TotalIsConstant(s, k);
  }

  lemma {:induction false} Behind(a: seq<Source>, b: seq<Source>, all: seq<Source>)
    requires |a| <= |all|
    ensures a + b <= all ==> b <= all[|a|..]
    ensures a + b == all ==> b == all[|a|..]
  {
    assert (a + b)[|a|..] == b;
  }

  // ---- the bytes of a run that is still going on ----

  /** Behind a call that was not smooth: no call goes beyond the header bytes it is offered. */
  predicate StillHeader(s: Send, ks: seq<nat>)
    decreases |ks|
  {
    ks == [] || (ks[0] <= s.len0 && StillHeader(Advance(s, ks[0]), ks[1..]))
  }

  /** The calls are smooth, and behind the first that is not, if there is one, only the
      offered header bytes are accepted. */
  predicate Kept(s: Send, ks: seq<nat>)
    decreases |ks|
  {
    ks == [] ||
    (if Smooth1(s, ks[0]) then Kept(Advance(s, ks[0]), ks[1..]) else StillHeader(Advance(s, ks[0]), ks[1..]))
  }

  lemma {:induction false} RoughPrefix(s: Send, ks: seq<nat>)
    requires Rough(s) && Accepts(s, ks)
    ensures Wire(s, ks) <= Rest(s) <==> StillHeader(s, ks)
    decreases |ks|
  {
    hide Offered, Whole, Advance;
    if ks != [] {
      var k := ks[0];
      RoughByte(s, k);
      if k <= s.len0 {
        StaysRough(s, k);
        RoughPrefix(Advance(s, k), ks[1..]);
        RestOn(s, k);
        RoughFront(s, k);
        Prefixed(Offered(s)[..k], Wire(Advance(s, k), ks[1..]), Rest(s));
      } else {
        assert Wire(s, ks)[s.len0] == Offered(s)[s.len0];
      }
    }
  }

  /** The header bytes that a rough state offers are the next ones. */
  lemma {:induction false} RoughFront(s: Send, k: nat)
    requires Rough(s) && k <= |Offered(s)| && k <= s.len0
    ensures k <= |Rest(s)| && Offered(s)[..k] == Rest(s)[..k]
  {
  }

  lemma {:induction false} Prefixed(a: seq<Source>, b: seq<Source>, all: seq<Source>)
    requires |a| <= |all| && a == all[..|a|]
    ensures a + b <= all <==> b <= all[|a|..]
  {
    Behind(a, b, all);
    if b <= all[|a|..] {
      assert all == a + all[|a|..];
    }
  }

  /** At any point of any run, the bytes accepted so far are a prefix of header and file if
      and only if the run is kept. */
  lemma {:induction false} PrefixExact(s: Send, ks: seq<nat>)
    requires Exact(s) && Accepts(s, ks)
    ensures Wire(s, ks) <= Rest(s) <==> Kept(s, ks)
    decreases |ks|
  {
    hide Offered, Whole, Advance, Rough;
    if ks != [] {
      var k := ks[0];
      ExactOffersRest(s);
      RestMinus(s, k);
      Prefixed(Offered(s)[..k], Wire(Advance(s, k), ks[1..]), Rest(s));
      if Smooth1(s, k) {
        AdvanceExact(s, k);
        PrefixExact(Advance(s, k), ks[1..]);
      } else {
        BecomesRough(s, k);
        RoughPrefix(Advance(s, k), ks[1..]);
      }
    }
  }

  /** A run of write() that has nothing more to send has sent header and file, byte by byte
      and in order, if and only if it was smooth: no call but those that found nothing sent
      left the header unfinished. */
  lemma {:induction false} WireExact(s: Send, ks: seq<nat>)
    requires Exact(s) && Accepts(s, ks) && After(s, ks).toSend <= 0
    ensures Wire(s, ks) == Rest(s) <==> Smooth(s, ks)
    decreases |ks|
  {
    hide Offered, Whole, Advance, Rough;
    if Smooth(s, ks) {
      SmoothRun(s, ks);
    } else {
      var k := ks[0];
      var rest := Wire(Advance(s, k), ks[1..]);
      if !Smooth1(s, k) {
        BecomesRough(s, k);
        RoughRun(Advance(s, k), ks[1..]);
      } else {
        AdvanceExact(s, k);
        WireExact(Advance(s, k), ks[1..]);
      }
      ExactOffersRest(s);
      RestMinus(s, k);
      Behind(Offered(s)[..k], rest, Rest(s));
    }
  }

  /** At every point of the run, the offer is what remains. */
  predicate RightThroughout(s: Send, ks: seq<nat>)
    requires Accepts(s, ks)
    decreases |ks|
  {
    && 0 <= s.haveSend <= s.Total() && Offered(s) == Rest(s)
    && (ks == [] || RightThroughout(Advance(s, ks[0]), ks[1..]))
  }

  // ---- a reply whose length is not an `int` ----

  /** The state process_write leaves for any sizes: bytes_to_send is an `int`. */
  function StartCut(head: nat, file: nat): Send {
    Start(head, file).(toSend := ToInt32(head + file))
  }

  /** Either the header is still offered, in front of the whole file, or no more than
      bytes_to_send bytes are. */
  predicate CutState(s: Send, file: nat) {
    && s.withFile && 0 <= s.haveSend < s.head + file && s.Total() < s.head + file
    && (if s.len0 > 0 then s.haveSend + s.len0 <= s.head && s.len1 == file
        else s.len0 == 0 && s.len1 == s.toSend)
  }

  lemma {:induction false} StaysCut(s: Send, file: nat, k: nat)
    requires CutState(s, file) && k <= |Offered(s)| && k < file
    ensures CutState(Advance(s, k), file)
  {
  }

  lemma {:induction false} WireLength(s: Send, ks: seq<nat>)
    requires Accepts(s, ks)
    ensures |Wire(s, ks)| == After(s, ks).haveSend - s.haveSend && After(s, ks).head == s.head
    decreases |ks|
  {
    hide Offered;
    if ks != [] {
      WireLength(Advance(s, ks[0]), ks[1..]);
    }
  }

  lemma {:induction false} CutRun(s: Send, file: nat, ks: seq<nat>)
    requires CutState(s, file) && Accepts(s, ks) && forall i :: 0 <= i < |ks| ==> ks[i] < file
    ensures CutState(After(s, ks), file)
    decreases |ks|
  {
    hide Offered, Advance, CutState;
    if ks != [] {
      StaysCut(s, file, ks[0]);
      CutRun(Advance(s, ks[0]), file, ks[1..]);
    }
  }

  /** When header and file exceed an `int`, no run sends them both whole, unless a single
      portion is as long as the file. */
  lemma {:induction false} LongReplyIsCut(head: nat, file: nat, ks: seq<nat>)
    requires head > 0 && head + file > INT32_MAX && file > 0
    requires Accepts(StartCut(head, file), ks) && forall i :: 0 <= i < |ks| ==> ks[i] < file
    ensures |Wire(StartCut(head, file), ks)| < head + file
  {
    hide Accepts, Wire, After, ToInt32;
    CutRun(StartCut(head, file), file, ks);
    WireLength(StartCut(head, file), ks);
  }

  // ---- the intended update ----

  predicate IntendedAccepts(s: Send, ks: seq<nat>)
    decreases |ks|
  {
    ks == [] || (ks[0] <= |Offered(s)| && IntendedAccepts(IntendedAdvance(s, ks[0]), ks[1..]))
  }

  function IntendedAfter(s: Send, ks: seq<nat>): Send
    decreases |ks|
  {
    if ks == [] then s else IntendedAfter(IntendedAdvance(s, ks[0]), ks[1..])
  }

  function IntendedWire(s: Send, ks: seq<nat>): seq<Source>
    requires IntendedAccepts(s, ks)
    decreases |ks|
  {
    if ks == [] then [] else Offered(s)[..ks[0]] + IntendedWire(IntendedAdvance(s, ks[0]), ks[1..])
  }

  /** With the intended remaining length every run sends the reply in order. */
  lemma {:induction false} IntendedRun(s: Send, ks: seq<nat>)
    requires Exact(s) && IntendedAccepts(s, ks)
    ensures Exact(IntendedAfter(s, ks)) && IntendedAfter(s, ks).Total() == s.Total()
    ensures IntendedWire(s, ks) + Rest(IntendedAfter(s, ks)) == Rest(s)
    ensures IntendedAfter(s, ks).toSend == 0 ==> IntendedWire(s, ks) == Rest(s)
    decreases |ks|
  {
    hide Offered, Whole;
    if ks != [] {
      var k := ks[0];
      AdvanceExact(s, k);
      ExactOffersRest(s);
      TotalIsConstant(s, k);
      RestMinus(s, k);
      IntendedRun(IntendedAdvance(s, k), ks[1..]);
      Append(Rest(s)[..k], IntendedWire(IntendedAdvance(s, k), ks[1..]), Rest(IntendedAfter(s, ks)), Rest(s), k);
    }
    if IntendedAfter(s, ks).toSend == 0 {
      RestLength(IntendedAfter(s, ks));
    }
  }

  /** Three portions, the first two inside a ten-byte header: the tenth byte on the wire is
      the first of the file. */
  lemma {:induction false} ThreeCallsGoWrong()
    ensures var s, ks := Start(10, 5), [1, 1, 8];
      && Accepts(s, ks) && !Smooth(s, ks)
      && |Wire(s, ks)| == 10 && Wire(s, ks)[9] == File(0) && Whole(s)[9] == Header(9)
  {
    var s := Start(10, 5);
    var s1, s2 := Send(10, 14, 1, 1, 9, 0, 5, true), Send(10, 13, 2, 2, 7, 0, 5, true);
    assert Advance(s, 1) == s1 && Advance(s1, 1) == s2 && !Smooth1(s1, 1);
    assert |Offered(s)| == 15 && |Offered(s1)| == 14 && |Offered(s2)| == 12 && Offered(s2)[7] == File(0);
    hide Offered, Advance;
    OneCall(s2, 8);
    assert [1, 8][1..] == [8] && [1, 1, 8][1..] == [1, 8];
    assert Wire(s1, [1, 8]) == Offered(s1)[..1] + Offered(s2)[..8];
    assert Wire(s, [1, 1, 8]) == Offered(s)[..1] + (Offered(s1)[..1] + Offered(s2)[..8]);
  }
}
