/** Which file write_log puts a line into: a new one when the day of the month has changed
    and one every m_split_lines lines. */
module LogRotation {

  datatype Date = Date(year: nat, month: nat, mday: nat)

  predicate Earlier(a: Date, b: Date) {
    || a.year < b.year
    || (a.year == b.year && (a.month < b.month || (a.month == b.month && a.mday < b.mday)))
  }

  /** A log file: its date, and the number behind the name (0 for a name without one). */
  datatype FileId = FileId(date: Date, part: nat)

  predicate Below(a: FileId, b: FileId) {
    Earlier(a.date, b.date) || (a.date == b.date && a.part < b.part)
  }

  /** `fp` is the open file.  `history` lists the files opened, in order. */
  datatype Rotation = Rotation(
    split: nat, today: nat, count: nat, fp: FileId, files: map<FileId, seq<string>>, history: seq<FileId>)

  function Content(files: map<FileId, seq<string>>, f: FileId): seq<string> {
    if f in files then files[f] else []
  }

  /** After init on an empty directory. */
  function Start(split: nat, date: Date): Rotation {
    var f := FileId(date, 0);
    Rotation(split, date.mday, 0, f, map[f := []], [f])
  }

  /** The first critical section of write_log: count the line and pick the file. */
  function Rotate(s: Rotation, date: Date): Rotation
    requires s.split > 0
  {
    var count := s.count + 1;
    if s.today != date.mday then Open(s.(today := date.mday, count := 0), FileId(date, 0))
    else if count % s.split == 0 then Open(s.(count := count), FileId(date, count / s.split))
    else s.(count := count)
  }

  /** fopen in append mode. */
  function Open(s: Rotation, f: FileId): Rotation {
    s.(fp := f, files := s.files[f := Content(s.files, f)], history := s.history + [f])
  }

  function Append(s: Rotation, line: string): Rotation {
    s.(files := s.files[s.fp := Content(s.files, s.fp) + [line]])
  }

  /** One call of write_log in synchronous mode. */
  function Write(s: Rotation, date: Date, line: string): Rotation
    requires s.split > 0
  {
    Append(Rotate(s, date), line)
  }

  datatype Call = Call(date: Date, line: string)

  function WriteAll(s: Rotation, calls: seq<Call>): Rotation
    requires s.split > 0
    decreases |calls|
  {
    if calls == [] then s else WriteAll(Write(s, calls[0].date, calls[0].line), calls[1..])
  }

  // ---- the name of the open file ----

  /** The open file is always the one named by m_today and m_count / m_split_lines. */
  predicate Named(s: Rotation) {
    s.split > 0 && s.today == s.fp.date.mday && s.fp.part == s.count / s.split
  }

  lemma {:induction false} SameQuotient(count: nat, split: nat)
    requires split > 0 && (count + 1) % split != 0
    ensures (count + 1) / split == count / split
    ensures (count + 1) % split == count % split + 1
  {
    var q, r := count / split, count % split;
    assert count == q * split + r;
    if r + 1 < split {
      Quotient(count + 1, split, q, r + 1);
    } else {
      assert count + 1 == (q + 1) * split + 0;
      Quotient(count + 1, split, q + 1, 0);
    }
  }

  lemma {:induction false} Quotient(n: nat, d: nat, q: nat, r: nat)
    requires d > 0 && n == q * d + r && r < d
    ensures n / d == q && n % d == r
  {
    MoreTurns(n / d, q, d);
    MoreTurns(q, n / d, d);
  }

  lemma {:induction false} MoreTurns(a: nat, b: nat, d: nat)
    requires d > 0
    ensures a < b ==> a * d + d <= b * d
  {
    if a < b {
      MoreTurns(a, b - 1, d);
      assert b * d == (b - 1) * d + d;
    }
  }

  lemma {:induction false} KeepsNamed(s: Rotation, date: Date, line: string)
    requires Named(s)
    ensures Named(Write(s, date, line))
  {
    RotateNamed(s, date);
    hide Rotate;
  }

  lemma {:induction false} RotateNamed(s: Rotation, date: Date)
    requires Named(s)
    ensures Named(Rotate(s, date))
  {
    if s.today != date.mday {
      Quotient(0, s.split, 0, 0);
    } else if (s.count + 1) % s.split != 0 {
      SameQuotient(s.count, s.split);
    }
  }

  lemma {:induction false} NamedThroughout(s: Rotation, calls: seq<Call>)
    requires Named(s)
    ensures Named(WriteAll(s, calls))
    decreases |calls|
  {
    if calls != [] {
      KeepsNamed(s, calls[0].date, calls[0].line);
      hide Named, Write;
      NamedThroughout(Write(s, calls[0].date, calls[0].line), calls[1..]);
    }
  }

  // ---- the day of the open file ----

  /** One write goes to a file of its own date exactly when the open file has that date, or
      the day of the month differs from that file's, or the line count calls for a new file. */
  lemma {:induction false} WriteDayExact(s: Rotation, date: Date, line: string)
    requires Named(s)
    ensures Write(s, date, line).fp.date == date <==>
            date == s.fp.date || date.mday != s.fp.date.mday || (s.count + 1) % s.split == 0
  {
  }

  predicate RightDays(s: Rotation, calls: seq<Call>)
    requires s.split > 0
    decreases |calls|
  {
    calls == [] ||
    (var s' := Write(s, calls[0].date, calls[0].line); s'.fp.date == calls[0].date && RightDays(s', calls[1..]))
  }

  /** Writes that follow each other on different dates are on different days of the month. */
  predicate DaysTellDates(date: Date, calls: seq<Call>)
    decreases |calls|
  {
    calls == [] ||
    ((calls[0].date == date || calls[0].date.mday != date.mday) && DaysTellDates(calls[0].date, calls[1..]))
  }

  lemma {:induction false} ToldApart(s: Rotation, calls: seq<Call>)
    requires Named(s) && DaysTellDates(s.fp.date, calls)
    ensures RightDays(s, calls)
    decreases |calls|
  {
    if calls != [] {
      KeepsNamed(s, calls[0].date, calls[0].line);
      WriteDayExact(s, calls[0].date, calls[0].line);
      hide Named, Write;
      ToldApart(Write(s, calls[0].date, calls[0].line), calls[1..]);
    }
  }

  lemma {:induction false} OneTurn(n: nat, split: nat)
    requires 0 < n < split
    ensures n % split == n
  {
  }

  lemma {:induction false} MustBeToldApart(s: Rotation, calls: seq<Call>)
    requires Named(s) && s.count + |calls| < s.split && RightDays(s, calls)
    ensures DaysTellDates(s.fp.date, calls)
    decreases |calls|
  {
    if calls != [] {
      KeepsNamed(s, calls[0].date, calls[0].line);
      WriteDayExact(s, calls[0].date, calls[0].line);
      OneTurn(s.count + 1, s.split);
      assert Write(s, calls[0].date, calls[0].line).count <= s.count + 1;
      hide Named, Write;
      MustBeToldApart(Write(s, calls[0].date, calls[0].line), calls[1..]);
    }
  }

  /** The same in terms of dates and counts alone: `date` is the date of the open file and
      `count` is m_count. */
  predicate DaysShown(date: Date, count: nat, split: nat, calls: seq<Call>)
    requires split > 0
    decreases |calls|
  {
    calls == [] ||
    (var next := calls[0].date;
     && (next == date || next.mday != date.mday || (count + 1) % split == 0)
     && DaysShown(next, if next.mday != date.mday then 0 else count + 1, split, calls[1..]))
  }

  /** For the one m_split_lines of a running log: every line goes to a file of its date if
      and only if each line has the date of the open file, differs from it in the day of
      the month, or is one at which the count calls for a new file. */
  lemma {:induction false} DaysExactForSplit(s: Rotation, calls: seq<Call>)
    requires s.split > 0 && Named(s)
    ensures RightDays(s, calls) <==> DaysShown(s.fp.date, s.count, s.split, calls)
    decreases |calls|
  {
    if calls != [] {
      var date, line := calls[0].date, calls[0].line;
      var s' := Write(s, date, line);
      KeepsNamed(s, date, line);
      WriteDayExact(s, date, line);
      assert s'.split == s.split && s'.count == if date.mday != s.fp.date.mday then 0 else s.count + 1;
      hide Named, Write;
      if s'.fp.date == date {
        DaysExactForSplit(s', calls[1..]);
      }
    }
  }

  /** write_log compares days of the month only: every line goes to a file of its date,
      whatever m_split_lines is, if and only if lines that follow each other on different
      dates are on different days of the month. */
  lemma {:induction false} DaysExact(date: Date, calls: seq<Call>)
    ensures (forall split: nat :: split > 0 ==> RightDays(Start(split, date), calls)) <==> DaysTellDates(date, calls)
  {
    if DaysTellDates(date, calls) {
      forall split: nat | split > 0 ensures RightDays(Start(split, date), calls) {
        ToldApart(Start(split, date), calls);
      }
    } else {
      var split := |calls| + 1;
      if RightDays(Start(split, date), calls) {
        MustBeToldApart(Start(split, date), calls);
      }
    }
  }

  /** A line logged a month after the last one, on the same day, goes to the old file. */
  lemma {:induction false} MonthLater()
    ensures !RightDays(Start(5000000, Date(2022, 1, 15)), [Call(Date(2022, 2, 15), "accept error")])
  {
  }

  // ---- what the files hold ----

  /** The lines of the files in the order in which the files were opened. */
  function Flatten(files: map<FileId, seq<string>>, history: seq<FileId>): seq<string> {
    if history == [] then []
    else Flatten(files, history[..|history| - 1]) + Content(files, history[|history| - 1])
  }

  function LinesOf(calls: seq<Call>): (r: seq<string>)
    ensures |r| == |calls|
  {
    seq(|calls|, k requires 0 <= k < |calls| => calls[k].line)
  }

  /** The files are opened in ascending order, the open one last; no other file exists. */
  ghost predicate FilesInv(s: Rotation) {
    && s.history != []
    && s.history[|s.history| - 1] == s.fp
    && (forall i, j :: 0 <= i < j < |s.history| ==> Below(s.history[i], s.history[j]))
    && (forall f :: f in s.files ==> f in s.history)
  }

  /** The open file has the lines counted since it was opened, the first file one fewer;
      no file has more than m_split_lines. */
  ghost predicate SizeInv(s: Rotation) {
    && s.split > 0
    && |Content(s.files, s.fp)| == s.count % s.split + (if |s.history| == 1 then 0 else 1)
    && (forall f :: f in s.files ==> |s.files[f]| <= s.split)
  }

  lemma {:induction false} BelowChains(a: FileId, b: FileId, c: FileId)
    requires Below(a, b) && Below(b, c)
    ensures Below(a, c)
  {
  }

  /** A file that is opened was never opened before. */
  lemma {:induction false} OpensNew(s: Rotation, f: FileId)
    requires FilesInv(s) && Below(s.fp, f)
    ensures f !in s.files && f !in s.history
    ensures FilesInv(Open(s, f))
  {
    forall i | 0 <= i < |s.history| ensures Below(s.history[i], f) {
      if i < |s.history| - 1 {
        BelowChains(s.history[i], s.fp, f);
      }
    }
    assert forall i :: 0 <= i < |s.history| ==> s.history[i] != f;
  }

  lemma {:induction false} NextPart(count: nat, split: nat)
    requires split > 0 && (count + 1) % split == 0
    ensures (count + 1) / split == count / split + 1
    ensures count % split == split - 1
  {
    var q, r := count / split, count % split;
    assert count == q * split + r;
    if r + 1 < split {
      Quotient(count + 1, split, q, r + 1);
    } else {
      assert count + 1 == (q + 1) * split + 0;
      Quotient(count + 1, split, q + 1, 0);
    }
  }

  predicate Stays(s: Rotation, date: Date) {
    s.split > 0 && s.today == date.mday && (s.count + 1) % s.split != 0
  }

  /** A rotation that opens a file: as the clock does not go back, it lies above all others. */
  lemma {:induction false} Rotates(s: Rotation, date: Date) returns (f: FileId, count: nat)
    requires Named(s) && !Earlier(date, s.fp.date) && !Stays(s, date)
    ensures Rotate(s, date) == Open(s.(today := date.mday, count := count), f)
    ensures Below(s.fp, f) && count % s.split == 0
  {
    if s.today != date.mday {
      f, count := FileId(date, 0), 0;
    } else {
      f, count := FileId(date, (s.count + 1) / s.split), s.count + 1;
      NextPart(s.count, s.split);
    }
  }

  lemma {:induction false} StaysOpen(s: Rotation, date: Date)
    requires Stays(s, date)
    ensures Rotate(s, date) == s.(count := s.count + 1)
  {
  }

  lemma {:induction false} RotateFiles(s: Rotation, date: Date)
    requires Named(s) && FilesInv(s) && !Earlier(date, s.fp.date)
    ensures FilesInv(Rotate(s, date))
  {
    if Stays(s, date) {
      StaysOpen(s, date);
    } else {
      var f, count := Rotates(s, date);
      OpensNew(s.(today := date.mday, count := count), f);
    }
    hide Rotate, Named, Below, Earlier;
  }

  /** The open file has room, and is one line short of its share. */
  ghost predicate Room(s: Rotation) {
    && s.split > 0
    && |Content(s.files, s.fp)| + 1 == s.count % s.split + (if |s.history| == 1 then 0 else 1)
    && |Content(s.files, s.fp)| < s.split
    && (forall f :: f in s.files ==> |s.files[f]| <= s.split)
  }

  lemma {:induction false} StaysInRoom(s: Rotation, date: Date)
    requires SizeInv(s) && Stays(s, date)
    ensures Room(Rotate(s, date))
  {
    SameQuotient(s.count, s.split);
    assert (s.count + 1) % s.split < s.split;
  }

  lemma {:induction false} OpensRoom(s: Rotation, f: FileId, count: nat, today: nat)
    requires FilesInv(s) && SizeInv(s) && Below(s.fp, f) && count % s.split == 0
    ensures Room(Open(s.(count := count, today := today), f))
  {
    OpensNew(s, f);
    hide FilesInv, Below;
  }

  lemma {:induction false} RotateRoom(s: Rotation, date: Date)
    requires Named(s) && FilesInv(s) && SizeInv(s) && !Earlier(date, s.fp.date)
    ensures Room(Rotate(s, date))
  {
    hide Rotate, Named, FilesInv, SizeInv, Room, Below, Earlier;
    if Stays(s, date) {
      StaysInRoom(s, date);
    } else {
      var f, count := Rotates(s, date);
      hide Stays;
      OpensRoom(s, f, count, date.mday);
    }
  }

  lemma {:induction false} AppendSizes(s: Rotation, line: string)
    requires Room(s)
    ensures SizeInv(Append(s, line))
  {
  }

  lemma {:induction false} KeepsFiles(s: Rotation, date: Date, line: string)
    requires Named(s) && FilesInv(s) && SizeInv(s) && !Earlier(date, s.fp.date)
    ensures FilesInv(Write(s, date, line)) && SizeInv(Write(s, date, line))
  {
    RotateFiles(s, date);
    RotateRoom(s, date);
    AppendSizes(Rotate(s, date), line);
    hide Rotate, Below, Room, SizeInv;
  }

  lemma {:induction false} FlattenSame(
    files: map<FileId, seq<string>>, files': map<FileId, seq<string>>, h: seq<FileId>)
    requires forall i :: 0 <= i < |h| ==> Content(files, h[i]) == Content(files', h[i])
    ensures Flatten(files, h) == Flatten(files', h)
  {
    hide Content;
    if h != [] {
      FlattenSame(files, files', h[..|h| - 1]);
    }
  }

  lemma {:induction false} OpenFlatten(s: Rotation, f: FileId)
    requires FilesInv(s) && Below(s.fp, f)
    ensures Flatten(Open(s, f).files, Open(s, f).history) == Flatten(s.files, s.history)
  {
    OpensNew(s, f);
    hide FilesInv, Below;
    var s' := Open(s, f);
    assert s'.history[..|s'.history| - 1] == s.history;
    FlattenSame(s.files, s'.files, s.history);
  }

  lemma {:induction false} RotateFlatten(s: Rotation, date: Date)
    requires Named(s) && FilesInv(s) && !Earlier(date, s.fp.date)
    ensures Flatten(Rotate(s, date).files, Rotate(s, date).history) == Flatten(s.files, s.history)
  {
    hide Rotate, Named, Below, Earlier, Flatten;
    if Stays(s, date) {
      StaysOpen(s, date);
    } else {
      var f, count := Rotates(s, date);
      OpenFlatten(s.(today := date.mday, count := count), f);
    }
  }

  lemma {:induction false} AppendFlatten(s: Rotation, line: string)
    requires FilesInv(s)
    ensures Flatten(Append(s, line).files, s.history) == Flatten(s.files, s.history) + [line]
  {
    var h := s.history[..|s.history| - 1];
    forall i | 0 <= i < |h| ensures h[i] != s.fp {
      assert Below(s.history[i], s.history[|s.history| - 1]);
    }
    FlattenSame(s.files, Append(s, line).files, h);
  }

  /** The clock never goes back. */
  predicate Ascending(date: Date, calls: seq<Call>)
    decreases |calls|
  {
    calls == [] || (!Earlier(calls[0].date, date) && Ascending(calls[0].date, calls[1..]))
  }

  lemma {:induction false} LaterStill(a: Date, b: Date, calls: seq<Call>)
    requires !Earlier(b, a) && Ascending(b, calls)
    ensures Ascending(a, calls)
  {
  }

  lemma {:induction false} FileIsNotLater(s: Rotation, date: Date)
    requires s.split > 0 && !Earlier(date, s.fp.date)
    ensures !Earlier(date, Rotate(s, date).fp.date)
  {
  }

  lemma {:induction false} WriteFlattens(s: Rotation, date: Date, line: string)
    requires Named(s) && FilesInv(s) && !Earlier(date, s.fp.date)
    ensures var s' := Write(s, date, line);
      && Flatten(s'.files, s'.history) == Flatten(s.files, s.history) + [line]
      && s'.split == s.split
  {
    RotateFlatten(s, date);
    RotateFiles(s, date);
    AppendFlatten(Rotate(s, date), line);
    hide Named, FilesInv, Flatten;
  }

  lemma {:induction false} OneWrite(s: Rotation, date: Date, line: string, rest: seq<Call>)
    requires s.split > 0 && Named(s) && FilesInv(s) && SizeInv(s)
    requires !Earlier(date, s.fp.date) && Ascending(date, rest)
    ensures var s' := Write(s, date, line);
      && Named(s') && FilesInv(s') && SizeInv(s') && s'.split == s.split && Ascending(s'.fp.date, rest)
      && Flatten(s'.files, s'.history) == Flatten(s.files, s.history) + [line]
  {
    KeepsNamed(s, date, line);
    FileIsNotLater(s, date);
    KeepsFiles(s, date, line);
    WriteFlattens(s, date, line);
    LaterStill(Rotate(s, date).fp.date, date, rest);
    hide Named, FilesInv, SizeInv, Flatten, Earlier, Ascending, Rotate;
  }

  lemma {:induction false} WriteAllFiles(s: Rotation, calls: seq<Call>)
    requires s.split > 0 && Named(s) && FilesInv(s) && SizeInv(s) && Ascending(s.fp.date, calls)
    ensures var s' := WriteAll(s, calls);
      && FilesInv(s') && SizeInv(s') && s'.split == s.split
      && Flatten(s'.files, s'.history) == Flatten(s.files, s.history) + LinesOf(calls)
    decreases |calls|
  {
    hide Named, FilesInv, SizeInv, Flatten, Write;
    if calls != [] {
      var date, line := calls[0].date, calls[0].line;
      var s1 := Write(s, date, line);
      OneWrite(s, date, line, calls[1..]);
      WriteAllFiles(s1, calls[1..]);
      hide Ascending, Earlier;
      assert LinesOf(calls) == [line] + LinesOf(calls[1..]);
      var before := Flatten(s.files, s.history);
      assert (before + [line]) + LinesOf(calls[1..]) == before + ([line] + LinesOf(calls[1..]));
    }
  }

  /** Synchronous mode, one call at a time, from no files, with a clock that never goes
      back: read one after the other in the order in which they were opened, the files hold
      exactly the lines logged, in order; none holds more than m_split_lines; and the open
      file is the one named by m_count / m_split_lines. */
  lemma {:induction false} FilesHoldTheLog(split: nat, date: Date, calls: seq<Call>)
    requires split > 0 && Ascending(date, calls)
    ensures var s := WriteAll(Start(split, date), calls);
      && Flatten(s.files, s.history) == LinesOf(calls)
      && (forall f :: f in s.files ==> f in s.history && |s.files[f]| <= split)
      && (forall i, j :: 0 <= i < j < |s.history| ==> Below(s.history[i], s.history[j]))
      && s.history != [] && s.fp == s.history[|s.history| - 1] && s.fp.part == s.count / split
  {
    var s := Start(split, date);
    NamedThroughout(s, calls);
    WriteAllFiles(s, calls);
    assert Flatten(s.files, s.history) == [];
  }

  /** Files are opened for appending: whatever the dates, no line that is in a file is ever
      overwritten or dropped. */
  lemma {:induction false} NothingIsOverwritten(s: Rotation, calls: seq<Call>, f: FileId)
    requires s.split > 0
    ensures Content(s.files, f) <= Content(WriteAll(s, calls).files, f)
    decreases |calls|
  {
    if calls != [] {
      WriteAppends(s, calls[0].date, calls[0].line, f);
      var s' := Write(s, calls[0].date, calls[0].line);
      assert s'.split == s.split;
      hide Write, Content;
      NothingIsOverwritten(s', calls[1..], f);
    }
  }

  /** A write adds its line to the open file and leaves all others alone, also when it
      opens a file that has lines already. */
  lemma {:induction false} WriteAppends(s: Rotation, date: Date, line: string, f: FileId)
    requires s.split > 0
    ensures var s' := Write(s, date, line);
      Content(s'.files, f) == Content(s.files, f) + (if f == s'.fp then [line] else [])
  {
  }

  /** A file left because of the line count is full, except that the first of all lacks a
      line: the count is raised before it is tested. */
  lemma {:induction false} LeftFull(s: Rotation, date: Date)
    requires Named(s) && SizeInv(s) && s.today == date.mday && !Stays(s, date)
    ensures |Content(s.files, s.fp)| == if |s.history| == 1 then s.split - 1 else s.split
  {
    NextPart(s.count, s.split);
  }
}
