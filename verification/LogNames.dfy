/** The text of a log file's name. */
module LogNames {
  import opened Decimal
  import opened LogRotation

  /** `%02d` of a number that is not negative. */
  function TwoDigits(n: nat): (s: string)
    ensures forall c :: c in s ==> IsDigit(c)
  {
    if n < 10 then "0" + Print(n) else Print(n)
  }

  function Tail(d: Date): string {
    Print(d.year) + "_" + (TwoDigits(d.month) + "_" + (TwoDigits(d.mday) + "_"))
  }

  function Suffix(part: nat): string {
    if part == 0 then "" else "." + Print(part)
  }

  /** The name under which write_log opens a file. */
  function Name(dir: string, log: string, f: FileId): string {
    dir + (Tail(f.date) + (log + Suffix(f.part)))
  }

  lemma {:induction false} FourDigits(n: nat)
    requires 1000 <= n < 10000
    ensures Print(n) == [Digit(n / 1000), Digit(n / 100 % 10), Digit(n / 10 % 10), Digit(n % 10)]
  {
    assert n / 10 / 10 == n / 100 && n / 10 / 10 / 10 == n / 1000;
    assert Print(n / 100) == Print(n / 1000) + [Digit(n / 100 % 10)];
    assert Print(n / 10) == Print(n / 100) + [Digit(n / 10 % 10)];
  }

  lemma {:induction false} BothDigits(n: nat)
    requires n < 100
    ensures TwoDigits(n) == [Digit(n / 10), Digit(n % 10)]
  {
    if n >= 10 {
      assert Print(n) == Print(n / 10) + [Digit(n % 10)];
    } else {
      assert "0" == [Digit(0)];
    }
  }

  /** The name reads year_month_day_log, with the number of the file behind a dot unless it
      is the first of its day: four digits for the year, two each for month and day. */
  lemma {:induction false} NameReads(dir: string, log: string, f: FileId)
    requires 1000 <= f.date.year < 10000 && f.date.month < 100 && f.date.mday < 100
    ensures var d := f.date; var tail := Name(dir, log, f)[|dir|..];
      && Name(dir, log, f)[..|dir|] == dir
      && |tail| >= 11
      && tail[..4] == [Digit(d.year / 1000), Digit(d.year / 100 % 10), Digit(d.year / 10 % 10), Digit(d.year % 10)]
      && tail[4..7] == ['_', Digit(d.month / 10), Digit(d.month % 10)]
      && tail[7..11] == ['_', Digit(d.mday / 10), Digit(d.mday % 10), '_']
      && tail[11..] == if f.part == 0 then log else log + "." + Print(f.part)
  {
    hide Print, TwoDigits, Digit;
    var d := f.date;
    FourDigits(d.year);
    BothDigits(d.month);
    BothDigits(d.mday);
    var tail := Tail(d) + (log + Suffix(f.part));
    assert Name(dir, log, f)[|dir|..] == tail;
    assert |Tail(d)| == 11 && tail[..11] == Tail(d) && tail[11..] == log + Suffix(f.part);
    assert f.part == 0 ==> log + "" == log;
    assert log + ("." + Print(f.part)) == log + "." + Print(f.part);
  }

  lemma {:induction false} SameRest(a: string, x: string, y: string)
    requires a + x == a + y
    ensures x == y
  {
    assert x == (a + x)[|a|..];
  }

  /** The first underscore is where the digits end. */
  lemma {:induction false} FieldAt(a: string, x: string, k: nat)
    requires forall c :: c in a ==> IsDigit(c)
    ensures (a + "_" + x)[|a|] == '_'
    ensures k < |a| ==> (a + "_" + x)[k] != '_'
  {
    if k < |a| {
      assert a[k] in a;
    }
  }

  /** Digits in front of an underscore can be told from what follows. */
  lemma {:induction false} SameField(a: string, b: string, x: string, y: string)
    requires a + "_" + x == b + "_" + y
    requires forall c :: c in a ==> IsDigit(c)
    requires forall c :: c in b ==> IsDigit(c)
    ensures a == b && x == y
  {
    FieldAt(a, x, |b|);
    FieldAt(b, y, |a|);
    assert a == (a + "_" + x)[..|a|] && b == (b + "_" + y)[..|b|];
    SameRest(a + "_", x, y);
  }

  lemma {:induction false} SamePrint(m: nat, n: nat)
    requires Print(m) == Print(n)
    ensures m == n
  {
    ReadPrint(m);
    ReadPrint(n);
  }

  lemma {:induction false} ReadTwoDigits(n: nat)
    ensures ReadDigits(TwoDigits(n), 0) == n
  {
    ReadPrint(n);
    if n < 10 {
      assert ("0" + Print(n))[1..] == Print(n);
    }
  }

  lemma {:induction false} SameTail(d: Date, e: Date, x: string, y: string)
    requires Tail(d) + x == Tail(e) + y
    ensures d == e && x == y
  {
    hide Print, TwoDigits;
    var d1, e1 := TwoDigits(d.mday) + "_", TwoDigits(e.mday) + "_";
    var d2, e2 := TwoDigits(d.month) + "_" + d1, TwoDigits(e.month) + "_" + e1;
    assert Tail(d) + x == Print(d.year) + "_" + (d2 + x);
    assert Tail(e) + y == Print(e.year) + "_" + (e2 + y);
    SameField(Print(d.year), Print(e.year), d2 + x, e2 + y);
    assert d2 + x == TwoDigits(d.month) + "_" + (d1 + x);
    assert e2 + y == TwoDigits(e.month) + "_" + (e1 + y);
    SameField(TwoDigits(d.month), TwoDigits(e.month), d1 + x, e1 + y);
    SameField(TwoDigits(d.mday), TwoDigits(e.mday), x, y);
    SamePrint(d.year, e.year);
    ReadTwoDigits(d.month);
    ReadTwoDigits(e.month);
    ReadTwoDigits(d.mday);
    ReadTwoDigits(e.mday);
  }

  /** No two files of the log, of whatever days and numbers, share a name. */
  lemma {:induction false} NamesTellFiles(dir: string, log: string, f: FileId, g: FileId)
    requires Name(dir, log, f) == Name(dir, log, g)
    ensures f == g
  {
    SameRest(dir, Tail(f.date) + (log + Suffix(f.part)), Tail(g.date) + (log + Suffix(g.part)));
    SameTail(f.date, g.date, log + Suffix(f.part), log + Suffix(g.part));
    SameRest(log, Suffix(f.part), Suffix(g.part));
    if f.part != 0 && g.part != 0 {
      SameRest(".", Print(f.part), Print(g.part));
      SamePrint(f.part, g.part);
    }
  }
}
