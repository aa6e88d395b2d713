/** Reading and printing decimal numbers: `atol` and printf's `%d`. */
module Decimal {

  const INT32_MAX := 0x7FFF_FFFF
  const INT64_MAX := 0x7FFF_FFFF_FFFF_FFFF

  /** The conversion from a wider integer to `int`: two's complement, 32 bits. */
  function ToInt32(x: int): (r: int)
    ensures -INT32_MAX - 1 <= r <= INT32_MAX
    ensures -INT32_MAX - 1 <= x <= INT32_MAX ==> r == x
  {
    var m := x % 0x1_0000_0000;
    if m <= INT32_MAX then m else m - 0x1_0000_0000
  }

  /** The conversion keeps the low 32 bits. */
  lemma {:induction false} ToInt32Wraps(x: int)
    ensures (x - ToInt32(x)) % 0x1_0000_0000 == 0
  {
    var m := x % 0x1_0000_0000;
    assert x == (x / 0x1_0000_0000) * 0x1_0000_0000 + m;
    if m > INT32_MAX {
      assert x - ToInt32(x) == (x / 0x1_0000_0000 + 1) * 0x1_0000_0000;
    }
  }

  predicate IsDigit(c: char) {
    '0' <= c <= '9'
  }

  predicate IsSpace(c: char) {
    c == ' ' || '\t' <= c <= '\r'
  }

  /** The value of the digits at the front of `s`, continuing from `acc`. */
  function ReadDigits(s: string, acc: nat): nat {
    if s == "" || !IsDigit(s[0]) then acc
    else ReadDigits(s[1..], acc * 10 + (s[0] - '0') as nat)
  }

  /** `atol` as glibc computes it on a 64-bit `long`: blanks, one sign, digits;
      out-of-range values saturate. */
  function Atol(s: string): (r: int)
    ensures -INT64_MAX - 1 <= r <= INT64_MAX
  {
    if s == "" then 0
    else if IsSpace(s[0]) then Atol(s[1..])
    else if s[0] == '-' then
      var v: int := ReadDigits(s[1..], 0);
      if v > INT64_MAX then -INT64_MAX - 1 else -v
    else
      var v := ReadDigits(if s[0] == '+' then s[1..] else s, 0);
      if v > INT64_MAX then INT64_MAX else v
  }

  /** Into the range of a 64-bit `long`. */
  function Saturate(v: int): int {
    if v > INT64_MAX then INT64_MAX else if v < -INT64_MAX - 1 then -INT64_MAX - 1 else v
  }

  /** atol passes over blanks, takes one sign and all the digits behind it, and gives the
      number they spell, cut down to the range of the result. */
  lemma {:induction false} AtolReads(blanks: string, sign: string, digits: string, rest: string)
    requires (forall c :: c in blanks ==> c == ' ' || '\t' <= c <= '\r') && sign in {"", "+", "-"}
    requires digits != "" && (forall c :: c in digits ==> '0' <= c <= '9')
    requires rest != "" ==> !('0' <= rest[0] <= '9')
    ensures var v: int := ReadDigits(digits, 0);
      Atol(blanks + (sign + (digits + rest))) == Saturate(if sign == "-" then -v else v)
  {
    var number := sign + (digits + rest);
    var s := blanks + number;
    if blanks == "" {
      assert s == number && digits[0] in digits;
      ReadDigitsSplit(digits, rest, 0);
      assert sign != "" ==> number[1..] == digits + rest;
      assert sign == "" ==> number == digits + rest;
    } else {
      assert s[0] == blanks[0] && blanks[0] in blanks;
      assert s[1..] == blanks[1..] + number;
      assert forall c :: c in blanks[1..] ==> c in blanks;
      AtolReads(blanks[1..], sign, digits, rest);
    }
  }

  function Digit(d: nat): char
    requires d < 10
  {
    '0' + d as char
  }

  /** `%d` of a number that is not negative. */
  function Print(n: nat): (s: string)
    ensures s != "" && forall c :: c in s ==> IsDigit(c)
  {
    if n < 10 then [Digit(n)] else Print(n / 10) + [Digit(n % 10)]
  }

  lemma {:induction false} ReadDigitsSplit(a: string, b: string, acc: nat)
    requires forall c :: c in a ==> IsDigit(c)
    ensures ReadDigits(a + b, acc) == ReadDigits(b, ReadDigits(a, acc))
  {
    if a == "" {
      assert a + b == b;
    } else {
      assert (a + b)[1..] == a[1..] + b;
      assert a[0] in a;
      ReadDigitsSplit(a[1..], b, acc * 10 + (a[0] - '0') as nat);
    }
  }

  lemma {:induction false} ReadPrint(n: nat)
    ensures ReadDigits(Print(n), 0) == n
  {
    var last := [Digit(n % 10)];
    assert forall acc: nat :: ReadDigits(last, acc) == acc * 10 + n % 10 by {
      assert last[1..] == "";
    }
    if n >= 10 {
      ReadPrint(n / 10);
      ReadDigitsSplit(Print(n / 10), last, 0);
    }
  }

  /** Reading a printed number gives it back, for every `int` that is not negative. */
  lemma AtolPrint(n: nat)
    requires n <= INT32_MAX
    ensures ToInt32(Atol(Print(n))) == n
  {
    ReadPrint(n);
    assert IsDigit(Print(n)[0]);
  }

  /** A printed `int` that is not negative has at most ten digits. */
  lemma PrintLength(n: nat)
    requires n <= INT32_MAX
    ensures 1 <= |Print(n)| <= 10
  {
    PrintBound(n, 10, 10_000_000_000);
  }

  lemma {:induction false} PrintBound(n: nat, digits: nat, limit: nat)
    requires digits >= 1 && limit == Power10(digits) && n < limit
    ensures |Print(n)| <= digits
  {
    if n >= 10 {
      assert limit == 10 * Power10(digits - 1);
      assert digits > 1;
      PrintBound(n / 10, digits - 1, Power10(digits - 1));
    }
  }

  function Power10(k: nat): nat {
    if k == 0 then 1 else 10 * Power10(k - 1)
  }
}
