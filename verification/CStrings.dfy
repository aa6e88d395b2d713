/** The C library string functions the request parser calls, as functions on
    sequences.  A C `char` is a `char`; a C string is the part of a buffer up to,
    and without, its first NUL. */
module CStrings {
  const NUL: char := '\0'
  const BLANKS := " \t"
  const CRLF := "\r\n"

  /** strcspn: the number of leading characters of `s` that are not in `chars`. */
  function Find(s: string, chars: string): (r: nat)
    ensures r <= |s|
    ensures forall i :: 0 <= i < r ==> s[i] !in chars
    ensures r < |s| ==> s[r] in chars
  {
    FindFrom(s, chars, 0)
  }

  function FindFrom(s: string, chars: string, k: nat): (r: nat)
    requires k <= |s|
    ensures k <= r <= |s|
    ensures forall i :: k <= i < r ==> s[i] !in chars
    ensures r < |s| ==> s[r] in chars
    decreases |s| - k
  {
    if k == |s| || s[k] in chars then k else FindFrom(s, chars, k + 1)
  }

  /** strspn: the number of leading characters of `s` that are in `chars`. */
  function Span(s: string, chars: string): (r: nat)
    ensures r <= |s|
    ensures forall i :: 0 <= i < r ==> s[i] in chars
    ensures r < |s| ==> s[r] !in chars
  {
    SpanFrom(s, chars, 0)
  }

  function SpanFrom(s: string, chars: string, k: nat): (r: nat)
    requires k <= |s|
    ensures k <= r <= |s|
    ensures forall i :: k <= i < r ==> s[i] in chars
    ensures r < |s| ==> s[r] !in chars
    decreases |s| - k
  {
    if k == |s| || s[k] !in chars then k else SpanFrom(s, chars, k + 1)
  }

  /** The C string that starts at the front of `s`. */
  function Cut(s: string): (r: string)
    ensures |r| <= |s| && r == s[..|r|]
    ensures NUL !in r
    ensures |r| < |s| ==> s[|r|] == NUL
  {
    s[..Find(s, "\0")]
  }

  /** `s` without its leading characters from `chars`. */
  function Skip(s: string, chars: string): (r: string)
    ensures |r| <= |s| && r == s[|s| - |r|..]
    ensures r != "" ==> r[0] !in chars
  {
    s[Span(s, chars)..]
  }

  function ToLower(c: char): char {
    if 'A' <= c <= 'Z' then c - 'A' + 'a' else c
  }

  /** strcasecmp(a, b) == 0 */
  predicate EqualsNoCase(a: string, b: string) {
    |a| == |b| && forall i :: 0 <= i < |a| ==> ToLower(a[i]) == ToLower(b[i])
  }

  /** strncasecmp(s, prefix, strlen(prefix)) == 0 */
  predicate HasPrefixNoCase(s: string, prefix: string): (b: bool)
    ensures b ==> |prefix| <= |s|
  {
    |prefix| <= |s| && EqualsNoCase(s[..|prefix|], prefix)
  }

  // ---- what "no case" means ----

  /** The same character, or the two cases of one ASCII letter, 32 apart. */
  predicate SameLetter(a: char, b: char) {
    || a == b
    || ('A' <= a <= 'Z' && b as int == a as int + 32)
    || ('A' <= b <= 'Z' && a as int == b as int + 32)
  }

  lemma {:induction false} LowerIsSame(a: char, b: char)
    ensures ToLower(a) == ToLower(b) <==> SameLetter(a, b)
  {
    assert 'a' as int == 'A' as int + 32 && 'z' as int == 'Z' as int + 32;
  }

  /** Strings are compared letter by letter, whatever the case of each. */
  lemma {:induction false} SameIgnoringCase(a: string, b: string)
    ensures EqualsNoCase(a, b) <==> |a| == |b| && forall i :: 0 <= i < |a| ==> SameLetter(a[i], b[i])
  {
    forall i | 0 <= i < |a| && |a| == |b| ensures ToLower(a[i]) == ToLower(b[i]) <==> SameLetter(a[i], b[i]) {
      LowerIsSame(a[i], b[i]);
    }
  }

  lemma {:induction false} PrefixIgnoringCase(s: string, prefix: string)
    ensures HasPrefixNoCase(s, prefix) <==>
            |prefix| <= |s| && forall i :: 0 <= i < |prefix| ==> SameLetter(s[i], prefix[i])
  {
    if |prefix| <= |s| {
      SameIgnoringCase(s[..|prefix|], prefix);
      assert forall i :: 0 <= i < |prefix| ==> s[..|prefix|][i] == s[i];
    }
  }

  // ---- facts about the functions above ----

  /** `Find` is the only index with its three properties. */
  lemma {:induction false} FindIs(s: string, chars: string, k: nat)
    requires k <= |s|
    requires forall i :: 0 <= i < k ==> s[i] !in chars
    requires k < |s| ==> s[k] in chars
    ensures Find(s, chars) == k
  {
    var r := Find(s, chars);
    assert r < |s| ==> s[r] in chars;
    assert k < |s| ==> s[k] in chars;
  }

  /** A part without any of `chars` can be put in front. */
  lemma {:induction false} FindBehind(a: string, b: string, chars: string)
    requires forall i :: 0 <= i < |a| ==> a[i] !in chars
    ensures Find(a + b, chars) == |a| + Find(b, chars)
  {
    FindIs(a + b, chars, |a| + Find(b, chars));
  }

  lemma {:induction false} SpanIs(s: string, chars: string, k: nat)
    requires k <= |s|
    requires forall i :: 0 <= i < k ==> s[i] in chars
    requires k < |s| ==> s[k] !in chars
    ensures Span(s, chars) == k
  {
    var r := Span(s, chars);
    assert r < |s| ==> s[r] !in chars;
    assert k < |s| ==> s[k] !in chars;
  }

  lemma {:induction false} FindFront(a: string, b: string, chars: string)
    requires (forall c :: c in a ==> c !in chars) && (b != "" ==> b[0] in chars)
    ensures Find(a + b, chars) == |a|
  {
    assert forall i :: 0 <= i < |a| ==> (a + b)[i] in a;
    FindIs(a + b, chars, |a|);
  }

  lemma {:induction false} SpanFront(a: string, b: string, chars: string)
    requires (forall c :: c in a ==> c in chars) && (b != "" ==> b[0] !in chars)
    ensures Span(a + b, chars) == |a|
  {
    assert forall i :: 0 <= i < |a| ==> (a + b)[i] in a;
    SpanIs(a + b, chars, |a|);
  }

  lemma {:induction false} FrontParts(s: string, chars: string)
    ensures forall c :: c in s[..Find(s, chars)] ==> c !in chars
    ensures forall c :: c in s[..Span(s, chars)] ==> c in chars
  {
  }

  lemma {:induction false} CutIs(s: string, k: nat)
    requires k <= |s|
    requires NUL !in s[..k]
    requires k < |s| ==> s[k] == NUL
    ensures Cut(s) == s[..k]
  {
    forall i | 0 <= i < k ensures s[i] !in "\0" { assert s[i] in s[..k]; }
    FindIs(s, "\0", k);
  }

  /** A C string that ends before `k` depends only on the first `k` characters. */
  lemma {:induction false} CutLocal(a: string, b: string, k: nat)
    requires k <= |a| && k <= |b| && a[..k] == b[..k]
    requires NUL in a[..k]
    ensures Cut(a) == Cut(b) && |Cut(a)| < k
  {
    var n := |Cut(a)|;
    var j :| 0 <= j < k && a[..k][j] == NUL;
    assert a[j] == NUL;
    assert forall i :: 0 <= i < n ==> a[i] == Cut(a)[i] && Cut(a)[i] in Cut(a);
    assert forall i :: 0 <= i < k ==> a[..k][i] == a[i] && b[..k][i] == b[i];
    assert b[..n] == Cut(a);
    CutIs(b, n);
  }

  lemma {:induction false} DropPlus(a: string, k: nat, at: nat, t: string)
    requires k + at <= |a|
    ensures (a + t)[k..] == a[k..] + t
    ensures (a + t)[k + at..] == a[k..][at..] + t
  {
  }

  // ---- C strings inside a buffer ----

  lemma {:induction false} CutDrop(b: string, p: nat, k: nat)
    requires p <= |b| && k <= |Cut(b[p..])|
    ensures Cut(b[p + k..]) == Cut(b[p..])[k..]
  {
    var c := Cut(b[p..]);
    assert b[p + k..][..|c| - k] == c[k..];
    forall x | x in c[k..] ensures x in c {}
    CutIs(b[p + k..], |c| - k);
  }

  /** A NUL stored into a C string splits it in two. */
  lemma {:induction false} CutStore(b: string, p: nat, k: nat)
    requires p <= |b| && k < |Cut(b[p..])|
    ensures Cut(b[p + k := NUL][p..]) == Cut(b[p..])[..k]
    ensures Cut(b[p + k := NUL][p + k + 1..]) == Cut(b[p..])[k + 1..]
  {
    var c := Cut(b[p..]);
    var d := b[p + k := NUL];
    assert d[p..][..k] == c[..k];
    forall x | x in c[..k] ensures x in c {}
    CutIs(d[p..], k);
    CutDrop(b, p, k + 1);
    assert d[p + k + 1..] == b[p + k + 1..];
  }

  /** A C string that ends before `k` does not notice stores at `k` or later. */
  lemma {:induction false} CutBelow(a: string, b: string, p: nat, k: nat)
    requires p <= k <= |a| && k <= |b| && a[..k] == b[..k]
    requires NUL in a[p..k]
    ensures Cut(a[p..]) == Cut(b[p..]) && |Cut(a[p..])| < k - p
    ensures NUL in b[p..k]
  {
    assert a[p..][..k - p] == a[..k][p..] == b[..k][p..] == b[p..][..k - p];
    assert a[p..][..k - p] == a[p..k];
    assert b[p..][..k - p] == b[p..k];
    CutLocal(a[p..], b[p..], k - p);
  }

  lemma {:induction false} TakeOfSlice(b: string, i: nat, j: nat, n: nat)
    requires i + n <= j <= |b|
    ensures b[i..j][..n] == b[i..i + n]
  {
  }
}
