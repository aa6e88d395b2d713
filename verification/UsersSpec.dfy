/** The users map as a cache of the `user` table: loading it, the two CGI forms, and what
    runs of registrations do to both. */
module UsersSpec {
  import opened Wrappers
  import opened CStrings

  datatype Row = Row(name: string, password: string)

  /** initmysql_result: the rows one after the other, a later row replacing an earlier one. */
  function Load(table: seq<Row>): map<string, string> {
    if table == [] then map[]
    else Load(table[..|table| - 1])[table[|table| - 1].name := table[|table| - 1].password]
  }

  /** Some row for `name` exists, and the last one has `password`. */
  predicate LastRow(table: seq<Row>, name: string, password: string) {
    table != [] &&
    (if table[|table| - 1].name == name then table[|table| - 1].password == password
     else LastRow(table[..|table| - 1], name, password))
  }

  lemma {:induction false} LoadIsLastRow(table: seq<Row>, name: string, password: string)
    ensures (name in Load(table) && Load(table)[name] == password) <==> LastRow(table, name, password)
  {
    if table != [] {
      LoadIsLastRow(table[..|table| - 1], name, password);
    }
  }

  lemma {:induction false} LoadAppend(table: seq<Row>, row: Row)
    ensures Load(table + [row]) == Load(table)[row.name := row.password]
  {
    assert (table + [row])[..|table|] == table;
  }

  // ---- the form user=N&password=P ----

  /** Each field is copied into 100 bytes. */
  const FIELD := 100

  datatype Fields = Fields(name: string, password: string)

  /** The two fields of a body, which ends in a NUL.  None: a loop would leave the body or
      a buffer. */
  function ParseBody(body: string): Option<Fields> {
    if |body| < 5 then None
    else
      var i := FindFrom(body, "&", 5);
      if |body| < i + 10 || i - 5 >= FIELD then None
      else
        var password := Cut(body[i + 10..]);
        if |password| >= FIELD then None else Some(Fields(Cut(body[5..i]), password))
  }

  function Body(f: Fields): string {
    "user=" + f.name + "&password=" + f.password
  }

  predicate Sendable(f: Fields) {
    && |f.name| < 100 && |f.password| < 100
    && NUL !in f.name && NUL !in f.password && '&' !in f.name
  }

  lemma {:induction false} FindFromIs(s: string, chars: string, k: nat, at: nat)
    requires k <= at < |s|
    requires s[at] in chars && forall i :: k <= i < at ==> s[i] !in chars
    ensures FindFrom(s, chars, k) == at
  {
    var r := FindFrom(s, chars, k);
    assert r < |s| ==> s[r] in chars;
  }

  lemma {:induction false} CutWhole(s: string)
    requires NUL !in s
    ensures Cut(s) == s
  {
  }

  /** The fields of a form come out as they went in. */
  lemma {:induction false} FormRoundTrip(f: Fields)
    requires Sendable(f)
    ensures ParseBody(Body(f)) == Some(f)
  {
    var b := Body(f);
    var i := 5 + |f.name|;
    assert b[i] == '&';
    assert b[5..i] == f.name && b[i + 10..] == f.password;
    forall k | 5 <= k < i ensures b[k] != '&' {
      assert b[k] == f.name[k - 5];
    }
    FindFromIs(b, "&", 5, i);
    CutWhole(f.name);
    CutWhole(f.password);
  }

  /** What a body without NUL must look like to give these fields: the literal words of the
      form are not compared. */
  predicate Carries(body: string, f: Fields) {
    var i := 5 + |f.name|;
    i + 10 <= |body| && body[5..i] == f.name && body[i] == '&' && body[i + 10..] == f.password
  }

  lemma {:induction false} FormExact(body: string, f: Fields)
    requires NUL !in body
    ensures ParseBody(body) == Some(f) <==> Sendable(f) && Carries(body, f)
  {
    if |body| >= 5 {
      var i := FindFrom(body, "&", 5);
      if |body| >= i + 10 {
        CutWhole(body[5..i]);
        CutWhole(body[i + 10..]);
      }
      if Sendable(f) && Carries(body, f) {
        forall k | 5 <= k < 5 + |f.name| ensures body[k] != '&' {
          assert body[5..5 + |f.name|][k - 5] == f.name[k - 5];
        }
        FindFromIs(body, "&", 5, 5 + |f.name|);
      }
    }
  }

  /** Every body with a '&' from its sixth byte on and nine bytes behind it, NULs or not. */
  lemma {:induction false} FormParts(five: string, name: string, nine: string, password: string)
    requires |five| == 5 && '&' !in name && |nine| == 9
    ensures ParseBody(five + name + "&" + nine + password)
         == if |name| >= 100 || |Cut(password)| >= 100 then None else Some(Fields(Cut(name), Cut(password)))
  {
    var b := five + name + "&" + nine + password;
    var i := 5 + |name|;
    assert b[i] == '&' && b[5..i] == name && b[i + 10..] == password;
    forall k | 5 <= k < i ensures b[k] != '&' {
      assert b[k] == name[k - 5];
    }
    FindFromIs(b, "&", 5, i);
  }

  /** All other bodies are no forms: too short, or without the '&', or without nine bytes
      behind the first one. */
  lemma {:induction false} NoForm(body: string)
    requires |body| < 5 || '&' !in body[5..]
          || exists i :: 5 <= i < |body| < i + 10 && body[i] == '&' && '&' !in body[5..i]
    ensures ParseBody(body).None?
  {
    if |body| >= 5 {
      var i := FindFrom(body, "&", 5);
      assert i < |body| ==> body[5..][i - 5] == '&';
      if at :| 5 <= at < |body| < at + 10 && body[at] == '&' && '&' !in body[5..at] {
        forall k | 5 <= k < at ensures body[k] != '&' {
          assert body[k] == body[5..at][k - 5];
        }
        FindFromIs(body, "&", 5, at);
      }
    }
  }
}
