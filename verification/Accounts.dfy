/** The users map, initmysql_result, and the CGI part of do_request, on the state they
    change.  The database is a table; an INSERT may fail. */
module Accounts {
  import opened Wrappers
  import opened CStrings
  import opened UsersSpec
  import opened UsersRuns
  import opened HttpConnection

  /** The INSERT statement is built in 200 bytes, 50 of which are not the two fields. */
  const STATEMENT := 200

  /** strrchr: where the last `c` is. */
  function LastOf(s: string, c: char): (k: nat)
    requires c in s
    ensures k < |s| && s[k] == c && c !in s[k + 1..]
  {
    if s[|s| - 1] == c then |s| - 1
    else assert s == s[..|s| - 1] + [s[|s| - 1]]; LastOf(s[..|s| - 1], c)
  }

  lemma {:induction false} LastIs(s: string, c: char, k: nat)
    requires k < |s| && s[k] == c && c !in s[k + 1..]
    ensures LastOf(s, c) == k
  {
    if k < |s| - 1 {
      assert s[|s| - 1] == s[k + 1..][|s| - k - 2];
      assert s[..|s| - 1][k + 1..] == s[k + 1..][..|s| - k - 2];
      LastIs(s[..|s| - 1], c, k);
    }
  }

  /** The character behind the last slash of a URL, NUL when there is none. */
  function Page(url: string): char
    requires '/' in url
  {
    var p := LastOf(url, '/');
    if p + 1 < |url| then url[p + 1] else NUL
  }

  datatype Reply =
    | NotCgi
    | Url(page: string)
    | Stray // a loop or a copy leaves its buffer

  /** What the CGI part does for a request with body `body`. */
  function CgiReply(s: Users, url: string, cgi: bool, body: string, ok: bool): Reply
    requires '/' in url
  {
    if !cgi || (Page(url) != '2' && Page(url) != '3') then NotCgi
    else
      match ParseBody(body)
      case None => Stray
      case Some(f) =>
        if Page(url) == '2' then Url(if Accepts(s, f) then "/welcome.html" else "/logError.html")
        else if |f.name| + |f.password| + 50 > STATEMENT then Stray
        else Url(if f.name !in s.users && ok then "/log.html" else "/registerError.html")
  }

  function CgiState(s: Users, url: string, cgi: bool, body: string, ok: bool): Users
    requires '/' in url
  {
    if CgiReply(s, url, cgi, body, ok).Url? && Page(url) == '3' then Register(s, ParseBody(body).value, ok) else s
  }

  class Accounts {
    var users: map<string, string>
    var table: seq<Row>

    ghost function State(): Users
      reads this
    {
      Users(users, table)
    }

    /** initmysql_result. */
    method LoadTable()
      modifies this`users
      ensures users == old(users) + Load(table)
    {
      var k := 0;
      while k < |table|
        invariant k <= |table| && users == old(users) + Load(table[..k])
      {
        assert table[..k + 1] == table[..k] + [table[k]];
        LoadAppend(table[..k], table[k]);
        users := users[table[k].name := table[k].password];
        k := k + 1;
      }
      assert table[..k] == table;
    }

    /** The two copying loops of do_request. */
    method ExtractFields(body: string) returns (fields: Option<Fields>)
      ensures fields == ParseBody(body)
    {
      if |body| < 5 {
        return None;
      }
      var i := 5;
      var name := "";
      while i < |body| && body[i] != '&'
        invariant 5 <= i <= |body| && name == body[5..i]
        invariant FindFrom(body, "&", 5) == FindFrom(body, "&", i)
      {
        name := name + [body[i]];
        i := i + 1;
      }
      if |body| < i + 10 || i - 5 >= FIELD {
        return None;
      }
      name := CStringOf(name);
      i := i + 10;
      var password := CStringOf(body[i..]);
      if |password| >= FIELD {
        return None;
      }
      return Some(Fields(name, password));
    }

    /** Copying up to the NUL. */
    method CStringOf(s: string) returns (r: string)
      ensures r == Cut(s)
    {
      r := "";
      var j := 0;
      while j < |s| && s[j] != NUL
        invariant j <= |s| && r == s[..j]
        invariant FindFrom(s, "\0", 0) == FindFrom(s, "\0", j)
      {
        r := r + [s[j]];
        j := j + 1;
      }
    }

    method LastSlash(url: string) returns (p: nat)
      requires '/' in url
      ensures p == LastOf(url, '/')
    {
      p := |url| - 1;
      while url[p] != '/'
        invariant p < |url| && '/' in url[..p + 1] && '/' !in url[p + 1..]
        decreases p
      {
        assert url[..p + 1] == url[..p] + [url[p]];
        assert url[p..] == [url[p]] + url[p + 1..];
        p := p - 1;
      }
      LastIs(url, '/', p);
    }

    /** The CGI part of do_request; `ok` is what the INSERT would return. */
    method Cgi(url: string, cgi: bool, body: string, ok: bool) returns (reply: Reply)
      requires '/' in url
      modifies this
      ensures reply == CgiReply(old(State()), url, cgi, body, ok)
      ensures State() == CgiState(old(State()), url, cgi, body, ok)
    {
      var p := LastSlash(url);
      var c := if p + 1 < |url| then url[p + 1] else NUL;
      if !cgi || (c != '2' && c != '3') {
        return NotCgi;
      }
      var fields := ExtractFields(body);
      if fields == None {
        return Stray;
      }
      var name, password := fields.value.name, fields.value.password;
      if c == '3' {
        if |name| + |password| + 50 > STATEMENT {
          return Stray;
        }
        if name !in users {
          if ok {
            table := table + [Row(name, password)];
          }
          users := users[name := password];
          if ok {
            return Url("/log.html");
          }
          return Url("/registerError.html");
        }
        return Url("/registerError.html");
      }
      if name in users && users[name] == password {
        return Url("/welcome.html");
      }
      return Url("/logError.html");
    }

    /** The CGI part on the connection itself: the URL and the body lie in the read buffer,
        and the page is written over the URL. */
    method CgiInPlace(conn: HttpConn, n: nat, ok: bool) returns (reply: Reply)
      requires conn.url.Some? && conn.url.value <= conn.readBuf.Length && '/' in conn.At(conn.url.value)
      requires conn.content.Some? && conn.content.value + n <= conn.readBuf.Length
      requires conn.url.value + LONGEST_PAGE < conn.readBuf.Length
      modifies this, conn.readBuf
      ensures var s, url, body := old(State()), old(conn.At(conn.url.value)),
                old(conn.readBuf[conn.content.value..conn.content.value + n]);
        && reply == CgiReply(s, url, conn.cgi, body, ok)
        && State() == CgiState(s, url, conn.cgi, body, ok)
        && conn.Text(conn.url) == Some(if reply.Url? then reply.page else url)
      ensures conn.Untouched(0, conn.url.value)
      ensures if reply.Url? then conn.Untouched(conn.url.value + |reply.page| + 1, conn.readBuf.Length)
              else conn.Untouched(0, conn.readBuf.Length)
    {
      hide CgiReply, CgiState, Page, Register;
      var url := conn.At(conn.url.value);
      var body := conn.readBuf[conn.content.value..conn.content.value + n];
      conn.UrlText();
      PageFits(State(), url, conn.cgi, body, ok);
      reply := Cgi(url, conn.cgi, body, ok);
      if reply.Url? {
        conn.SetUrl(reply.page);
      }
    }
  }

  /** The length of "/registerError.html". */
  const LONGEST_PAGE := 19

  predicate Fits(page: string) {
    |page| <= LONGEST_PAGE && NUL !in page
  }

  lemma {:induction false} PagesFit()
    ensures Fits("/welcome.html") && Fits("/logError.html") && Fits("/log.html") && Fits("/registerError.html")
  {
  }

  lemma {:induction false} PageFits(s: Users, url: string, cgi: bool, body: string, ok: bool)
    requires '/' in url
    ensures var r := CgiReply(s, url, cgi, body, ok); r.Url? ==> Fits(r.page)
  {
    hide ParseBody, Page, LastOf, Accepts, Fits;
    PagesFit();
  }

  // ---- what the two forms get ----

  /** The statement of a registration. */
  function Statement(f: Fields): string {
    "INSERT INTO user(username, passwd) VALUES(" + "'" + f.name + "', '" + f.password + "')"
  }

  lemma {:induction false} StatementLength(f: Fields)
    ensures |Statement(f)| + 1 <= 200 <==> |f.name| + |f.password| + 50 <= STATEMENT
  {
  }

  lemma {:induction false} PageIs(dir: string, file: string)
    requires '/' !in file
    ensures '/' in dir + "/" + file
    ensures Page(dir + "/" + file) == if file == "" then NUL else file[0]
  {
    var url := dir + "/" + file;
    assert url[|dir|] == '/' && url[|dir| + 1..] == file;
    LastIs(url, '/', |dir|);
  }

  /** A request that is not a POST, or is for any page whose name does not begin with 2 or 3,
      is none of this code's business. */
  lemma {:induction false} OtherPages(s: Users, dir: string, file: string, cgi: bool, body: string, ok: bool)
    requires '/' !in file && (!cgi || file == "" || (file[0] != '2' && file[0] != '3'))
    ensures '/' in dir + "/" + file
    ensures CgiReply(s, dir + "/" + file, cgi, body, ok) == NotCgi
    ensures CgiState(s, dir + "/" + file, cgi, body, ok) == s
  {
    hide Page, LastOf, ParseBody, Register;
    PageIs(dir, file);
  }

  /** A login gets the welcome page if and only if the map holds the name with this
      password, and changes nothing. */
  lemma {:induction false} LoginReply(s: Users, dir: string, file: string, f: Fields, ok: bool)
    requires '/' !in file && file != "" && file[0] == '2' && Sendable(f)
    ensures '/' in dir + "/" + file
    ensures CgiReply(s, dir + "/" + file, true, Body(f), ok) ==
            Url(if f.name in s.users && s.users[f.name] == f.password then "/welcome.html" else "/logError.html")
    ensures CgiState(s, dir + "/" + file, true, Body(f), ok) == s
  {
    hide Page, LastOf, ParseBody, Register, Body;
    PageIs(dir, file);
    FormRoundTrip(f);
  }

  /** A registration succeeds if and only if the name is new and the INSERT does; only a
      new name changes the map, and only a successful INSERT the table. */
  lemma {:induction false} RegistrationReply(s: Users, dir: string, file: string, f: Fields, ok: bool)
    requires '/' !in file && file != "" && file[0] == '3' && Sendable(f) && |Statement(f)| + 1 <= 200
    ensures '/' in dir + "/" + file
    ensures CgiReply(s, dir + "/" + file, true, Body(f), ok) ==
            Url(if f.name !in s.users && ok then "/log.html" else "/registerError.html")
    ensures var t := CgiState(s, dir + "/" + file, true, Body(f), ok);
      && t.users == (if f.name in s.users then s.users else s.users[f.name := f.password])
      && t.table == (if f.name !in s.users && ok then s.table + [Row(f.name, f.password)] else s.table)
  {
    hide Page, LastOf, ParseBody, Body, Statement;
    PageIs(dir, file);
    FormRoundTrip(f);
    StatementLength(f);
  }

  /** A body that is no form, or a statement that does not fit its buffer, leads astray. */
  lemma {:induction false} StrayReply(s: Users, dir: string, file: string, body: string, ok: bool)
    requires '/' !in file && file != "" && (file[0] == '2' || file[0] == '3')
    requires ParseBody(body) == None || (file[0] == '3' && |Statement(ParseBody(body).value)| + 1 > 200)
    ensures '/' in dir + "/" + file
    ensures CgiReply(s, dir + "/" + file, true, body, ok) == Stray
    ensures CgiState(s, dir + "/" + file, true, body, ok) == s
  {
    hide Page, LastOf, ParseBody, Statement, Register;
    PageIs(dir, file);
    if ParseBody(body).Some? {
      StatementLength(ParseBody(body).value);
    }
  }

  /** Registering a new name with a form, and whatever registrations follow: a login form
      gets the welcome page if and only if it repeats the password. */
  lemma {:induction false} RegisterThenLogin(
    s: Users, register: string, login: string, f: Fields, ok: bool, run: seq<Attempt>, password: string)
    requires '/' in register && Page(register) == '3' && '/' in login && Page(login) == '2'
    requires Sendable(f) && |f.name| + |f.password| + 50 <= STATEMENT && f.name !in s.users
    requires Sendable(Fields(f.name, password))
    ensures CgiReply(s, register, true, Body(f), ok) == Url(if ok then "/log.html" else "/registerError.html")
    ensures var s' := RegisterAll(CgiState(s, register, true, Body(f), ok), run);
      CgiReply(s', login, true, Body(Fields(f.name, password)), false) ==
      Url(if password == f.password then "/welcome.html" else "/logError.html")
  {
    FormRoundTrip(f);
    FormRoundTrip(Fields(f.name, password));
    hide ParseBody, Body, Page, RegisterAll;
    PasswordsStay(Register(s, f, ok), run, f.name);
  }
}
