/** What registrations do to the users map and to the table behind it: one at a time, and
    interleaved, as the name is checked outside the lock. */
module UsersRuns {
  import opened Wrappers
  import opened UsersSpec

  datatype Users = Users(users: map<string, string>, table: seq<Row>)

  /** What happens under the lock: the INSERT, which may fail, and map::insert, which does
      not replace an entry. */
  function Commit(s: Users, f: Fields, ok: bool): Users {
    Users(if f.name in s.users then s.users else s.users[f.name := f.password],
          if ok then s.table + [Row(f.name, f.password)] else s.table)
  }

  /** A registration that nobody interrupts. */
  function Register(s: Users, f: Fields, ok: bool): Users {
    if f.name in s.users then s else Commit(s, f, ok)
  }

  predicate Accepts(s: Users, f: Fields) {
    f.name in s.users && s.users[f.name] == f.password
  }

  /** The map is what a restart would load. */
  predicate Agrees(s: Users) {
    s.users == Load(s.table)
  }

  // ---- one step ----

  /** Whether a commit keeps the two in step. */
  predicate InStep(s: Users, f: Fields, ok: bool) {
    if f.name in s.users then ok ==> s.users[f.name] == f.password else ok
  }

  lemma {:induction false} CommitExact(s: Users, f: Fields, ok: bool)
    requires Agrees(s)
    ensures Agrees(Commit(s, f, ok)) <==> InStep(s, f, ok)
  {
    LoadAppend(s.table, Row(f.name, f.password));
    hide Load;
    var s' := Commit(s, f, ok);
    if f.name in s.users && ok {
      assert Load(s'.table)[f.name] == f.password;
    } else if f.name !in s.users {
      assert f.name in s'.users;
    }
  }

  // ---- registrations one at a time ----

  datatype Attempt = Attempt(fields: Fields, ok: bool)

  function RegisterAll(s: Users, run: seq<Attempt>): Users
    decreases |run|
  {
    if run == [] then s else RegisterAll(Register(s, run[0].fields, run[0].ok), run[1..])
  }

  /** Some registration of a new name had its INSERT fail. */
  predicate Failed(s: Users, run: seq<Attempt>)
    decreases |run|
  {
    run != [] &&
    ((run[0].fields.name !in s.users && !run[0].ok) || Failed(Register(s, run[0].fields, run[0].ok), run[1..]))
  }

  /** A name that is in the map and not in the table keeps later registrations of it out. */
  lemma {:induction false} StaysMissing(s: Users, run: seq<Attempt>, name: string)
    requires name in s.users && name !in Load(s.table)
    ensures var s' := RegisterAll(s, run); name in s'.users && name !in Load(s'.table)
    decreases |run|
  {
    if run != [] {
      LoadAppend(s.table, Row(run[0].fields.name, run[0].fields.password));
      hide Load;
      StaysMissing(Register(s, run[0].fields, run[0].ok), run[1..], name);
    }
  }

  /** After any run of registrations the map is what a restart would load, if and only if
      no INSERT of a new name failed: a failed one leaves its name in the map for good. */
  lemma {:induction false} CacheExact(s: Users, run: seq<Attempt>)
    requires Agrees(s)
    ensures Agrees(RegisterAll(s, run)) <==> !Failed(s, run)
    decreases |run|
  {
    if run != [] {
      var f, ok := run[0].fields, run[0].ok;
      CommitExact(s, f, ok);
      hide Load;
      if f.name !in s.users && !ok {
        StaysMissing(Register(s, f, ok), run[1..], f.name);
        assert !Agrees(RegisterAll(s, run));
      } else {
        CacheExact(Register(s, f, ok), run[1..]);
      }
    }
  }

  /** Entries of the map never change and never go. */
  lemma {:induction false} PasswordsStay(s: Users, run: seq<Attempt>, name: string)
    requires name in s.users
    ensures name in RegisterAll(s, run).users && RegisterAll(s, run).users[name] == s.users[name]
    decreases |run|
  {
    if run != [] {
      PasswordsStay(Register(s, run[0].fields, run[0].ok), run[1..], name);
    }
  }

  /** From the map loaded at the start, after any run of registrations whose INSERTs of new
      names succeed: a login form is accepted if and only if the last row of the table for
      its name has its password. */
  lemma {:induction false} LoginExact(table: seq<Row>, run: seq<Attempt>, f: Fields)
    requires Sendable(f) && !Failed(Users(Load(table), table), run)
    ensures ParseBody(Body(f)) == Some(f)
    ensures var s := RegisterAll(Users(Load(table), table), run);
      Accepts(s, f) <==> LastRow(s.table, f.name, f.password)
  {
    FormRoundTrip(f);
    CacheExact(Users(Load(table), table), run);
    LoadIsLastRow(RegisterAll(Users(Load(table), table), run).table, f.name, f.password);
  }

  // ---- interleaved registrations ----

  /** `Passed` is a thread that has found the name free and waits for the lock. */
  datatype Pc = Idle | Passed(fields: Fields)

  datatype Shared = Shared(state: Users, threads: seq<Pc>)

  datatype Step = Check(i: nat, fields: Fields) | Enter(i: nat, ok: bool)

  predicate Enabled(s: Shared, step: Step) {
    step.i < |s.threads| && (step.Check? <==> s.threads[step.i].Idle?)
  }

  function Next(s: Shared, step: Step): Shared
    requires Enabled(s, step)
  {
    match step
    case Check(i, f) => if f.name in s.state.users then s else s.(threads := s.threads[i := Passed(f)])
    case Enter(i, ok) => Shared(Commit(s.state, s.threads[i].fields, ok), s.threads[i := Idle])
  }

  predicate Possible(s: Shared, run: seq<Step>)
    decreases |run|
  {
    run == [] || (Enabled(s, run[0]) && Possible(Next(s, run[0]), run[1..]))
  }

  function After(s: Shared, run: seq<Step>): Shared
    requires Possible(s, run)
    decreases |run|
  {
    if run == [] then s else After(Next(s, run[0]), run[1..])
  }

  /** A registration that nobody interrupts is one check, and for a new name one commit: the
      thread is idle again, and the state is that of Register. */
  lemma {:induction false} RegisterAlone(s: Shared, i: nat, f: Fields, ok: bool)
    requires i < |s.threads| && s.threads[i].Idle?
    ensures var run := if f.name in s.state.users then [Check(i, f)] else [Check(i, f), Enter(i, ok)];
      Possible(s, run) && After(s, run) == Shared(Register(s.state, f, ok), s.threads)
  {
    var taken := f.name in s.state.users;
    var run := if taken then [Check(i, f)] else [Check(i, f), Enter(i, ok)];
    var t := Next(s, run[0]);
    hide Commit;
    if taken {
      assert run[1..] == [];
    } else {
      var end := Next(t, Enter(i, ok));
      assert end.threads == s.threads;
      assert After(t, [Enter(i, ok)]) == After(end, []) == end;
      assert run[1..] == [Enter(i, ok)];
    }
  }

  /** Each commit of the run is in step when it is made. */
  predicate AllInStep(s: Shared, run: seq<Step>)
    requires Possible(s, run)
    decreases |run|
  {
    run == [] ||
    ((run[0].Enter? ==> InStep(s.state, s.threads[run[0].i].fields, run[0].ok)) && AllInStep(Next(s, run[0]), run[1..]))
  }

  predicate AgreesThroughout(s: Shared, run: seq<Step>)
    requires Possible(s, run)
    decreases |run|
  {
    Agrees(s.state) && (run == [] || AgreesThroughout(Next(s, run[0]), run[1..]))
  }

  /** In every interleaving, map and table agree at every moment if and only if each commit
      inserts a new name successfully, or finds the name taken meanwhile and its INSERT
      fails or repeats the password. */
  lemma {:induction false} InterleavedExact(s: Shared, run: seq<Step>)
    requires Agrees(s.state) && Possible(s, run)
    ensures AgreesThroughout(s, run) <==> AllInStep(s, run)
    decreases |run|
  {
    if run != [] {
      var s' := Next(s, run[0]);
      if run[0].Enter? {
        CommitExact(s.state, s.threads[run[0].i].fields, run[0].ok);
      }
      hide Agrees, InStep, Commit;
      if Agrees(s'.state) {
        InterleavedExact(s', run[1..]);
      } else {
        NotThroughout(s', run[1..]);
      }
    }
  }

  lemma {:induction false} NotThroughout(s: Shared, run: seq<Step>)
    requires Possible(s, run) && !Agrees(s.state)
    ensures !AgreesThroughout(s, run)
  {
  }

  // ---- where an interleaved run ends ----

  /** The commits of a run, in the order in which they got the lock. */
  function Commits(s: Shared, run: seq<Step>): seq<Attempt>
    requires Possible(s, run)
    decreases |run|
  {
    if run == [] then []
    else (if run[0].Enter? then [Attempt(s.threads[run[0].i].fields, run[0].ok)] else [])
         + Commits(Next(s, run[0]), run[1..])
  }

  /** The password of the first commit of a name. */
  function First(commits: seq<Attempt>, name: string): Option<string> {
    if commits == [] then None
    else if commits[0].fields.name == name then Some(commits[0].fields.password)
    else First(commits[1..], name)
  }

  /** The password of the last successful INSERT of a name. */
  function LastInsert(commits: seq<Attempt>, name: string): Option<string> {
    if commits == [] then None
    else
      var later := LastInsert(commits[1..], name);
      if later.Some? then later
      else if commits[0].fields.name == name && commits[0].ok then Some(commits[0].fields.password)
      else None
  }

  function Entry(users: map<string, string>, name: string): Option<string> {
    if name in users then Some(users[name]) else None
  }

  function Or(a: Option<string>, b: Option<string>): Option<string> {
    if a.Some? then a else b
  }

  /** The map has the old password of a name, or that of its first commit; the table has
      that of its last successful INSERT, or the old one. */
  lemma {:induction false} RunEnds(s: Shared, run: seq<Step>, name: string)
    requires Possible(s, run)
    ensures var s', cs := After(s, run).state, Commits(s, run);
      && Entry(s'.users, name) == Or(Entry(s.state.users, name), First(cs, name))
      && Entry(Load(s'.table), name) == Or(LastInsert(cs, name), Entry(Load(s.state.table), name))
    decreases |run|
  {
    hide Load;
    if run != [] {
      RunEnds(Next(s, run[0]), run[1..], name);
      var rest := Commits(Next(s, run[0]), run[1..]);
      if run[0].Enter? {
        var f, ok := s.threads[run[0].i].fields, run[0].ok;
        LoadAppend(s.state.table, Row(f.name, f.password));
        var cs := Commits(s, run);
        assert cs == [Attempt(f, ok)] + rest;
        assert cs[0] == Attempt(f, ok) && cs[1..] == rest;
      } else {
        assert Commits(s, run) == rest;
      }
    }
  }

  /** The commits leave map and table with one password for this name: the last successful
      INSERT has the password the map had before or got with the first commit, and if there
      is none, the name was there before or was not committed. */
  predicate SamePassword(s: Shared, commits: seq<Attempt>, name: string) {
    match LastInsert(commits, name)
    case Some(password) => Or(Entry(s.state.users, name), First(commits, name)) == Some(password)
    case None => name in s.state.users || First(commits, name) == None
  }

  /** After an interleaved run map and table agree if and only if for each name the last
      successful INSERT carries the password of the entry, that is of the first commit when
      the name is new. */
  lemma {:induction false} InterleavedEndExact(s: Shared, run: seq<Step>)
    requires Agrees(s.state) && Possible(s, run)
    ensures Agrees(After(s, run).state) <==> forall name :: SamePassword(s, Commits(s, run), name)
  {
    var s', cs := After(s, run).state, Commits(s, run);
    EntriesDecide(s'.users, Load(s'.table));
    if Agrees(s') {
      forall name ensures SamePassword(s, cs, name) {
        NameDecided(s, run, name);
      }
    } else {
      var name :| Entry(s'.users, name) != Entry(Load(s'.table), name);
      NameDecided(s, run, name);
    }
  }

  lemma {:induction false} NameDecided(s: Shared, run: seq<Step>, name: string)
    requires Agrees(s.state) && Possible(s, run)
    ensures var s' := After(s, run).state;
      Entry(s'.users, name) == Entry(Load(s'.table), name) <==> SamePassword(s, Commits(s, run), name)
  {
    RunEnds(s, run, name);
    hide Load, Commits, After, Possible, First, LastInsert;
  }

  lemma {:induction false} EntriesDecide(a: map<string, string>, b: map<string, string>)
    ensures a == b <==> forall name :: Entry(a, name) == Entry(b, name)
  {
    if forall name :: Entry(a, name) == Entry(b, name) {
      forall name ensures name in a <==> name in b {
        assert Entry(a, name) == Entry(b, name);
      }
      forall name | name in a ensures a[name] == b[name] {
        assert Entry(a, name) == Entry(b, name);
      }
    }
  }

  /** In every interleaving, no password that is in the map changes. */
  lemma {:induction false} InterleavedPasswordsStay(s: Shared, run: seq<Step>, name: string)
    requires Possible(s, run) && name in s.state.users
    ensures var s' := After(s, run).state; name in s'.users && s'.users[name] == s.state.users[name]
    decreases |run|
  {
    if run != [] {
      InterleavedPasswordsStay(Next(s, run[0]), run[1..], name);
    }
  }

  /** Two clients register one name at once and both INSERTs succeed: the map has the first
      password, and a restart would load the second. */
  lemma {:induction false} RaceForAName()
    ensures var f, g := Fields("a", "1"), Fields("a", "2");
      var s := Shared(Users(map[], []), [Idle, Idle]);
      var run := [Check(0, f), Check(1, g), Enter(0, true), Enter(1, true)];
      && Possible(s, run)
      && After(s, run).state.users == map["a" := "1"]
      && Load(After(s, run).state.table) == map["a" := "2"]
  {
    var f, g := Fields("a", "1"), Fields("a", "2");
    var s := Shared(Users(map[], []), [Idle, Idle]);
    var s1 := Next(s, Check(0, f));
    var s2 := Next(s1, Check(1, g));
    var s3 := Next(s2, Enter(0, true));
    var s4 := Next(s3, Enter(1, true));
    OneStep(s3, Enter(1, true), []);
    OneStep(s2, Enter(0, true), [Enter(1, true)]);
    OneStep(s1, Check(1, g), [Enter(0, true), Enter(1, true)]);
    OneStep(s, Check(0, f), [Check(1, g), Enter(0, true), Enter(1, true)]);
    LoadAppend([], Row("a", "1"));
    LoadAppend([Row("a", "1")], Row("a", "2"));
    assert s4.state.table == [Row("a", "1")] + [Row("a", "2")];
  }

  lemma {:induction false} OneStep(s: Shared, step: Step, rest: seq<Step>)
    requires Enabled(s, step) && Possible(Next(s, step), rest)
    ensures Possible(s, [step] + rest)
    ensures After(s, [step] + rest) == After(Next(s, step), rest)
  {
    assert ([step] + rest)[1..] == rest;
  }
}
