/** The request lines that parse_request_line accepts. */
module RequestGrammar {
  import opened Wrappers
  import opened CStrings
  import opened RequestParser

  // ---- the request line (section 3.1.1 of RFC 7230, and what the code adds to it) ----

  datatype Line = Line(
    verb: string, gap: char, tabs: string, target: string, gap2: char, blanks: string, version: string)
  {
    function Text(): string {
      verb + [gap] + tabs + target + [gap2] + blanks + version
    }

    /** GET or POST, one blank and any tabs, a target without blanks that is a path or an
        absolute URI with a path, one or more blanks, HTTP/1.1. */
    predicate Valid() {
      && (EqualsNoCase(verb, "GET") || EqualsNoCase(verb, "POST"))
      && gap in " \t" && (forall c :: c in tabs ==> c == '\t')
      && NoBlank(target) && IsPath(StripScheme(target))
      && gap2 in " \t" && (forall c :: c in blanks ==> c in " \t")
      && EqualsNoCase(version, "HTTP/1.1")
    }
  }

  predicate NoBlank(s: string) {
    forall c :: c in s ==> c !in " \t"
  }

  predicate IsPath(path: Option<string>) {
    path.Some? && path.value != "" && path.value[0] == '/'
  }

  /** What a valid line says. */
  function Meaning(req: Request, l: Line): Request
    requires l.Valid()
  {
    var path := StripScheme(l.target).value;
    var url := Some(if path == "/" then "/judge.html" else path);
    if EqualsNoCase(l.verb, "GET") then req.(verb := GET, url := url)
    else req.(verb := POST, cgi := true, url := url)
  }

  /** What an absolute-form target is cut down to: the path behind scheme and host, in
      whatever case the scheme is written; nothing when there is no path. */
  lemma {:induction false} SchemeIsStripped(scheme: string, host: string, path: string)
    requires EqualsNoCase(scheme, "http://") && '/' !in host && (path != "" ==> path[0] == '/')
    ensures StripScheme(scheme + host + path) == if path == "" then None else Some(path)
  {
    hide EqualsNoCase, Find;
    var target := scheme + host + path;
    SchemeLength(scheme);
    assert target[..7] == scheme;
    assert target[7..] == host + path;
    assert forall c :: c in host ==> c !in "/";
    FindFront(host, path, "/");
    assert target[7 + |host|..] == path;
  }

  lemma {:induction false} SchemeLength(scheme: string)
    requires EqualsNoCase(scheme, "http://")
    ensures |scheme| == 7
  {
  }

  /** Any other target stays as it is. */
  lemma {:induction false} NoScheme(target: string)
    requires |target| < 7 || exists i :: 0 <= i < 7 && !SameLetter(target[i], "http://"[i])
    ensures StripScheme(target) == Some(target)
  {
    PrefixIgnoringCase(target, "http://");
    hide HasPrefixNoCase, Find;
  }

  lemma {:induction false} VerbHasNoBlank(verb: string)
    requires EqualsNoCase(verb, "GET") || EqualsNoCase(verb, "POST")
    ensures NoBlank(verb)
  {
    forall c | c in verb ensures c !in BLANKS {
      var i :| 0 <= i < |verb| && verb[i] == c;
      if EqualsNoCase(verb, "GET") {
        assert ToLower(c) == ToLower("GET"[i]);
      } else {
        assert ToLower(c) == ToLower("POST"[i]);
      }
    }
  }

  /** The part behind the verb. */
  lemma {:induction false} TargetParts(tabs: string, target: string, gap2: char, blanks: string, version: string)
    requires (forall c :: c in tabs ==> c == '\t') && NoBlank(target) && target != ""
    requires gap2 in BLANKS && (forall c :: c in blanks ==> c in BLANKS) && EqualsNoCase(version, "HTTP/1.1")
    ensures ParseTarget(tabs + target + [gap2] + blanks + version) == ParsePath(StripScheme(target))
  {
    hide EqualsNoCase, ParsePath, StripScheme, Find, Span;
    var tail := blanks + version;
    var t := target + ([gap2] + tail);
    var rest := tabs + t;
    assert tabs + target + [gap2] + blanks + version == rest;
    assert t[0] in target;
    SpanFront(tabs, t, "\t");
    FindFront(target, [gap2] + tail, BLANKS);
    VersionFront(version);
    SpanFront(blanks, version, BLANKS);
    assert rest[|tabs|..] == t && t[..|target|] == target;
    assert t[|target| + 1..] == tail && tail[|blanks|..] == version;
    ParseTargetIs(rest, t, |target|);
  }

  lemma {:induction false} VersionFront(version: string)
    requires EqualsNoCase(version, "HTTP/1.1")
    ensures |version| == 8 && version[0] !in BLANKS
  {
    assert ToLower(version[0]) == ToLower("HTTP/1.1"[0]);
  }

  /** Every valid line is accepted and understood. */
  lemma {:induction false} ValidIsAccepted(req: Request, l: Line)
    requires l.Valid()
    ensures ParseRequestLine(req, l.Text()) == (true, Meaning(req, l))
  {
    hide EqualsNoCase, ParseTarget, Find, Span, HasPrefixNoCase;
    var line := l.Text();
    var rest := l.tabs + l.target + [l.gap2] + l.blanks + l.version;
    VerbHasNoBlank(l.verb);
    assert line == l.verb + ([l.gap] + rest);
    FindFront(l.verb, [l.gap] + rest, BLANKS);
    assert line[..|l.verb|] == l.verb && line[|l.verb| + 1..] == rest;
    TargetIsNotEmpty(l.target);
    TargetParts(l.tabs, l.target, l.gap2, l.blanks, l.version);
    ParseRequestLineIs(req, line, |l.verb|);
  }

  lemma {:induction false} TargetIsNotEmpty(target: string)
    requires IsPath(StripScheme(target))
    ensures target != ""
  {
  }

  /** Only valid lines are accepted. */
  lemma {:induction false} AcceptedIsValid(req: Request, line: string) returns (l: Line)
    requires ParseRequestLine(req, line).0
    ensures l.Valid() && l.Text() == line
  {
    hide ParseTarget, ParseRequestLine, EqualsNoCase, StripScheme;
    var u := Find(line, BLANKS);
    ParseRequestLineIs(req, line, u);
    var tabs, target, gap2, blanks, version := AcceptedTarget(line[u + 1..]);
    l := Line(line[..u], line[u], tabs, target, gap2, blanks, version);
    Joined(line, u, tabs, target, gap2, blanks, version);
  }

  lemma {:induction false} Joined(
    line: string, u: nat, tabs: string, target: string, gap2: char, blanks: string, version: string)
    requires u < |line| && line[u + 1..] == tabs + target + [gap2] + blanks + version
    ensures Line(line[..u], line[u], tabs, target, gap2, blanks, version).Text() == line
  {
    assert line == line[..u] + [line[u]] + line[u + 1..];
  }

  lemma {:induction false} AcceptedTarget(rest: string)
    returns (tabs: string, target: string, gap2: char, blanks: string, version: string)
    requires ParseTarget(rest).0
    ensures (forall c :: c in tabs ==> c == '\t') && NoBlank(target) && IsPath(StripScheme(target))
    ensures gap2 in BLANKS && (forall c :: c in blanks ==> c in BLANKS) && EqualsNoCase(version, "HTTP/1.1")
    ensures tabs + target + [gap2] + blanks + version == rest
  {
    hide EqualsNoCase, StripScheme, ParseTarget, Find, Span;
    var k := Span(rest, "\t");
    var t := rest[k..];
    var v := Find(t, BLANKS);
    ParseTargetIs(rest, t, v);
    var tail := t[v + 1..];
    var b := Span(tail, BLANKS);
    tabs, target, gap2, blanks, version := rest[..k], t[..v], t[v], tail[..b], tail[b..];
    FrontParts(rest, "\t");
    FrontParts(t, BLANKS);
    FrontParts(tail, BLANKS);
    Joined3(rest, k, v, b);
  }

  lemma {:induction false} Joined3(rest: string, k: nat, v: nat, b: nat)
    requires k + v + 1 + b <= |rest|
    ensures var t := rest[k..]; var tail := t[v + 1..];
      rest[..k] + t[..v] + [t[v]] + tail[..b] + tail[b..] == rest
  {
    var t := rest[k..];
    var tail := t[v + 1..];
    assert tail[..b] + tail[b..] == tail;
    assert t[..v] + [t[v]] + tail == t;
    assert rest[..k] + t == rest;
    assert rest[..k] + t[..v] + [t[v]] + tail[..b] + tail[b..] ==
           rest[..k] + (t[..v] + [t[v]] + (tail[..b] + tail[b..]));
  }
}
