/** `bit/git.py`: the working-tree lookup and the parser for the lines that
    `git remote --verbose` prints. Running git itself is outside the model:
    its output arrives as a list of lines. */
module Git {
  import opened Wrappers
  import opened Text

  /** One remote as reported by git: its name, its URL and the direction
      (`fetch` or `push`) in parentheses. */
  datatype Remote = Remote(name: string, url: string, urlType: string)

  /** `work_tree`: the `GIT_WORK_TREE` environment variable when it is
      set, otherwise the current directory; both are passed in. */
  function WorkTree(env: map<string, string>, cwd: string): (path: string)
    ensures "GIT_WORK_TREE" in env ==> path == env["GIT_WORK_TREE"]
    ensures "GIT_WORK_TREE" !in env ==> path == cwd
  {
    if "GIT_WORK_TREE" in env then env["GIT_WORK_TREE"] else cwd
  }

  /** The shape every parsed remote has: what the three groups of
      `(\w+)\s+([^\s]+)\s+\((\w+)\)` can capture. */
  predicate WellFormed(r: Remote) {
    |r.name| > 0 && All(r.name, Word)
    && |r.url| > 0 && All(r.url, NonSpace)
    && |r.urlType| > 0 && All(r.urlType, Word)
  }

  /** A non-empty whitespace separator, what `\s+` matches. */
  predicate IsSeparator(s: string) {
    |s| > 0 && All(s, Space)
  }

  /** The text a line must start with to match as remote `r`; `rest` is
      whatever follows the closing parenthesis. */
  function RemoteLine(r: Remote, sep1: string, sep2: string, rest: string): string {
    r.name + (sep1 + (r.url + (sep2 + ("(" + (r.urlType + (")" + rest))))))
  }

  /** The declarative meaning of `re.match` with the remote pattern: the line
      starts with a well-formed remote laid out as the pattern requires. */
  ghost predicate MatchesAs(line: string, r: Remote) {
    WellFormed(r)
    && exists sep1, sep2, rest :: IsSeparator(sep1) && IsSeparator(sep2)
         && line == RemoteLine(r, sep1, sep2, rest)
  }

  /** What a successful `re.match` yields: the text of each group and of
      the separators between them, and the unmatched rest of the line. */
  datatype RemoteMatch = RemoteMatch(remote: Remote, sep1: string, sep2: string, rest: string)

  /** The end of the pattern, `\((\w+)\)`, matched at the start of `s`:
      the direction and the text after the closing parenthesis. */
  function MatchDirection(s: string): (m: Option<(string, string)>)
    ensures m.Some? ==> |m.value.0| > 0 && All(m.value.0, Word)
    ensures m.Some? ==> s == "(" + (m.value.0 + (")" + m.value.1))
  {
    if s == [] || s[0] != '(' then None
    else
      match Plus(s[1..], Word)
      case None => None
      case Some((urlType, closing)) =>
        if closing == [] || closing[0] != ')' then None
        else
          Uncons(s);
          Uncons(closing);
          Some((urlType, closing[1..]))
  }

  /** `\s+\((\w+)\)` at the start of `s`: the separator, the direction and
      the text after the closing parenthesis. */
  function MatchAfterUrl(s: string): (m: Option<(string, string, string)>)
    ensures m.Some? ==> IsSeparator(m.value.0) && |m.value.1| > 0 && All(m.value.1, Word)
    ensures m.Some? ==> s == m.value.0 + ("(" + (m.value.1 + (")" + m.value.2)))
  {
    match Plus(s, Space)
    case None => None
    case Some((sep2, atType)) =>
      match MatchDirection(atType)
      case None => None
      case Some((urlType, rest)) => Some((sep2, urlType, rest))
  }

  /** The part of the pattern after the name, `\s+([^\s]+)\s+\((\w+)\)`,
      matched at the start of `s`; the name of the result is left empty. */
  function MatchAfterName(s: string): (m: Option<RemoteMatch>)
    ensures m.Some? ==> IsSeparator(m.value.sep1) && IsSeparator(m.value.sep2)
    ensures m.Some? ==> |m.value.remote.url| > 0 && All(m.value.remote.url, NonSpace)
    ensures m.Some? ==> |m.value.remote.urlType| > 0 && All(m.value.remote.urlType, Word)
    ensures m.Some? ==> s == RemoteLine(m.value.remote, m.value.sep1, m.value.sep2, m.value.rest)
  {
    match Plus(s, Space)
    case None => None
    case Some((sep1, atUrl)) =>
      match Plus(atUrl, NonSpace)
      case None => None
      case Some((url, afterUrl)) =>
        match MatchAfterUrl(afterUrl)
        case None => None
        case Some((sep2, urlType, rest)) => Some(RemoteMatch(Remote("", url, urlType), sep1, sep2, rest))
  }

  /** `re.match` of the remote pattern `(\w+)\s+([^\s]+)\s+\((\w+)\)`.
      Each greedy run can only end where its class ends (the next element
      of the pattern needs a character outside that class), so backtracking
      never moves the end of a run and the match is found by taking the
      maximal runs one after the other. */
  function MatchRemote(line: string): (m: Option<RemoteMatch>)
    ensures m.Some? ==> WellFormed(m.value.remote)
    ensures m.Some? ==> IsSeparator(m.value.sep1) && IsSeparator(m.value.sep2)
    ensures m.Some? ==> line == RemoteLine(m.value.remote, m.value.sep1, m.value.sep2, m.value.rest)
  {
    match Plus(line, Word)
    case None => None
    case Some((name, afterName)) =>
      match MatchAfterName(afterName)
      case None => None
      case Some(m) => Some(m.(remote := m.remote.(name := name)))
  }

  /** `_parse_remote`: the three groups of the match, or `None`. */
  function ParseRemote(line: string): (r: Option<Remote>)
    ensures r.Some? ==> WellFormed(r.value) && MatchesAs(line, r.value)
  {
    match MatchRemote(line)
    case None => None
    case Some(m) =>
      assert IsSeparator(m.sep1) && IsSeparator(m.sep2) && line == RemoteLine(m.remote, m.sep1, m.sep2, m.rest);
      Some(m.remote)
  }

  lemma MatchDirectionOf(urlType: string, rest: string)
    requires |urlType| > 0 && All(urlType, Word)
    ensures MatchDirection("(" + (urlType + (")" + rest))) == Some((urlType, rest))
  {
    var s := "(" + (urlType + (")" + rest));
    assert s[1..] == urlType + (")" + rest);
    PlusOfRun(urlType, ")" + rest, Word);
  }

  lemma MatchAfterNameOf(r: Remote, sep1: string, sep2: string, rest: string)
    requires WellFormed(r) && IsSeparator(sep1) && IsSeparator(sep2)
    ensures MatchAfterName(sep1 + (r.url + (sep2 + ("(" + (r.urlType + (")" + rest))))))
         == Some(RemoteMatch(Remote("", r.url, r.urlType), sep1, sep2, rest))
  {
    var atType := "(" + (r.urlType + (")" + rest));
    PlusOfRun(sep1, r.url + (sep2 + atType), Space);
    PlusOfRun(r.url, sep2 + atType, NonSpace);
    PlusOfRun(sep2, atType, Space);
    MatchDirectionOf(r.urlType, rest);
    assert MatchAfterUrl(sep2 + atType) == Some((sep2, r.urlType, rest));
  }

  /** Completeness: a line laid out as the pattern requires parses to exactly
      its remote, whatever follows the closing parenthesis. */
  lemma ParseRemoteLine(r: Remote, sep1: string, sep2: string, rest: string)
    requires WellFormed(r) && IsSeparator(sep1) && IsSeparator(sep2)
    ensures ParseRemote(RemoteLine(r, sep1, sep2, rest)) == Some(r)
  {
    var afterName := sep1 + (r.url + (sep2 + ("(" + (r.urlType + (")" + rest)))));
    PlusOfRun(r.name, afterName, Word);
    MatchAfterNameOf(r, sep1, sep2, rest);
  }

  /** The parser and the pattern agree on every line and every remote. */
  lemma ParseRemoteMeaning(line: string, r: Remote)
    ensures ParseRemote(line) == Some(r) <==> MatchesAs(line, r)
  {
    if MatchesAs(line, r) {
      var sep1, sep2, rest :| IsSeparator(sep1) && IsSeparator(sep2)
        && line == RemoteLine(r, sep1, sep2, rest);
      ParseRemoteLine(r, sep1, sep2, rest);
    }
  }

  /** Matching is anchored at the start of the line only: a line that does
      not begin with a word character (leading blanks, a punctuation mark)
      never parses. */
  lemma ParseRemoteAnchored(line: string)
    requires line == [] || !IsWordChar(line[0])
    ensures ParseRemote(line) == None
  {
  }

  /** `git remote --verbose` prints a tab after the name and a blank before
      the direction; such a line parses back to the remote. */
  lemma ParseGitOutput(r: Remote)
    requires WellFormed(r)
    ensures ParseRemote(r.name + "\t" + r.url + " (" + r.urlType + ")") == Some(r)
  {
    assert r.name + "\t" + r.url + " (" + r.urlType + ")" == RemoteLine(r, "\t", " ", "");
    ParseRemoteLine(r, "\t", " ", "");
  }

  /** The list comprehension of `remote`: every line's parse, in order. */
  function ParseLines(lines: seq<string>): (parsed: seq<Option<Remote>>)
    ensures |parsed| == |lines|
    ensures forall i :: 0 <= i < |lines| ==> parsed[i] == ParseRemote(lines[i])
  {
    if lines == [] then [] else [ParseRemote(lines[0])] + ParseLines(lines[1..])
  }

  lemma {:induction false} ParseLinesAppend(a: seq<string>, b: seq<string>)
    ensures ParseLines(a + b) == ParseLines(a) + ParseLines(b)
  {
    if a != [] {
      assert (a + b)[0] == a[0];
      assert (a + b)[1..] == a[1..] + b;
      ParseLinesAppend(a[1..], b);
    } else {
      assert a + b == b;
    }
  }

  /** The filter of `remote`: the values of the present entries, in order. */
  function Present(parsed: seq<Option<Remote>>): (remotes: seq<Remote>)
    ensures |remotes| <= |parsed|
    ensures forall r :: r in remotes <==> Some(r) in parsed
  {
    if parsed == [] then []
    else
      var head := match parsed[0] case Some(r) => [r] case None => [];
      head + Present(parsed[1..])
  }

  /** Filtering keeps the order: filtering a concatenation is the
      concatenation of the filtered parts. */
  lemma {:induction false} PresentAppend(a: seq<Option<Remote>>, b: seq<Option<Remote>>)
    ensures Present(a + b) == Present(a) + Present(b)
  {
    if a != [] {
      assert (a + b)[0] == a[0];
      assert (a + b)[1..] == a[1..] + b;
      PresentAppend(a[1..], b);
    } else {
      assert a + b == b;
    }
  }

  /** `remote` over the lines of `git remote --verbose`. */
  function Remotes(lines: seq<string>): (remotes: seq<Remote>)
    ensures forall r :: r in remotes ==> WellFormed(r)
  {
    Present(ParseLines(lines))
  }

  /** `remote` keeps the order of the lines: the remotes of a concatenation
      are the remotes of the first part followed by those of the second. */
  lemma RemotesAppend(a: seq<string>, b: seq<string>)
    ensures Remotes(a + b) == Remotes(a) + Remotes(b)
  {
    ParseLinesAppend(a, b);
    PresentAppend(ParseLines(a), ParseLines(b));
  }

  /** A single line contributes its remote if it parses and nothing otherwise. */
  lemma RemotesSingle(line: string)
    ensures Remotes([line]) == (if ParseRemote(line).Some? then [ParseRemote(line).value] else [])
  {
    assert ParseLines([line]) == [ParseRemote(line)];
  }

  /** A remote is listed exactly when some line parses to it. */
  lemma RemotesFromLines(lines: seq<string>, r: Remote)
    ensures r in Remotes(lines) <==> exists i :: 0 <= i < |lines| && ParseRemote(lines[i]) == Some(r)
  {
    var parsed := ParseLines(lines);
    assert r in Remotes(lines) <==> Some(r) in parsed;
    if Some(r) in parsed {
      var i :| 0 <= i < |parsed| && parsed[i] == Some(r);
      assert ParseRemote(lines[i]) == Some(r);
    }
    if exists i :: 0 <= i < |lines| && ParseRemote(lines[i]) == Some(r) {
      var i :| 0 <= i < |lines| && ParseRemote(lines[i]) == Some(r);
      assert parsed[i] == Some(r);
    }
  }
}
