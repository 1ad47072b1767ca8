/** `bit/bitbucket.py`: finding the Bitbucket repository (`workspace/slug`)
    behind a working tree's git remotes, the page and API addresses built
    from it, and the decoding of the pull-request list. */
module Bitbucket {
  import opened Wrappers
  import opened Text
  import Git
  import Http

  // ---------------------------------------------------------------------
  // Remote URL patterns
  // ---------------------------------------------------------------------

  /** The entries of `REMOTE_URL_PATTERNS`, in their order:
        git@bitbucket.org:(?P<repository>[^\.]+).git
        https://bitbucket.org/(?P<repository>[^\.]+).git
        https://\w+@bitbucket.org/(?P<repository>[^\.]+).git
      Their dots are not escaped, so each stands for any character but a
      line feed. */
  datatype UrlPattern = SshUrl | HttpsUrl | HttpsUserUrl

  const RemoteUrlPatterns: seq<UrlPattern> := [SshUrl, HttpsUrl, HttpsUserUrl]

  /** The part of each pattern after the group. */
  const GroupEnd := ".git"

  /** The part of the third pattern before the group, `https://\w+@bitbucket.org/`,
      matched at the start of `url`: the text where the group begins, or
      `None`. */
  function UserHead(url: string): (t: Option<string>)
    ensures t.Some? ==> |t.value| <= |url|
  {
    match MatchText("https://", url)
    case None => None
    case Some(afterScheme) =>
      match Plus(afterScheme, Word)
      case None => None
      case Some((user, afterUser)) => MatchText("@bitbucket.org/", afterUser)
  }

  /** The part of pattern `p` before the group, matched at the start of
      `url`: the text where the group begins, or `None`. */
  function MatchHead(p: UrlPattern, url: string): (t: Option<string>)
    ensures t.Some? ==> |t.value| <= |url|
  {
    match p
    case SshUrl => MatchText("git@bitbucket.org:", url)
    case HttpsUrl => MatchText("https://bitbucket.org/", url)
    case HttpsUserUrl => UserHead(url)
  }

  /** The group `[^\.]+` may end after `k` characters of `t`: they hold no
      dot and `GroupEnd` matches right after them. */
  predicate GroupFits(t: string, k: nat) {
    1 <= k <= |t| && All(t[..k], NotDot) && MatchText(GroupEnd, t[k..]).Some?
  }

  /** The backtracking of the greedy group: try the ends `k`, `k - 1`, ...,
      `1` and keep the first one after which `GroupEnd` matches. */
  function LongestGroup(t: string, k: nat): (g: Option<nat>)
    requires k <= Span(t, NotDot)
    ensures g.Some? ==> 1 <= g.value <= k && GroupFits(t, g.value)
    ensures g.Some? ==> forall j :: g.value < j <= k ==> !GroupFits(t, j)
    ensures g.None? ==> forall j :: 1 <= j <= k ==> !GroupFits(t, j)
  {
    if k == 0 then None
    else if MatchText(GroupEnd, t[k..]).Some? then
      AllPrefix(t[..Span(t, NotDot)], NotDot, k);
      assert t[..Span(t, NotDot)][..k] == t[..k];
      Some(k)
    else LongestGroup(t, k - 1)
  }

  /** No run of `k` reaches past the one `Span` measures. */
  lemma {:induction false} SpanIsMaximal(s: string, k: Class, j: nat)
    requires j <= |s| && All(s[..j], k)
    ensures j <= Span(s, k)
  {
    if j > 0 {
      assert s[..j][1..] == s[1..][..j - 1];
      SpanIsMaximal(s[1..], k, j - 1);
    }
  }

  /** The group `(?P<repository>[^\.]+)` followed by `GroupEnd`, at the start
      of `t`: the longest dot-free prefix after which `GroupEnd` matches. */
  function MatchGroup(t: string): (g: Option<string>)
    ensures g.Some? ==> GroupFits(t, |g.value|) && g.value == t[..|g.value|]
    ensures g.Some? ==> forall j: nat :: GroupFits(t, j) ==> j <= |g.value|
    ensures g.None? ==> forall j: nat :: !GroupFits(t, j)
  {
    var n := Span(t, NotDot);
    var k := LongestGroup(t, n);
    forall j: nat | GroupFits(t, j) ensures j <= n {
      SpanIsMaximal(t, NotDot, j);
    }
    match k
    case None => None
    case Some(k) => Some(t[..k])
  }

  /** The `repository` group of one pattern matched at the start of `url`,
      or `None` when the pattern does not match there. */
  function MatchPattern(p: UrlPattern, url: string): (g: Option<string>)
    ensures g.Some? ==> |g.value| > 0 && '.' !in g.value
  {
    match MatchHead(p, url)
    case None => None
    case Some(t) =>
      match MatchGroup(t)
      case None => None
      case Some(g) =>
        NotDotHasNoDot(g);
        Some(g)
  }

  /** Every pattern of `REMOTE_URL_PATTERNS` tried on `url`, in order. */
  function MatchEach(url: string): (results: seq<Option<string>>)
    ensures |results| == |RemoteUrlPatterns|
  {
    seq(|RemoteUrlPatterns|, i requires 0 <= i < |RemoteUrlPatterns| => MatchPattern(RemoteUrlPatterns[i], url))
  }

  /** The early return of the loop in `_parse_repository`: the first result
      that is present, or `None` when there is none. */
  function FirstSome(results: seq<Option<string>>): (r: Option<string>)
    ensures r.Some? ==> exists i :: 0 <= i < |results| && results[i] == r
                          && forall j :: 0 <= j < i ==> results[j].None?
    ensures r.None? ==> forall i :: 0 <= i < |results| ==> results[i].None?
  {
    if results == [] then None
    else if results[0].Some? then results[0]
    else
      var r := FirstSome(results[1..]);
      assert forall j :: 1 <= j < |results| ==> results[j] == results[1..][j - 1];
      r
  }

  /** `_parse_repository`: the patterns are tried in their order and the
      first one that matches gives the `repository` group. */
  function ParseRepository(url: string): (r: Option<string>)
    ensures r.Some? ==> |r.value| > 0 && '.' !in r.value
  {
    FirstSome(MatchEach(url))
  }

  /** The group followed by `.git` at the start of `s + ".git" + rest` is
      exactly `s` when `s` is non-empty and holds no dot. */
  lemma GroupOf(s: string, rest: string)
    requires |s| > 0 && '.' !in s
    ensures MatchGroup(s + (GroupEnd + rest)) == Some(s)
  {
    var t := s + (GroupEnd + rest);
    NoDotIsNotDot(s);
    SpanOfRun(s, GroupEnd + rest, NotDot);
    MatchTextSelf(GroupEnd, rest);
    assert GroupFits(t, |s|);
    var g := MatchGroup(t);
    SpanIsMaximal(t, NotDot, |g.value|);
  }

  /** `git@bitbucket.org:` + s + `.git` names the repository `s`, whatever
      follows. */
  lemma ParseSshUrl(s: string, rest: string)
    requires |s| > 0 && '.' !in s
    ensures ParseRepository("git@bitbucket.org:" + (s + (".git" + rest))) == Some(s)
  {
    var url := "git@bitbucket.org:" + (s + (GroupEnd + rest));
    MatchTextSelf("git@bitbucket.org:", s + (GroupEnd + rest));
    GroupOf(s, rest);
    FirstPatternMatches(url, s + (GroupEnd + rest));
  }

  /** `https://bitbucket.org/` + s + `.git` names the repository `s`,
      whatever follows. */
  lemma ParseHttpsUrl(s: string, rest: string)
    requires |s| > 0 && '.' !in s
    ensures ParseRepository("https://bitbucket.org/" + (s + (".git" + rest))) == Some(s)
  {
    var url := "https://bitbucket.org/" + (s + (GroupEnd + rest));
    MatchTextMismatch("git@bitbucket.org:", url, 0);
    MatchTextSelf("https://bitbucket.org/", s + (GroupEnd + rest));
    GroupOf(s, rest);
    SecondPatternMatches(url, s + (GroupEnd + rest));
  }

  /** The three patterns in their order: the first that matches decides. */
  lemma ParseRepositoryInOrder(url: string)
    ensures ParseRepository(url) ==
      if MatchPattern(SshUrl, url).Some? then MatchPattern(SshUrl, url)
      else if MatchPattern(HttpsUrl, url).Some? then MatchPattern(HttpsUrl, url)
      else MatchPattern(HttpsUserUrl, url)
  {
    var results := MatchEach(url);
    assert results == [MatchPattern(SshUrl, url), MatchPattern(HttpsUrl, url), MatchPattern(HttpsUserUrl, url)];
    FirstSomeOfThree(results[0], results[1], results[2]);
  }

  lemma FirstSomeOfThree(a: Option<string>, b: Option<string>, c: Option<string>)
    ensures FirstSome([a, b, c]) == if a.Some? then a else if b.Some? then b else c
  {
    assert [c][1..] == [];
    assert FirstSome([c]) == c;
    assert [b, c][1..] == [c];
    assert FirstSome([b, c]) == if b.Some? then b else c;
    assert [a, b, c][1..] == [b, c];
  }

  /** After `https://` and a user name of word characters, the text has
      no `/` where `https://bitbucket.org/` has its last one. */
  lemma UserUrlIsNotHttpsUrl(user: string, t: string)
    requires |user| > 0 && All(user, Word)
    ensures MatchText("https://bitbucket.org/", "https://" + (user + ("@bitbucket.org/" + t))).None?
  {
    var host := "@bitbucket.org";
    assert "@bitbucket.org/" + t == host + ("/" + t);
    var url := "https://" + (user + (host + ("/" + t)));
    if |user| >= 14 {
      AllAt(user, Word, 13);
      assert url[21] == user[13];
    } else {
      assert url[21] == host[13 - |user|];
      assert '/' !in host;
    }
    MatchTextMismatch("https://bitbucket.org/", url, 21);
  }

  /** The steps of the third pattern's head, each taken on its own: the
      scheme, the user name and the host. */
  lemma UserHeadSteps(url: string, afterScheme: string, user: string, afterUser: string, t: string)
    requires MatchText("https://", url) == Some(afterScheme)
    requires Plus(afterScheme, Word) == Some((user, afterUser))
    requires MatchText("@bitbucket.org/", afterUser) == Some(t)
    ensures UserHead(url) == Some(t)
  {
  }

  /** Each step of the third pattern's head on `https://` + user +
      `@bitbucket.org/` + t. */
  lemma UserUrlSteps(user: string, t: string)
    requires |user| > 0 && All(user, Word)
    ensures MatchText("https://", "https://" + (user + ("@bitbucket.org/" + t))) == Some(user + ("@bitbucket.org/" + t))
    ensures Plus(user + ("@bitbucket.org/" + t), Word) == Some((user, "@bitbucket.org/" + t))
    ensures MatchText("@bitbucket.org/", "@bitbucket.org/" + t) == Some(t)
  {
    MatchTextSelf("https://", user + ("@bitbucket.org/" + t));
    PlusOfRun(user, "@bitbucket.org/" + t, Word);
    MatchTextSelf("@bitbucket.org/", t);
  }

  /** The part of the third pattern before the group consumes
      `https://` + user + `@bitbucket.org/`. */
  lemma UserUrlHead(user: string, t: string)
    requires |user| > 0 && All(user, Word)
    ensures UserHead("https://" + (user + ("@bitbucket.org/" + t))) == Some(t)
  {
    UserUrlSteps(user, t);
    UserHeadSteps("https://" + (user + ("@bitbucket.org/" + t)), user + ("@bitbucket.org/" + t), user, "@bitbucket.org/" + t, t);
  }

  /** The converse of `UserUrlHead`: a URL on which the third head leaves
      `t` is `https://`, a maximal run of word characters, fifteen
      characters that `@bitbucket.org/` matches, and then `t`. */
  lemma UserHeadSound(url: string, t: string)
    requires UserHead(url) == Some(t)
    ensures exists user, at :: |user| > 0 && All(user, Word) && |at| == 15 && !In(at[0], Word)
              && MatchText("@bitbucket.org/", at + t) == Some(t) && url == "https://" + (user + (at + t))
  {
    var scheme := "https://";
    var afterScheme := MatchText(scheme, url).value;
    var (user, afterUser) := Plus(afterScheme, Word).value;
    var at := afterUser[..|afterUser| - |t|];
    assert afterUser == at + t;
    assert url[..8] == scheme by {
      forall i | 0 <= i < 8
        ensures url[i] == scheme[i]
      {
        assert CharMatches(scheme[i], url[i]);
      }
    }
    assert url == url[..8] + url[8..];
  }

  /** A URL on which the first head leaves `t` names the repository the
      group finds in `t`, if any. */
  lemma FirstPatternMatches(url: string, t: string)
    requires MatchText("git@bitbucket.org:", url) == Some(t)
    requires MatchGroup(t).Some?
    ensures ParseRepository(url) == MatchGroup(t)
  {
    ParseRepositoryInOrder(url);
  }

  /** A URL on which the first head fails and the second leaves `t`
      names the repository the group finds in `t`, if any. */
  lemma SecondPatternMatches(url: string, t: string)
    requires MatchText("git@bitbucket.org:", url).None?
    requires MatchText("https://bitbucket.org/", url) == Some(t)
    requires MatchGroup(t).Some?
    ensures ParseRepository(url) == MatchGroup(t)
  {
    ParseRepositoryInOrder(url);
  }

  /** A URL on which the first head leaves a `t` without a group, and the
      other two heads fail, names no repository. */
  lemma NoPatternMatches(url: string, t: string)
    requires MatchText("git@bitbucket.org:", url) == Some(t)
    requires MatchGroup(t).None?
    requires MatchText("https://bitbucket.org/", url).None?
    requires MatchText("https://", url).None?
    ensures ParseRepository(url).None?
  {
    ParseRepositoryInOrder(url);
  }

  /** A URL on which the first two heads fail and the third leaves `t`
      names the repository the group finds in `t`. */
  lemma OnlyUserPattern(url: string, t: string)
    requires MatchText("git@bitbucket.org:", url).None?
    requires MatchText("https://bitbucket.org/", url).None?
    requires UserHead(url) == Some(t)
    ensures ParseRepository(url) == MatchGroup(t)
  {
    ParseRepositoryInOrder(url);
  }

  /** `https://` + user + `@bitbucket.org/` + s + `.git` names the repository
      `s` for every non-empty user name of word characters. */
  lemma ParseHttpsUserUrl(user: string, s: string, rest: string)
    requires |user| > 0 && All(user, Word)
    requires |s| > 0 && '.' !in s
    ensures ParseRepository("https://" + (user + ("@bitbucket.org/" + (s + (".git" + rest))))) == Some(s)
  {
    var t := s + (GroupEnd + rest);
    var url := "https://" + (user + ("@bitbucket.org/" + t));
    MatchTextMismatch("git@bitbucket.org:", url, 0);
    UserUrlIsNotHttpsUrl(user, t);
    UserUrlHead(user, t);
    GroupOf(s, rest);
    OnlyUserPattern(url, t);
  }

  /** The dot of `.git` is not escaped, so a URL without the `.git`
      suffix whose name ends in some character and `git` loses those four
      characters: `git@bitbucket.org:team/legit` names `team/l`. */
  lemma GroupBeforeTrailingGit(a: string, c: char)
    requires |a| > 0 && '.' !in a && c != '.' && c != '\n'
    ensures MatchGroup(a + ([c] + "git")) == Some(a)
  {
    var t := a + ([c] + "git");
    assert t[..|a|] == a && t[|a|..] == [c] + "git";
    NoDotIsNotDot(a);
    assert MatchText(GroupEnd, [c] + "git") == Some([]) by {
      MatchTextSelf("git", []);
      assert "git" + [] == "git" == ([c] + "git")[1..];
      assert GroupEnd[1..] == "git";
    }
    assert GroupFits(t, |a|);
    forall j: nat | |a| < j
      ensures !GroupFits(t, j)
    {
      if j <= |t| {
        assert |t[j..]| < |GroupEnd|;
      }
    }
  }

  /** `git@bitbucket.org:` + a + c + `git` names `a`, not `a + c + "git"`. */
  lemma SshUrlWithoutSuffix(a: string, c: char)
    requires |a| > 0 && '.' !in a && c != '.' && c != '\n'
    ensures ParseRepository("git@bitbucket.org:" + (a + ([c] + "git"))) == Some(a)
  {
    var url := "git@bitbucket.org:" + (a + ([c] + "git"));
    MatchTextSelf("git@bitbucket.org:", a + ([c] + "git"));
    GroupBeforeTrailingGit(a, c);
    FirstPatternMatches(url, a + ([c] + "git"));
  }

  /** The group is the longest prefix of the dot-free run followed by a
      character other than a line feed and `git`. When the run has no `g`
      and its dot is not followed by `g`, no prefix qualifies: there is no
      group, and the name is not cut at its dot. (A dot followed by `git`
      cuts the name there, as `ParseSshUrl` shows with `rest` after it.) */
  lemma DottedGroup(a: string, r: string)
    requires '.' !in a && 'g' !in a
    requires r == [] || r[0] != 'g'
    ensures MatchGroup(a + ("." + r)) == None
  {
    var t := a + ("." + r);
    forall j: nat
      ensures !GroupFits(t, j)
    {
      if 1 <= j <= |t| {
        if j > |a| {
          assert t[..j][|a|] == '.';
          if All(t[..j], NotDot) {
            AllAt(t[..j], NotDot, |a|);
          }
        } else if j + 1 < |t| {
          assert t[j..][1] == t[j + 1];
          assert t[j + 1] != 'g' by {
            if j + 1 < |a| {
              assert t[j + 1] == a[j + 1];
            }
          }
          MatchTextMismatch(GroupEnd, t[j..], 1);
        }
      }
    }
  }

  /** `git@bitbucket.org:team/my.repo.git`-like URLs, whose dot-free run
      offers no character followed by `git`, name no repository. */
  lemma SshUrlWithDottedName(a: string, r: string)
    requires '.' !in a && 'g' !in a
    requires r == [] || r[0] != 'g'
    ensures ParseRepository("git@bitbucket.org:" + (a + ("." + r))) == None
  {
    var url := "git@bitbucket.org:" + (a + ("." + r));
    MatchTextSelf("git@bitbucket.org:", a + ("." + r));
    DottedGroup(a, r);
    MatchTextMismatch("https://bitbucket.org/", url, 0);
    MatchTextMismatch("https://", url, 0);
    NoPatternMatches(url, a + ("." + r));
  }

  // ---------------------------------------------------------------------
  // Choosing the repository among the remotes
  // ---------------------------------------------------------------------

  /** Python's truth value of an optional string: present and non-empty. */
  predicate Truthy(o: Option<string>) {
    o.Some? && o.value != ""
  }

  /** A repository name found by `_parse_repository` is never empty, so
      the `if repository:` tests only that one was found. */
  lemma ParsedIsTruthy(url: string)
    ensures Truthy(ParseRepository(url)) <==> ParseRepository(url).Some?
  {
  }

  /** No pattern matches the empty URL. */
  lemma ParseEmptyUrl()
    ensures ParseRepository("").None?
  {
    ParseRepositoryInOrder("");
  }

  /** The dictionary from remote names to URLs that `_preferred_repository`
      builds: one entry per name, holding the URL of some remote of that
      name. */
  function RemoteUrls(remotes: seq<Git.Remote>): (urls: map<string, string>)
    ensures forall n :: n in urls <==> exists i :: 0 <= i < |remotes| && remotes[i].name == n
    ensures forall n :: n in urls ==> exists i :: 0 <= i < |remotes| && remotes[i].name == n && remotes[i].url == urls[n]
  {
    if remotes == [] then map[]
    else
      var init := remotes[..|remotes| - 1];
      var last := remotes[|remotes| - 1];
      assert forall i :: 0 <= i < |init| ==> init[i] == remotes[i];
      RemoteUrls(init)[last.name := last.url]
  }

  /** The dictionary is built in list order, so of several remotes with
      one name the last one's URL is kept. */
  lemma {:induction false} RemoteUrlsLastWins(remotes: seq<Git.Remote>, i: nat)
    requires i < |remotes|
    requires forall j :: i < j < |remotes| ==> remotes[j].name != remotes[i].name
    ensures remotes[i].name in RemoteUrls(remotes)
    ensures RemoteUrls(remotes)[remotes[i].name] == remotes[i].url
  {
    var init := remotes[..|remotes| - 1];
    if i < |remotes| - 1 {
      assert forall j :: 0 <= j < |init| ==> init[j] == remotes[j];
      RemoteUrlsLastWins(init, i);
    }
  }

  /** `PREFERRED_REMOTE_NAMES`. */
  const PreferredRemoteNames: seq<string> := ["upstream", "bitbucket", "origin"]

  /** The remote called `name` survives both tests of the loop body:
      the dictionary holds a non-empty URL for it, and the repository that
      `parse` reads from it is non-empty. */
  predicate Usable(urls: map<string, string>, name: string, parse: string -> Option<string>) {
    name in urls && urls[name] != "" && Truthy(parse(urls[name]))
  }

  /** The loop of `_preferred_repository` over `names`, with `parse` for
      `_parse_repository`: the repository of the first usable name, or
      `None`. */
  function PreferredFrom(urls: map<string, string>, names: seq<string>, parse: string -> Option<string>): (r: Option<string>)
    ensures r.Some? ==> exists i :: 0 <= i < |names| && Usable(urls, names[i], parse) && r == parse(urls[names[i]])
                          && forall j :: 0 <= j < i ==> !Usable(urls, names[j], parse)
    ensures r.None? ==> forall i :: 0 <= i < |names| ==> !Usable(urls, names[i], parse)
  {
    if names == [] then None
    else if Usable(urls, names[0], parse) then parse(urls[names[0]])
    else
      var rest := names[1..];
      var r := PreferredFrom(urls, rest, parse);
      assert forall j :: 1 <= j < |names| ==> names[j] == rest[j - 1];
      assert r.Some? ==> exists i :: 0 <= i < |names| && Usable(urls, names[i], parse) && r == parse(urls[names[i]])
                                      && forall j :: 0 <= j < i ==> !Usable(urls, names[j], parse) by {
        if r.Some? {
          var k :| 0 <= k < |rest| && Usable(urls, rest[k], parse) && r == parse(urls[rest[k]])
                   && forall j :: 0 <= j < k ==> !Usable(urls, rest[j], parse);
          assert names[k + 1] == rest[k];
        }
      }
      r
  }

  /** `_preferred_repository`. */
  function PreferredRepository(remotes: seq<Git.Remote>): (r: Option<string>)
    ensures r.Some? ==> exists i :: 0 <= i < |remotes| && r == ParseRepository(remotes[i].url)
  {
    PreferredFrom(RemoteUrls(remotes), PreferredRemoteNames, ParseRepository)
  }

  /** `_any_repository`: the repository of the first remote, in list order,
      whose URL names one. */
  function AnyRepository(remotes: seq<Git.Remote>): (r: Option<string>)
    ensures r.Some? ==> exists i :: 0 <= i < |remotes| && r == ParseRepository(remotes[i].url)
                          && forall j :: 0 <= j < i ==> ParseRepository(remotes[j].url).None?
    ensures r.None? <==> forall i :: 0 <= i < |remotes| ==> ParseRepository(remotes[i].url).None?
  {
    if remotes == [] then None
    else
      var repository := ParseRepository(remotes[0].url);
      var r := if Truthy(repository) then repository else AnyRepository(remotes[1..]);
      assert forall j :: 1 <= j < |remotes| ==> remotes[j] == remotes[1..][j - 1];
      r
  }

  /** `repository`: the preferred pass, or else the fallback pass. A
      repository is found exactly when some remote's URL names one, and it
      is always the one some remote's URL names. */
  function Repository(remotes: seq<Git.Remote>): (r: Option<string>)
    ensures r.Some? <==> exists i :: 0 <= i < |remotes| && ParseRepository(remotes[i].url).Some?
    ensures r.Some? ==> exists i :: 0 <= i < |remotes| && r == ParseRepository(remotes[i].url)
  {
    var preferred := PreferredRepository(remotes);
    if Truthy(preferred) then preferred else AnyRepository(remotes)
  }

  /** The last remote called `upstream` decides when its URL names a
      repository, whatever the other remotes are. */
  lemma UpstreamWins(remotes: seq<Git.Remote>, i: nat)
    requires i < |remotes| && remotes[i].name == "upstream"
    requires forall j :: i < j < |remotes| ==> remotes[j].name != "upstream"
    requires ParseRepository(remotes[i].url).Some?
    ensures Repository(remotes) == ParseRepository(remotes[i].url)
  {
    RemoteUrlsLastWins(remotes, i);
    ParseEmptyUrl();
    var urls := RemoteUrls(remotes);
    assert Usable(urls, PreferredRemoteNames[0], ParseRepository);
  }

  /** A preferred name whose URL names no repository falls through: with
      no usable preferred name, the first remote in list order whose URL
      names a repository decides. */
  lemma FallbackToAnyRemote(remotes: seq<Git.Remote>)
    requires forall k :: 0 <= k < |PreferredRemoteNames| ==> !Usable(RemoteUrls(remotes), PreferredRemoteNames[k], ParseRepository)
    ensures Repository(remotes) == AnyRepository(remotes)
  {
  }

  // ---------------------------------------------------------------------
  // Addresses
  // ---------------------------------------------------------------------

  const ApiBaseUrl := "https://api.bitbucket.org/2.0"

  const WebBaseUrl := "https://bitbucket.org"

  /** `repository_url`: the repository's page, `https://bitbucket.org/`
      followed by the repository. */
  function RepositoryUrl(repository: string): (url: string)
    ensures |url| == |WebBaseUrl| + 1 + |repository|
    ensures url[..|WebBaseUrl| + 1] == "https://bitbucket.org/"
    ensures url[|WebBaseUrl| + 1..] == repository
  {
    WebBaseUrl + "/" + repository
  }

  lemma RepositoryUrlThen(repository: string, rest: string)
    ensures RepositoryUrl(repository) + rest == "https://bitbucket.org/" + (repository + rest)
  {
  }

  /** The page address with `.git` appended is a clone address that names
      the same repository again. */
  lemma CloneUrlOfPage(repository: string, rest: string)
    requires |repository| > 0 && '.' !in repository
    ensures ParseRepository(RepositoryUrl(repository) + (".git" + rest)) == Some(repository)
  {
    RepositoryUrlThen(repository, ".git" + rest);
    ParseHttpsUrl(repository, rest);
  }

  /** Different repositories have different pages. */
  lemma RepositoryUrlInjective(a: string, b: string)
    requires RepositoryUrl(a) == RepositoryUrl(b)
    ensures a == b
  {
    assert a == RepositoryUrl(a)[|WebBaseUrl| + 1..];
  }

  const PullRequestsPath := "/pullrequests"

  /** The query of `get_pull_requests`: only the identifier and the title
      of each pull request. */
  const PullRequestsQuery := "?fields=values.id,values.title"

  const RepositoriesPrefix := ApiBaseUrl + "/repositories/"

  /** The address `get_pull_requests` asks for. */
  function PullRequestsUrl(repository: string): (url: string)
    ensures |url| == |RepositoriesPrefix| + |repository| + |PullRequestsPath + PullRequestsQuery|
    ensures url == "https://api.bitbucket.org/2.0/repositories/" + repository + "/pullrequests?fields=values.id,values.title"
  {
    RepositoriesPrefixText();
    PullRequestsTailText();
    RepositoriesPrefix + repository + (PullRequestsPath + PullRequestsQuery)
  }

  lemma RepositoriesPrefixText()
    ensures RepositoriesPrefix == "https://api.bitbucket.org/2.0/repositories/"
  {
  }

  lemma PullRequestsTailText()
    ensures PullRequestsPath + PullRequestsQuery == "/pullrequests?fields=values.id,values.title"
  {
    var text := "/pullrequests?fields=values.id,values.title";
    assert text[..|PullRequestsPath|] == PullRequestsPath;
    assert text[|PullRequestsPath|..] == PullRequestsQuery;
    assert text == text[..|PullRequestsPath|] + text[|PullRequestsPath|..];
  }

  lemma SplitThree(s: string, i: nat, j: nat)
    requires i <= j <= |s|
    ensures s == s[..i] + s[i..j] + s[j..]
  {
  }

  /** The repository an address of the pull-request list names, or `None`
      for any other address. */
  function RepositoryOfPullRequestsUrl(url: string): (repository: Option<string>)
    ensures repository.Some? ==> PullRequestsUrl(repository.value) == url
  {
    var tail := PullRequestsPath + PullRequestsQuery;
    if |url| >= |RepositoriesPrefix| + |tail| && url[..|RepositoriesPrefix|] == RepositoriesPrefix
       && url[|url| - |tail|..] == tail
    then
      var repository := url[|RepositoriesPrefix|..|url| - |tail|];
      SplitThree(url, |RepositoriesPrefix|, |url| - |tail|);
      Some(repository)
    else None
  }

  /** The address names the repository it was built for. */
  lemma RepositoryOfPullRequestsUrlOf(repository: string)
    ensures RepositoryOfPullRequestsUrl(PullRequestsUrl(repository)) == Some(repository)
  {
    var url := PullRequestsUrl(repository);
    var tail := PullRequestsPath + PullRequestsQuery;
    assert url == RepositoriesPrefix + repository + tail;
    assert url[..|RepositoriesPrefix|] == RepositoriesPrefix;
    assert url[|url| - |tail|..] == tail;
    assert url[|RepositoriesPrefix|..|url| - |tail|] == repository;
  }

  // ---------------------------------------------------------------------
  // Pull requests
  // ---------------------------------------------------------------------

  datatype PullRequest = PullRequest(identifier: int, title: string)

  /** What goes wrong in `get_pull_requests`: `get_json` raised `HTTPError`,
      or the document has not the expected shape (the `KeyError` or
      `TypeError` Python raises then). */
  datatype ClientError = RequestFailed(error: Http.HttpError) | BadResponse(reason: string)

  /** `_parse_pull_request`: the `id` and `title` members of one element
      of `values`. */
  function ParsePullRequest(value: Http.Json): (r: Result<PullRequest, ClientError>)
    ensures r.Success? ==> value.JObject? && "id" in value.fields && "title" in value.fields
    ensures r.Failure? ==> r.error.BadResponse?
  {
    if !value.JObject? then Failure(BadResponse("TypeError: not an object"))
    else if "id" !in value.fields then Failure(BadResponse("KeyError: 'id'"))
    else if "title" !in value.fields then Failure(BadResponse("KeyError: 'title'"))
    else
      match (value.fields["id"], value.fields["title"])
      case (JNumber(identifier), JString(title)) => Success(PullRequest(identifier, title))
      case _ => Failure(BadResponse("TypeError: unexpected id or title"))
  }

  /** The object a pull request is listed as, with the two members the
      query asks for. */
  function PullRequestJson(pullRequest: PullRequest): Http.Json {
    Http.JObject(map["id" := Http.JNumber(pullRequest.identifier), "title" := Http.JString(pullRequest.title)])
  }

  /** An object holding the number `id` and the string `title` is read as
      that pull request, whatever other members it has. */
  lemma ParsePullRequestOf(pullRequest: PullRequest, fields: map<string, Http.Json>)
    requires "id" in fields && fields["id"] == Http.JNumber(pullRequest.identifier)
    requires "title" in fields && fields["title"] == Http.JString(pullRequest.title)
    ensures ParsePullRequest(Http.JObject(fields)) == Success(pullRequest)
  {
  }

  /** Reading a listed pull request gives it back. */
  lemma ParsePullRequestJson(pullRequest: PullRequest)
    ensures ParsePullRequest(PullRequestJson(pullRequest)) == Success(pullRequest)
  {
    ParsePullRequestOf(pullRequest, PullRequestJson(pullRequest).fields);
  }

  /** `_parse_pull_request` applied to every element of `values`, in
      order; the first that fails ends the list. */
  function ParseAll(values: seq<Http.Json>): (r: Result<seq<PullRequest>, ClientError>)
    ensures r.Success? <==> forall i :: 0 <= i < |values| ==> ParsePullRequest(values[i]).Success?
    ensures r.Success? ==>
      |r.value| == |values| && forall i :: 0 <= i < |values| ==> ParsePullRequest(values[i]) == Success(r.value[i])
    ensures r.Failure? ==>
      exists i :: 0 <= i < |values| && ParsePullRequest(values[i]) == Failure(r.error) &&
        forall j :: 0 <= j < i ==> ParsePullRequest(values[j]).Success?
  {
    if values == [] then Success([])
    else
      match ParsePullRequest(values[0])
      case Failure(e) => Failure(e)
      case Success(pullRequest) =>
        match ParseAll(values[1..])
        case Failure(e) =>
          var i :| 0 <= i < |values[1..]| && ParsePullRequest(values[1..][i]) == Failure(e)
            && forall j :: 0 <= j < i ==> ParsePullRequest(values[1..][j]).Success?;
          assert ParsePullRequest(values[i + 1]) == Failure(e);
          Failure(e)
        case Success(rest) =>
          assert forall i :: 1 <= i < |values| ==> values[i] == values[1..][i - 1];
          Success([pullRequest] + rest)
  }

  /** The pull requests of the `values` member of the document, as Python
      iterates it: the elements of an array; nothing for an empty string or
      an empty object; anything else fails. */
  function PullRequestsOf(data: Http.Json): (r: Result<seq<PullRequest>, ClientError>)
    ensures r.Failure? ==> r.error.BadResponse?
    ensures r.Success? ==> data.JObject? && "values" in data.fields
    ensures r.Success? && !data.fields["values"].JArray? ==> r.value == []
    ensures data.JObject? && "values" in data.fields && data.fields["values"].JArray? ==>
              r == ParseAll(data.fields["values"].items)
  {
    if !data.JObject? then Failure(BadResponse("TypeError: not an object"))
    else if "values" !in data.fields then Failure(BadResponse("KeyError: 'values'"))
    else
      match data.fields["values"]
      case JArray(items) => ParseAll(items)
      case JString(s) => if s == "" then Success([]) else Failure(BadResponse("TypeError: string indices must be integers"))
      case JObject(fields) => if |fields| == 0 then Success([]) else Failure(BadResponse("TypeError: string indices must be integers"))
      case _ => Failure(BadResponse("TypeError: not iterable"))
  }

  /** `Client`: the headers sent with every request. */
  datatype Client = Client(headers: map<string, string>)

  /** `Client(username, password)`: one `Authorization` header, which a
      server reads back as exactly `username:password`. */
  function NewClient(username: string, password: string): (client: Client)
    ensures client.headers.Keys == {"Authorization"}
    ensures Http.ParseBasicAuth(client.headers["Authorization"]) == Some(Http.UserPass(username, password))
  {
    Http.ParseBasicAuthOf(username, password);
    Client(map["Authorization" := Http.BasicAuth(username, password)])
  }

  /** The request `get_pull_requests` hands to `get_json`. */
  function PullRequestsRequest(client: Client, repository: string): (request: Http.Request)
    ensures RepositoryOfPullRequestsUrl(request.url) == Some(repository)
    ensures request.headers == client.headers
  {
    RepositoryOfPullRequestsUrlOf(repository);
    Http.Request(PullRequestsUrl(repository), client.headers)
  }

  /** `get_pull_requests`, with `get_json` as the parameter `getJson`: a
      failed request fails with its `HTTPError`; otherwise the document's
      `values` are read. */
  function GetPullRequests(client: Client, repository: string, getJson: Http.Request -> Result<Http.Json, Http.HttpError>)
    : (r: Result<seq<PullRequest>, ClientError>)
    ensures getJson(PullRequestsRequest(client, repository)).Failure? <==> r.Failure? && r.error.RequestFailed?
    ensures r.Failure? && r.error.RequestFailed? ==> getJson(PullRequestsRequest(client, repository)).error == r.error.error
    ensures getJson(PullRequestsRequest(client, repository)).Success? ==>
              r == PullRequestsOf(getJson(PullRequestsRequest(client, repository)).value)
  {
    match getJson(PullRequestsRequest(client, repository))
    case Failure(e) => Failure(RequestFailed(e))
    case Success(data) => PullRequestsOf(data)
  }

  /** When the document lists objects with an `id` and a `title`, the
      result is those pull requests, one per element, in order. */
  lemma GetListedPullRequests(client: Client, repository: string,
                              getJson: Http.Request -> Result<Http.Json, Http.HttpError>, pullRequests: seq<PullRequest>)
    requires getJson(PullRequestsRequest(client, repository))
      == Success(Http.JObject(map["values" := Http.JArray(seq(|pullRequests|, i requires 0 <= i < |pullRequests| => PullRequestJson(pullRequests[i])))]))
    ensures GetPullRequests(client, repository, getJson) == Success(pullRequests)
  {
    var items := seq(|pullRequests|, i requires 0 <= i < |pullRequests| => PullRequestJson(pullRequests[i]));
    forall i | 0 <= i < |items|
      ensures ParsePullRequest(items[i]) == Success(pullRequests[i])
    {
      ParsePullRequestJson(pullRequests[i]);
    }
    var r := ParseAll(items);
    assert r.Success?;
    assert r.value == pullRequests;
    assert PullRequestsOf(getJson(PullRequestsRequest(client, repository)).value) == r;
  }
}
