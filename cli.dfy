/** `bit/cli.py`: the command tables, `bit browse` and `bit pr list`.
    What the program touches outside itself is a `World` value: the
    environment, the current directory, the output of `git remote
    --verbose`, the stored credentials, the HTTP client, the browser and
    `getopt`. Leaving the process (`sys.exit`) and printing are the
    `Outcome` a command ends with. */
module Cli {
  import opened Wrappers
  import Git
  import Http
  import Bitbucket
  import Sorting
  import PyFormat

  /** How a run ends. `Usage` and `Error` are `sys.exit(message)`;
      `Printed` is a normal end after printing `lines`; `Opened` is a
      normal end after the browser opened `url`; `Crashed` is an exception
      the program does not catch. */
  datatype Outcome =
    | Usage(message: string)
    | Error(message: string)
    | Printed(lines: seq<string>)
    | Opened(url: string)
    | Crashed(reason: string)

  /** `config.Config`. */
  datatype Credentials = Credentials(username: string, password: string)

  /** Everything a run depends on besides its arguments:
      `gitRemote(path)`: the lines `git remote --verbose` prints in `path`,
        or `None` when it fails;
      `config`: what `config.load()` returns, or the text of its
        `ConfigError`;
      `getJson(request)`: `http.get_json`;
      `browserOpens(url)`: whether `webbrowser.open(url)` succeeds;
      `getopt(args)`: the options (by name) and operands `getopt.getopt`
        finds for `bit browse`, or `None` when it raises. */
  datatype World = World(
    env: map<string, string>,
    cwd: string,
    gitRemote: string -> Option<seq<string>>,
    config: Result<Credentials, string>,
    getJson: Http.Request -> Result<Http.Json, Http.HttpError>,
    browserOpens: string -> bool,
    getopt: seq<string> -> Option<(seq<string>, seq<string>)>)

  // ---------------------------------------------------------------------
  // Dispatch
  // ---------------------------------------------------------------------

  const BrowseUsage := "Usage: bit browse [-u|--url] [<user>/<repository>]"

  const PrUsage := "Usage: bit pr list"

  const MainUsage :=
    "Usage: bit <command> [<args>]\n\nAvailable commands:\n\n"
    + "    browse  Open a Bitbucket page in the default browser\n"
    + "    pr      List Bitbucket pull requests\n"

  datatype Command = BrowseCommand | PrCommand | PrListCommand

  /** `MAIN_COMMANDS`. */
  const MainCommands: map<string, Command> := map["browse" := BrowseCommand, "pr" := PrCommand]

  /** `PR_COMMANDS`. */
  const PrCommands: map<string, Command> := map["list" := PrListCommand]

  /** What `_run_command` does: show the usage, or run a command on the
      remaining arguments. */
  datatype Dispatch = ShowUsage(message: string) | Invoke(command: Command, args: seq<string>)

  /** `_run_command(args, commands, usage_message)`. */
  function RunCommand(args: seq<string>, commands: map<string, Command>, usage: string): (d: Dispatch)
    ensures d.ShowUsage? ==> d.message == usage
    ensures d.Invoke? ==> |args| >= 1 && d.args == args[1..] && d.command in commands.Values
  {
    if |args| < 1 then ShowUsage(usage)
    else if args[0] !in commands then ShowUsage(usage)
    else Invoke(commands[args[0]], args[1..])
  }

  /** A known command runs on exactly the arguments after it. */
  lemma RunKnownCommand(name: string, rest: seq<string>, commands: map<string, Command>, usage: string)
    requires name in commands
    ensures RunCommand([name] + rest, commands, usage) == Invoke(commands[name], rest)
  {
    assert ([name] + rest)[1..] == rest;
  }

  /** No command, or one the table does not know, shows the table's usage. */
  lemma RunCommandUsage(args: seq<string>, commands: map<string, Command>, usage: string)
    ensures RunCommand(args, commands, usage) == ShowUsage(usage) <==> args == [] || args[0] !in commands
  {
  }

  /** A command run on `args`. */
  function Execute(world: World, command: Command, args: seq<string>): (outcome: Outcome)
    ensures outcome.Usage? ==> outcome.message in {BrowseUsage, PrUsage}
    decreases |args|
  {
    match command
    case BrowseCommand => BrowseOutcome(world, args)
    case PrListCommand => PrListOutcome(world)
    case PrCommand =>
      match RunCommand(args, PrCommands, PrUsage)
      case ShowUsage(message) => Usage(message)
      case Invoke(c, rest) => Execute(world, c, rest)
  }

  /** `main(args)`: `bit` run with the arguments `args`. */
  function MainOutcome(world: World, args: seq<string>): (outcome: Outcome)
    ensures outcome.Usage? ==> outcome.message in {MainUsage, BrowseUsage, PrUsage}
  {
    match RunCommand(args, MainCommands, MainUsage)
    case ShowUsage(message) => Usage(message)
    case Invoke(c, rest) => Execute(world, c, rest)
  }

  // ---------------------------------------------------------------------
  // Finding the repository
  // ---------------------------------------------------------------------

  const NotBitbucketRepository := "not a Bitbucket repository"

  /** `_error(message)`: the text `sys.exit` shows. */
  function ErrorMessage(message: string): (text: string)
    ensures |text| == 7 + |message| && text[..7] == "error: " && text[7..] == message
  {
    "error: " + message
  }

  lemma NotBitbucketRepositoryMessage()
    ensures ErrorMessage(NotBitbucketRepository) == "error: not a Bitbucket repository"
  {
  }

  /** `_repository()`: the repository of the working tree, or how the run
      ends when there is none. */
  function ResolveRepository(world: World): (r: Result<string, Outcome>)
    ensures r.Failure? ==> r.error.Crashed? || r.error == Error(ErrorMessage(NotBitbucketRepository))
    ensures r.Success? ==>
      exists lines :: world.gitRemote(Git.WorkTree(world.env, world.cwd)) == Some(lines) &&
        Bitbucket.Repository(Git.Remotes(lines)) == Some(r.value)
    ensures world.gitRemote(Git.WorkTree(world.env, world.cwd)).None? ==> r.Failure? && r.error.Crashed?
    ensures forall lines :: world.gitRemote(Git.WorkTree(world.env, world.cwd)) == Some(lines) ==>
      r == match Bitbucket.Repository(Git.Remotes(lines))
           case Some(repository) => Success(repository)
           case None => Failure(Error(ErrorMessage(NotBitbucketRepository)))
  {
    match world.gitRemote(Git.WorkTree(world.env, world.cwd))
    case None => Failure(Crashed("CalledProcessError: git remote --verbose"))
    case Some(lines) =>
      match Bitbucket.Repository(Git.Remotes(lines))
      case None => Failure(Error(ErrorMessage(NotBitbucketRepository)))
      case Some(repository) => Success(repository)
  }

  // ---------------------------------------------------------------------
  // bit browse
  // ---------------------------------------------------------------------

  const HelpFlags: set<string> := {"-h", "--help"}

  const UrlFlags: set<string> := {"-u", "--url"}

  /** Whether one of `flags` is among the options. */
  predicate Mentions(opts: seq<string>, flags: set<string>) {
    exists i :: 0 <= i < |opts| && opts[i] in flags
  }

  /** `_browse(url)` when `open` is set, `print(url)` otherwise. */
  function Show(world: World, url: string, open: bool): (outcome: Outcome)
    ensures outcome == Opened(url) || outcome == Printed([url])
    ensures outcome.Opened? <==> open && world.browserOpens(url)
  {
    if open && world.browserOpens(url) then Opened(url) else Printed([url])
  }

  /** `browse(args)`: a help option shows the usage; an operand names the
      repository, or else the working tree's remotes do; its page is
      opened, or printed when `-u`/`--url` is given or the browser does not
      open. */
  function BrowseOutcome(world: World, args: seq<string>): (outcome: Outcome)
    ensures outcome.Usage? ==> outcome.message == BrowseUsage
    ensures outcome.Printed? ==> |outcome.lines| == 1
  {
    match world.getopt(args)
    case None => Usage(BrowseUsage)
    case Some((opts, operands)) =>
      if Mentions(opts, HelpFlags) then Usage(BrowseUsage)
      else
        var repository := if operands != [] then Success(operands[0]) else ResolveRepository(world);
        match repository
        case Failure(outcome) => outcome
        case Success(r) => Show(world, Bitbucket.RepositoryUrl(r), !Mentions(opts, UrlFlags))
  }

  /** `browse(args)` as written: the options are read one by one, a help
      option ending the run at once and a URL option clearing `browse`. */
  method Browse(world: World, args: seq<string>) returns (outcome: Outcome)
    ensures outcome == BrowseOutcome(world, args)
  {
    var parsed := world.getopt(args);
    if parsed.None? {
      return Usage(BrowseUsage);
    }
    var (opts, operands) := parsed.value;
    var browse := true;
    var i := 0;
    while i < |opts|
      invariant 0 <= i <= |opts|
      invariant !Mentions(opts[..i], HelpFlags)
      invariant browse <==> !Mentions(opts[..i], UrlFlags)
    {
      assert opts[..i + 1] == opts[..i] + [opts[i]];
      if opts[i] in HelpFlags {
        assert opts[..i + 1][i] == opts[i];
        return Usage(BrowseUsage);
      } else if opts[i] in UrlFlags {
        browse := false;
      }
      i := i + 1;
    }
    assert opts[..i] == opts;
    var repository: string;
    if operands != [] {
      repository := operands[0];
    } else {
      var resolved := ResolveRepository(world);
      if resolved.Failure? {
        return resolved.error;
      }
      repository := resolved.value;
    }
    var url := Bitbucket.RepositoryUrl(repository);
    if browse && world.browserOpens(url) {
      outcome := Opened(url);
    } else {
      outcome := Printed([url]);
    }
  }

  // ---------------------------------------------------------------------
  // bit pr list
  // ---------------------------------------------------------------------

  /** `_format_pull_request`: `#` and the identifier right-aligned in eight
      columns, two spaces, then the title. */
  function FormatPullRequest(pullRequest: Bitbucket.PullRequest): (line: string)
    ensures var n := |pullRequest.title|;
            |line| >= 10 + n && line[|line| - n..] == pullRequest.title && line[|line| - n - 2..|line| - n] == "  "
  {
    PyFormat.AlignRight("#" + PyFormat.Str(pullRequest.identifier), 8) + "  " + pullRequest.title
  }

  /** The index of the first space of `s`, or its length. */
  function FirstSpace(s: string): (n: nat)
    ensures n <= |s| && (n < |s| ==> s[n] == ' ')
    ensures forall i :: 0 <= i < n ==> s[i] != ' '
  {
    if s == [] || s[0] == ' ' then 0 else 1 + FirstSpace(s[1..])
  }

  /** The pull request a listed line shows: spaces, `#`, the identifier,
      two spaces and the title. */
  function ParseLine(line: string): Option<Bitbucket.PullRequest> {
    var s := PyFormat.TrimLeft(line);
    if s == [] || s[0] != '#' then None else ParseNumbered(s[1..])
  }

  /** What follows the `#`: the identifier, two spaces and the title. */
  function ParseNumbered(t: string): Option<Bitbucket.PullRequest> {
    var n := FirstSpace(t);
    if n + 2 <= |t| && t[n..n + 2] == "  " then
      match PyFormat.ParseInt(t[..n])
      case None => None
      case Some(identifier) => Some(Bitbucket.PullRequest(identifier, t[n + 2..]))
    else None
  }

  lemma {:induction false} FirstSpaceOf(a: string, b: string)
    requires forall i :: 0 <= i < |a| ==> a[i] != ' '
    requires b != [] && b[0] == ' '
    ensures FirstSpace(a + b) == |a|
  {
    if a != [] {
      assert (a + b)[1..] == a[1..] + b;
      FirstSpaceOf(a[1..], b);
    } else {
      assert a + b == b;
    }
  }

  lemma FormatPullRequestParts(pullRequest: Bitbucket.PullRequest)
    ensures var digits := PyFormat.Str(pullRequest.identifier);
            FormatPullRequest(pullRequest)
              == PyFormat.Fill("#" + digits, 8) + ("#" + (digits + ("  " + pullRequest.title)))
  {
  }

  lemma ParseNumberedOf(digits: string, title: string, identifier: int)
    requires forall i :: 0 <= i < |digits| ==> digits[i] != ' '
    requires PyFormat.ParseInt(digits) == Some(identifier)
    ensures ParseNumbered(digits + ("  " + title)) == Some(Bitbucket.PullRequest(identifier, title))
  {
    var tail := "  " + title;
    var t := digits + tail;
    FirstSpaceOf(digits, tail);
    assert t[..|digits|] == digits;
    assert t[|digits|..|digits| + 2] == "  ";
    assert t[|digits| + 2..] == title;
  }

  /** Spaces, `#`, a number with no space in it, two spaces and a title
      read as the pull request with that number and title. */
  lemma ParseLineOf(fill: string, digits: string, title: string, identifier: int)
    requires forall i :: 0 <= i < |fill| ==> fill[i] == ' '
    requires forall i :: 0 <= i < |digits| ==> digits[i] != ' '
    requires PyFormat.ParseInt(digits) == Some(identifier)
    ensures ParseLine(fill + ("#" + (digits + ("  " + title)))) == Some(Bitbucket.PullRequest(identifier, title))
  {
    var s := "#" + (digits + ("  " + title));
    PyFormat.TrimLeftSpaces(fill, s);
    assert s[1..] == digits + ("  " + title);
    ParseNumberedOf(digits, title, identifier);
  }

  /** Every line reads back as the pull request it shows, whatever its
      title. */
  lemma ParseLineOfFormat(pullRequest: Bitbucket.PullRequest)
    ensures ParseLine(FormatPullRequest(pullRequest)) == Some(pullRequest)
  {
    var digits := PyFormat.Str(pullRequest.identifier);
    FormatPullRequestParts(pullRequest);
    PyFormat.ParseIntOfStr(pullRequest.identifier);
    ParseLineOf(PyFormat.Fill("#" + digits, 8), digits, pullRequest.title, pullRequest.identifier);
  }

  /** Different pull requests give different lines. */
  lemma FormatPullRequestInjective(a: Bitbucket.PullRequest, b: Bitbucket.PullRequest)
    requires FormatPullRequest(a) == FormatPullRequest(b)
    ensures a == b
  {
    ParseLineOfFormat(a);
    ParseLineOfFormat(b);
  }

  /** With an identifier of at most seven digits the identifier fills a
      field of exactly eight characters, so titles start in column 10. */
  lemma TitleColumn(pullRequest: Bitbucket.PullRequest)
    requires 0 <= pullRequest.identifier < 10_000_000
    ensures |FormatPullRequest(pullRequest)| == 10 + |pullRequest.title|
    ensures FormatPullRequest(pullRequest)[10..] == pullRequest.title
  {
    assert PyFormat.Power10(7) == 10_000_000;
    PyFormat.DigitsLength(pullRequest.identifier, 7);
    FormatPullRequestParts(pullRequest);
  }

  /** The lines `_format_pull_requests` prints: one per pull request, in
      the order of `sorted` by identifier. */
  function PullRequestLines(pullRequests: seq<Bitbucket.PullRequest>): (lines: seq<string>)
    ensures |lines| == |pullRequests|
  {
    var sorted := Sorting.SortById(pullRequests);
    seq(|sorted|, i requires 0 <= i < |sorted| => FormatPullRequest(sorted[i]))
  }

  /** `_format_pull_requests(pull_requests)`: the loop over the sorted list,
      one line for each pull request. */
  method FormatPullRequests(pullRequests: seq<Bitbucket.PullRequest>) returns (lines: seq<string>)
    ensures lines == PullRequestLines(pullRequests)
  {
    var sorted := Sorting.SortById(pullRequests);
    lines := [];
    for i := 0 to |sorted|
      invariant |lines| == i
      invariant forall j :: 0 <= j < i ==> lines[j] == FormatPullRequest(sorted[j])
    {
      lines := lines + [FormatPullRequest(sorted[i])];
    }
  }

  /** The printed lines read back, in order, as the pull requests sorted
      by identifier. */
  lemma PullRequestLinesMeaning(pullRequests: seq<Bitbucket.PullRequest>)
    ensures var lines := PullRequestLines(pullRequests);
            forall i :: 0 <= i < |lines| ==> ParseLine(lines[i]) == Some(Sorting.SortById(pullRequests)[i])
  {
    var sorted := Sorting.SortById(pullRequests);
    var lines := PullRequestLines(pullRequests);
    forall i | 0 <= i < |lines|
      ensures ParseLine(lines[i]) == Some(sorted[i])
    {
      ParseLineOfFormat(sorted[i]);
    }
  }

  /** The lines show the pull requests in ascending order of identifier,
      each pull request once, and those with one identifier in the order
      the server listed them. */
  lemma PullRequestLinesOrder(pullRequests: seq<Bitbucket.PullRequest>, shown: seq<Bitbucket.PullRequest>)
    requires |shown| == |pullRequests|
    requires forall i :: 0 <= i < |shown| ==> ParseLine(PullRequestLines(pullRequests)[i]) == Some(shown[i])
    ensures Sorting.Ascending(shown)
    ensures multiset(shown) == multiset(pullRequests)
    ensures forall key :: Sorting.WithKey(shown, key) == Sorting.WithKey(pullRequests, key)
  {
    PullRequestLinesMeaning(pullRequests);
    assert shown == Sorting.SortById(pullRequests);
    Sorting.SortAscending(pullRequests);
    Sorting.SortPermutation(pullRequests);
    forall key
      ensures Sorting.WithKey(shown, key) == Sorting.WithKey(pullRequests, key)
    {
      Sorting.SortStable(pullRequests, key);
    }
  }

  /** `pr_list(args)`: the credentials are loaded first, then the
      repository is found, then the pull requests are fetched and printed.
      `HTTPError` ends the run with its text; a document of the wrong
      shape is not caught. The arguments are not looked at. */
  function PrListOutcome(world: World): (outcome: Outcome)
    ensures outcome.Error? || outcome.Crashed? || outcome.Printed?
    ensures outcome.Error? ==> |outcome.message| >= 7 && outcome.message[..7] == "error: "
    ensures outcome.Printed? ==> world.config.Success? && ResolveRepository(world).Success?
  {
    match world.config
    case Failure(message) => Error(ErrorMessage(message))
    case Success(credentials) =>
      var client := Bitbucket.NewClient(credentials.username, credentials.password);
      match ResolveRepository(world)
      case Failure(outcome) => outcome
      case Success(repository) =>
        match Bitbucket.GetPullRequests(client, repository, world.getJson)
        case Failure(error) =>
          if error.RequestFailed? then Error(ErrorMessage(error.error.reason)) else Crashed(error.reason)
        case Success(pullRequests) => Printed(PullRequestLines(pullRequests))
  }

  // ---------------------------------------------------------------------
  // Properties of whole runs
  // ---------------------------------------------------------------------

  lemma UsagesDiffer()
    ensures MainUsage != BrowseUsage && MainUsage != PrUsage && BrowseUsage != PrUsage
  {
    assert |MainUsage| != |BrowseUsage| && |MainUsage| != |PrUsage| && |BrowseUsage| != |PrUsage|;
  }

  /** `bit` alone shows the main usage. */
  lemma MainWithoutCommand(world: World)
    ensures MainOutcome(world, []) == Usage(MainUsage)
  {
  }

  /** The main usage is shown exactly when there is no command or it is
      neither `browse` nor `pr`. */
  lemma MainUsageExactly(world: World, args: seq<string>)
    ensures MainOutcome(world, args) == Usage(MainUsage) <==> args == [] || args[0] !in {"browse", "pr"}
  {
    assert MainCommands.Keys == {"browse", "pr"};
    var d := RunCommand(args, MainCommands, MainUsage);
    if d.Invoke? {
      UsagesDiffer();
    }
  }

  /** `bit browse ...` is `browse` on the arguments after `browse`. */
  lemma MainBrowse(world: World, rest: seq<string>)
    ensures MainOutcome(world, ["browse"] + rest) == BrowseOutcome(world, rest)
  {
    RunKnownCommand("browse", rest, MainCommands, MainUsage);
  }

  /** `bit pr` shows the `pr` usage unless `list` follows; `bit pr list
      ...` lists the pull requests whatever comes after `list`. */
  lemma MainPr(world: World, rest: seq<string>)
    ensures MainOutcome(world, ["pr"] + rest) ==
      if rest != [] && rest[0] == "list" then PrListOutcome(world) else Usage(PrUsage)
  {
    RunKnownCommand("pr", rest, MainCommands, MainUsage);
    assert MainOutcome(world, ["pr"] + rest) == Execute(world, PrCommand, rest);
    assert PrCommands.Keys == {"list"};
    if rest != [] && rest[0] == "list" {
      assert rest == ["list"] + rest[1..];
      RunKnownCommand("list", rest[1..], PrCommands, PrUsage);
      assert RunCommand(rest, PrCommands, PrUsage) == Invoke(PrListCommand, rest[1..]);
      assert Execute(world, PrCommand, rest) == Execute(world, PrListCommand, rest[1..]);
    } else {
      assert RunCommand(rest, PrCommands, PrUsage) == ShowUsage(PrUsage);
    }
  }

  /** Without stored credentials the run ends with the `ConfigError`,
      before the repository is looked for. */
  lemma PrListNeedsCredentials(world: World)
    requires world.config.Failure?
    ensures PrListOutcome(world) == Error(ErrorMessage(world.config.error))
  {
  }

  /** When no remote names a Bitbucket repository, `bit pr list` ends
      with `error: not a Bitbucket repository` and asks the server
      nothing. */
  lemma PrListOutsideBitbucket(world: World, lines: seq<string>)
    requires world.config.Success?
    requires world.gitRemote(Git.WorkTree(world.env, world.cwd)) == Some(lines)
    requires Bitbucket.Repository(Git.Remotes(lines)) == None
    ensures PrListOutcome(world) == Error(ErrorMessage(NotBitbucketRepository))
  {
  }

  /** A failed request ends the run with `error: ` and the error's text. */
  lemma PrListRequestFails(world: World, repository: string, e: Http.HttpError)
    requires world.config.Success?
    requires ResolveRepository(world) == Success(repository)
    requires world.getJson(Bitbucket.PullRequestsRequest(
      Bitbucket.NewClient(world.config.value.username, world.config.value.password), repository)) == Failure(e)
    ensures PrListOutcome(world) == Error(ErrorMessage(e.reason))
  {
  }

  /** When everything succeeds, one line is printed per pull request the
      server returns, sorted by identifier. */
  lemma PrListPrints(world: World, repository: string, pullRequests: seq<Bitbucket.PullRequest>)
    requires world.config.Success?
    requires ResolveRepository(world) == Success(repository)
    requires Bitbucket.GetPullRequests(Bitbucket.NewClient(world.config.value.username, world.config.value.password),
                                       repository, world.getJson) == Success(pullRequests)
    ensures PrListOutcome(world) == Printed(PullRequestLines(pullRequests))
    ensures |PrListOutcome(world).lines| == |pullRequests|
  {
  }

  /** A help option shows the `browse` usage, whatever else is given. */
  lemma BrowseHelp(world: World, args: seq<string>, opts: seq<string>, operands: seq<string>)
    requires world.getopt(args) == Some((opts, operands))
    requires Mentions(opts, HelpFlags)
    ensures BrowseOutcome(world, args) == Usage(BrowseUsage)
  {
  }

  /** With `-u` or `--url`, the page address is printed and the browser is
      left alone. */
  lemma BrowseUrlOnly(world: World, args: seq<string>, opts: seq<string>, repository: string, more: seq<string>)
    requires world.getopt(args) == Some((opts, [repository] + more))
    requires !Mentions(opts, HelpFlags) && Mentions(opts, UrlFlags)
    ensures BrowseOutcome(world, args) == Printed(["https://bitbucket.org/" + repository])
  {
    var url := Bitbucket.RepositoryUrl(repository);
    assert url == url[..|Bitbucket.WebBaseUrl| + 1] + url[|Bitbucket.WebBaseUrl| + 1..];
  }

  /** Without `-u`, the page is opened, or its address printed when the
      browser does not open. */
  lemma BrowseOpens(world: World, args: seq<string>, opts: seq<string>, repository: string, more: seq<string>)
    requires world.getopt(args) == Some((opts, [repository] + more))
    requires !Mentions(opts, HelpFlags) && !Mentions(opts, UrlFlags)
    ensures var url := Bitbucket.RepositoryUrl(repository);
            BrowseOutcome(world, args) == if world.browserOpens(url) then Opened(url) else Printed([url])
  {
  }

  /** A repository given on the command line is used as it is: the
      working tree and its remotes play no part. */
  lemma BrowseOperandOverrides(world: World, args: seq<string>, env: map<string, string>, cwd: string,
                               gitRemote: string -> Option<seq<string>>)
    requires world.getopt(args).Some? && world.getopt(args).value.1 != []
    ensures BrowseOutcome(world, args) == BrowseOutcome(world.(env := env, cwd := cwd, gitRemote := gitRemote), args)
  {
  }

  /** Without an operand and outside a Bitbucket repository, `bit browse`
      ends with `error: not a Bitbucket repository`. */
  lemma BrowseOutsideBitbucket(world: World, args: seq<string>, opts: seq<string>, lines: seq<string>)
    requires world.getopt(args) == Some((opts, []))
    requires !Mentions(opts, HelpFlags)
    requires world.gitRemote(Git.WorkTree(world.env, world.cwd)) == Some(lines)
    requires Bitbucket.Repository(Git.Remotes(lines)) == None
    ensures BrowseOutcome(world, args) == Error(ErrorMessage(NotBitbucketRepository))
  {
  }

  /** Without an operand, `-u` or `--url` prints the page address of the
      repository the working tree's remotes name. */
  lemma BrowseResolvedUrlOnly(world: World, args: seq<string>, opts: seq<string>, lines: seq<string>, repository: string)
    requires world.getopt(args) == Some((opts, []))
    requires !Mentions(opts, HelpFlags) && Mentions(opts, UrlFlags)
    requires world.gitRemote(Git.WorkTree(world.env, world.cwd)) == Some(lines)
    requires Bitbucket.Repository(Git.Remotes(lines)) == Some(repository)
    ensures BrowseOutcome(world, args) == Printed([Bitbucket.RepositoryUrl(repository)])
  {
  }

  /** Without an operand or `-u`, the page of the repository the working
      tree's remotes name is opened, or its address printed when the
      browser does not open. */
  lemma BrowseResolvedOpens(world: World, args: seq<string>, opts: seq<string>, lines: seq<string>, repository: string)
    requires world.getopt(args) == Some((opts, []))
    requires !Mentions(opts, HelpFlags) && !Mentions(opts, UrlFlags)
    requires world.gitRemote(Git.WorkTree(world.env, world.cwd)) == Some(lines)
    requires Bitbucket.Repository(Git.Remotes(lines)) == Some(repository)
    ensures var url := Bitbucket.RepositoryUrl(repository);
            BrowseOutcome(world, args) == if world.browserOpens(url) then Opened(url) else Printed([url])
  {
  }

  lemma FormatSmallPullRequest(identifier: nat, title: string)
    requires identifier < 10
    ensures FormatPullRequest(Bitbucket.PullRequest(identifier, title))
      == "      #" + [PyFormat.DigitChar(identifier)] + "  " + title
  {
    var head := "#" + PyFormat.Str(identifier);
    assert head == "#" + [PyFormat.DigitChar(identifier)];
    assert PyFormat.Fill(head, 8) == "      ";
  }

  lemma SortExample(a: Bitbucket.PullRequest, b: Bitbucket.PullRequest, c: Bitbucket.PullRequest)
    requires a.identifier < b.identifier < c.identifier
    ensures Sorting.SortById([c, a, b]) == [a, b, c]
  {
    assert [b][1..] == [];
    assert Sorting.SortById([b]) == Sorting.Insert(b, []) == [b];
    assert [a, b][1..] == [b];
    assert Sorting.SortById([a, b]) == Sorting.Insert(a, [b]) == [a, b];
    assert [c, a, b][1..] == [a, b];
    assert Sorting.SortById([c, a, b]) == Sorting.Insert(c, [a, b]);
    assert [a, b][1..] == [b] && [b][1..] == [];
    assert Sorting.Insert(c, []) == [c];
    assert Sorting.Insert(c, [b]) == [b] + [c];
    assert Sorting.Insert(c, [a, b]) == [a] + ([b] + [c]);
  }

  /** Pull requests that arrive as `c`, `a`, `b` with increasing
      identifiers `a < b < c` are listed as `a`, `b`, `c`. */
  lemma ListingExample(a: Bitbucket.PullRequest, b: Bitbucket.PullRequest, c: Bitbucket.PullRequest)
    requires a.identifier < b.identifier < c.identifier
    ensures var lines := PullRequestLines([c, a, b]);
            |lines| == 3 && lines[0] == FormatPullRequest(a) && lines[1] == FormatPullRequest(b) && lines[2] == FormatPullRequest(c)
  {
    SortExample(a, b, c);
  }
}
