# bit: a Dafny model

`bit` is a small command-line helper for Bitbucket. `bit browse` opens, or
prints, the web page of the Bitbucket repository of the current git working
tree. `bit pr list` prints that repository's open pull requests. This project
models its core logic in Dafny and proves properties of it:

- resolving the repository from the output of `git remote --verbose`
  (`bit/git.py`, `bit/bitbucket.py`): the line parser, the three remote URL
  patterns tried in order, the pass over the preferred remote names and the
  fallback pass over all remotes;
- the HTTP Basic `Authorization` header of section 2 of RFC 7617
  (`bit/http.py`), with UTF-8 encoding and the base 64 encoding of section 4
  of RFC 4648 written out, each with its decoder as the partner;
- the pull-request request and the reading of its JSON answer;
- the command line (`bit/cli.py`): the command tables, `bit browse` and its
  options, and `bit pr list` with its stable sort by identifier and its
  `'{:>8}  {}'` lines.

Modules, one per file:

- `Wrappers`: `Option` and `Result`.
- `Bytes`: the `Byte` type.
- `Text`: the character classes of the regular expressions (`\w`, `\s`, `[^\s]`, `[^\.]`), greedy runs and literal text matching.
- `Git`: `bit/git.py`.
- `Utf8` and `Base64`: the encodings.
- `Http`: `bit/http.py`.
- `Bitbucket`: `bit/bitbucket.py`.
- `PyFormat`: `str` of an integer and right alignment.
- `Sorting`: the stable sort by identifier.
- `Cli`: `bit/cli.py`.

Python's `re.match` is modelled by hand for each pattern, not by a general
regular-expression engine. The match is anchored at the start of the string
only. An unescaped `.` matches any character but a newline. `[^\.]+` is
greedy and backtracks: the repository group is the longest prefix of the
dot-free run that is followed by a character other than a newline and then
`git`.

Everything the program does outside itself is a parameter: a `World` value
for the command line, `getJson` for the HTTP request. These are the
environment, the current directory, the output of `git remote --verbose`,
the stored credentials, the HTTP client, the browser and `getopt`. A run ends
in an `Outcome`:

- `Usage` or `Error`: `sys.exit(message)`.
- `Printed` or `Opened`: a normal end.
- `Crashed`: an exception the program does not catch.

`bit browse` and the printing loop of `bit pr list` are methods with loops.
Each is proved equal to a specification function (`BrowseOutcome`,
`PullRequestLines`), and the lemmas are about those functions.

Where the written description of the tool and the code disagree, the model
follows the code:

- A repository name with a dot is not simply cut at its first dot. The group
  is the longest prefix of the dot-free run that is followed by a character
  other than a newline and then `git`. A name is cut at its first dot when
  `git` follows the dot (`git@bitbucket.org:team/my.github-pages.git` gives
  `team/my`, `Bitbucket.ParseSshUrl`). When no such prefix exists there is no
  repository at all (`git@bitbucket.org:team/my.repo.git` gives none,
  `Bitbucket.SshUrlWithDottedName`).
- The name is not required to have the form `owner/name`. Any non-empty
  dot-free text before `.git` is accepted.
- The `.` before `git` matches any character but a newline. So
  `git@bitbucket.org:team/legit` gives `team/l`
  (`Bitbucket.GroupBeforeTrailingGit`, `Bitbucket.SshUrlWithoutSuffix`).
- The unescaped dot in `bitbucket.org` matches any character but a newline too.

## Model

| member | source | states |
|---|---|---|
| Git.WorkTree | bit/git.py:23-24 | the `GIT_WORK_TREE` value when it is set, the current directory otherwise |
| Git.ParseRemote | bit/git.py:39-43 | a parsed remote is well formed (a non-empty word-character name and type, a non-empty whitespace-free URL) and the line starts with it laid out as the pattern requires |
| Git.MatchRemote | bit/git.py:40 | a match splits the line into name, separator, URL, separator, `(type)` and the unmatched rest, each part of its class |
| Git.ParseRemoteLine | bit/git.py:39-43 | name, whitespace, URL, whitespace, `(`, type, `)` and any rest parse to exactly that remote |
| Git.ParseRemoteMeaning | bit/git.py:39-43 | the parser returns `r` if and only if the line matches the pattern as `r`, so the split is unique |
| Git.ParseRemoteAnchored | bit/git.py:40 | a line that is empty or starts with a non-word character gives no remote |
| Git.ParseGitOutput | bit/git.py:34-43 | a line in the layout `git remote --verbose` prints, `name<TAB>url (type)`, parses to its remote |
| Git.ParseLines | bit/git.py:35 | one parse result per line, in order |
| Git.Present | bit/git.py:36 | keeps exactly the parsed remotes |
| Git.PresentAppend | bit/git.py:36 | the filter keeps the order of the lines |
| Git.Remotes | bit/git.py:33-36 | every remote returned is well formed |
| Git.RemotesAppend | bit/git.py:33-36 | the remotes of two blocks of lines are those of the first block followed by those of the second |
| Git.RemotesSingle | bit/git.py:35-36 | one line gives its remote or nothing |
| Git.RemotesFromLines | bit/git.py:33-36 | a remote is returned if and only if some line parses to it |
| Text.Span | bit/bitbucket.py:87-89 | a greedy run of a class: the longest prefix inside the class |
| Text.Plus | bit/git.py:40 | `k+` matches a non-empty prefix in class `k` and stops at the first character outside it |
| Text.MatchText | bit/bitbucket.py:87-89 | literal pattern text matches at the start exactly when the text is at least as long and each pattern character matches the character at its position, an unescaped `.` any character but a newline; what is left is exactly what follows the matched prefix |
| Bitbucket.LongestGroup | bit/bitbucket.py:87-89 | the backtracking of `[^\.]+` before `.git`: the longest end that fits, and no end fits when it finds none |
| Bitbucket.MatchGroup | bit/bitbucket.py:87-89 | the group is the longest dot-free prefix after which `.git` matches, or none fits |
| Bitbucket.UserHead | bit/bitbucket.py:89 | the text left after `https://`, a user and `@bitbucket.org/` is never longer than the URL (`Bitbucket.UserUrlHead` and `Bitbucket.UserHeadSound` give both directions) |
| Bitbucket.MatchHead | bit/bitbucket.py:87-89 | the text left after the part of each pattern before the group is never longer than the URL (`Text.MatchText` states exactly what the first two heads accept; `Bitbucket.UserUrlHead` and `Bitbucket.UserHeadSound` do so for the third) |
| Bitbucket.UserHeadSound | bit/bitbucket.py:89 | a URL on which the third pattern's head leaves `t` is `https://`, a maximal non-empty run of word characters, fifteen characters matching `@bitbucket.org/`, then `t` |
| Bitbucket.MatchPattern | bit/bitbucket.py:87-89 | a repository found by any pattern is non-empty and has no `.` |
| Bitbucket.FirstSome | bit/bitbucket.py:94-98 | the first result that is present, all earlier ones absent; none when all are absent |
| Bitbucket.ParseRepository | bit/bitbucket.py:93-98 | a parsed repository is non-empty and dot-free |
| Bitbucket.ParseRepositoryInOrder | bit/bitbucket.py:86-98 | the patterns are tried in list order and the first match's group is returned |
| Bitbucket.ParseSshUrl | bit/bitbucket.py:87 | `git@bitbucket.org:` + s + `.git` + anything parses to s for non-empty dot-free s |
| Bitbucket.ParseHttpsUrl | bit/bitbucket.py:88 | `https://bitbucket.org/` + s + `.git` + anything parses to s |
| Bitbucket.ParseHttpsUserUrl | bit/bitbucket.py:89 | `https://` + user + `@bitbucket.org/` + s + `.git` + anything parses to s for a non-empty word-character user |
| Bitbucket.UserUrlIsNotHttpsUrl | bit/bitbucket.py:88-89 | a URL with a user never matches the pattern without one |
| Bitbucket.GroupBeforeTrailingGit | bit/bitbucket.py:87-89 | the `.` before `git` is unescaped: any character other than a dot or newline in its place is accepted |
| Bitbucket.SshUrlWithoutSuffix | bit/bitbucket.py:87 | `git@bitbucket.org:team/legit` style URLs give the name without its last four characters |
| Bitbucket.DottedGroup | bit/bitbucket.py:87-89 | when the dot-free run has no `g` and the character after its dot is not `g`, no end of the group fits |
| Bitbucket.SshUrlWithDottedName | bit/bitbucket.py:87 | such a dotted name gives no repository, not the name cut at its dot |
| Bitbucket.ParsedIsTruthy | bit/bitbucket.py:70-74 | the truthiness test on a parsed repository only tests that one was found |
| Bitbucket.ParseEmptyUrl | bit/bitbucket.py:93-98 | the empty URL gives no repository |
| Bitbucket.RemoteUrls | bit/bitbucket.py:67 | the name-to-URL map has exactly the remotes' names, each mapped to the URL of a remote with that name |
| Bitbucket.RemoteUrlsLastWins | bit/bitbucket.py:67 | for a repeated name the URL of the last remote with that name is kept |
| Bitbucket.PreferredFrom | bit/bitbucket.py:68-75 | for any parser standing for `_parse_repository`: the repository of the first name that is present with a non-empty URL that parses; none when no name qualifies |
| Bitbucket.PreferredRepository | bit/bitbucket.py:66-75 | a preferred repository comes from some remote's URL |
| Bitbucket.AnyRepository | bit/bitbucket.py:78-83 | the parse of the first remote whose URL parses; none exactly when no URL parses |
| Bitbucket.Repository | bit/bitbucket.py:54-56 | a repository is found if and only if some remote's URL parses, and it is the parse of some remote's URL |
| Bitbucket.UpstreamWins | bit/bitbucket.py:54-75 | an `upstream` remote whose URL parses decides the answer, whatever the other remotes are |
| Bitbucket.FallbackToAnyRemote | bit/bitbucket.py:54-83 | when no preferred name qualifies, the first remote in list order decides |
| Bitbucket.RepositoryUrl | bit/bitbucket.py:59-60 | the page address is `https://bitbucket.org/` followed by the repository |
| Bitbucket.CloneUrlOfPage | bit/bitbucket.py:59-60 | the page address followed by `.git` parses back to the repository |
| Bitbucket.RepositoryUrlInjective | bit/bitbucket.py:59-60 | different repositories have different pages |
| Bitbucket.PullRequestsUrl | bit/bitbucket.py:33-49 | the address is `https://api.bitbucket.org/2.0/repositories/` + repository + `/pullrequests?fields=values.id,values.title` |
| Bitbucket.RepositoryOfPullRequestsUrl | bit/bitbucket.py:48-49 | a repository read from a request address builds that same address |
| Bitbucket.RepositoryOfPullRequestsUrlOf | bit/bitbucket.py:48-49 | the request address of a repository reads back as that repository |
| Bitbucket.ParsePullRequest | bit/bitbucket.py:29-30 | a pull request is read only from an object with `id` and `title`; anything else is a bad response |
| Bitbucket.ParsePullRequestOf | bit/bitbucket.py:29-30 | an object with a number `id` and a string `title` gives that pull request, whatever other members it has |
| Bitbucket.ParsePullRequestJson | bit/bitbucket.py:29-30 | the JSON form of a pull request reads back as it |
| Bitbucket.ParseAll | bit/bitbucket.py:51 | succeeds if and only if every element reads, then one pull request per element in order; otherwise the error of the first element that does not read |
| Bitbucket.PullRequestsOf | bit/bitbucket.py:50-51 | a result needs an object with `values`; an array is read element by element; other iterable values give nothing or fail as a bad response |
| Bitbucket.NewClient | bit/bitbucket.py:41-44 | the client sends one header, `Authorization`, which reads back as exactly `username:password` |
| Bitbucket.PullRequestsRequest | bit/bitbucket.py:47-50 | the request goes to the repository's pull-requests address with the client's headers |
| Bitbucket.GetPullRequests | bit/bitbucket.py:47-51 | a failed request fails with its error, exactly then; a document that arrives is read by `PullRequestsOf`, whatever other members it has |
| Bitbucket.GetListedPullRequests | bit/bitbucket.py:47-51 | an answer listing pull requests as JSON objects gives back exactly those pull requests in order |
| Utf8.EncodeChar | bit/http.py:29 | one to four bytes, one exactly for ASCII, then continuation bytes |
| Utf8.Encode | bit/http.py:29 | at least one and at most four bytes per character |
| Utf8.Scalar | bit/http.py:29 | a code point read from several bytes is accepted only from the least value that needs that many bytes, and only as a scalar value |
| Utf8.EncodeAppend | bit/http.py:29 | encoding distributes over concatenation |
| Utf8.DecodeEncodeChar | bit/http.py:29 | each character's bytes decode to it |
| Utf8.DecodeEncode | bit/http.py:29 | decoding the UTF-8 encoding gives back the string |
| Utf8.EncodeDecodeChar | bit/http.py:29 | the decoder reads a character only from exactly the bytes that encode it: overlong forms are refused |
| Utf8.EncodeDecode | bit/http.py:29 | every byte string the decoder accepts is the encoding of what it decodes to |
| Utf8.EncodeAscii | bit/http.py:29 | ASCII text is encoded byte for byte |
| Base64.ValueOf | bit/http.py:30 | exactly the 64 alphabet characters have a value, the inverse of the alphabet |
| Base64.ValueOfCharOf | bit/http.py:30 | every value's character is in the alphabet, is not the pad and reads back |
| Base64.Chars | bit/http.py:30 | one character per value |
| Base64.ValuesOfChars | bit/http.py:30 | the characters of values read back as the values |
| Base64.CharsOfValues | bit/http.py:30 | text that reads as values is the characters of those values |
| Base64.GroupBytesOfValues | bit/http.py:30 | the four values of three bytes give back the bytes |
| Base64.GroupValuesOfBytes | bit/http.py:30 | the three bytes of four values give back the values |
| Base64.EncodeValues | bit/http.py:30 | ceil(8n/6) values for n bytes |
| Base64.DecodeEncodeValues | bit/http.py:30 | the values of bytes decode to the bytes |
| Base64.EncodeDecodeValues | bit/http.py:30 | decodable values are the encoding of what they decode to |
| Base64.DecodeValuesLength | bit/http.py:30 | decodable values never number 1 modulo 4, and give 3/4 as many bytes |
| Base64.Padding | bit/http.py:30 | at most two pad characters |
| Base64.Encode | bit/http.py:30 | 4 * ceil(n/3) characters for n bytes |
| Base64.EncodeAlphabet | bit/http.py:30 | alphabet characters, then only pads, and the pads only at the end |
| Base64.DecodeEncode | bit/http.py:30 | decoding the encoding gives back the bytes |
| Base64.EncodeDecode | bit/http.py:30 | every text the decoder accepts is the encoding of what it decodes to: the decoder is the exact inverse |
| Http.BasicAuth | bit/http.py:28-30 | `Basic ` followed by 4 * ceil(n/3) characters for the n UTF-8 bytes of `username:password` |
| Http.ParseBasicAuthOf | bit/http.py:28-30 | the header decodes back to exactly `username:password` |
| Http.BasicAuthPayload | bit/http.py:30 | after `Basic `, alphabet characters, then at most two pads at the end |
| Http.BasicAuthAsciiLength | bit/http.py:28-30 | with ASCII names, 4 * ceil((u + p + 1) / 3) for names of u and p characters, payload characters |
| Http.EmptyCredentials | bit/http.py:28-30 | the empty user name and password give `Basic Og==` |
| Http.UserPass | bit/http.py:29 | the user name, `:`, then the password, each recoverable by position |
| PyFormat.Digits | bit/cli.py:124 | decimal digits, at least one, no leading zero |
| PyFormat.Str | bit/cli.py:124 | a minus sign exactly for a negative number, digits after it |
| PyFormat.ParseIntOfStr | bit/cli.py:124 | the decimal form of a number reads back as that number |
| PyFormat.StrInjective | bit/cli.py:124 | different numbers have different decimal forms |
| PyFormat.DigitsLength | bit/cli.py:124-125 | a number below 10^k has at most k digits |
| PyFormat.AlignRight | bit/cli.py:125 | `{:>8}`: width the larger of 8 and the length of `s`, `s` at the end, spaces before it, never truncated |
| PyFormat.TrimAlignRight | bit/cli.py:125 | dropping the leading spaces gives back text that does not start with a space |
| Sorting.Insert | bit/cli.py:119 | insertion adds the element and keeps every other one |
| Sorting.SortById | bit/cli.py:119 | `sorted(..., key=identifier)`: the same pull requests, each as often, in ascending order; `Sorting.SortByIdIsTheStableSort` shows it is the stable sort |
| Sorting.SortAscending | bit/cli.py:119 | the sorted list is in ascending order of identifier |
| Sorting.SortPermutation | bit/cli.py:119 | the sorted list holds the same pull requests, each as often |
| Sorting.SortStable | bit/cli.py:119 | the pull requests with one identifier keep their input order |
| Sorting.StableSortUnique | bit/cli.py:119 | two ascending arrangements that keep each identifier's order are equal |
| Sorting.SortByIdIsTheStableSort | bit/cli.py:119 | any ascending arrangement that keeps each identifier's order is the sort's result |
| Cli.RunCommand | bit/cli.py:92-99 | usage shows the table's own message; a command found is invoked with the arguments after the first |
| Cli.RunKnownCommand | bit/cli.py:96-99 | a known first argument invokes its command with exactly the rest |
| Cli.RunCommandUsage | bit/cli.py:94-98 | usage exactly when there is no argument or the first is not in the table |
| Cli.Execute | bit/cli.py:60-66 | a command run shows no usage but the `browse` and `pr` ones (`Cli.MainPr` gives the `pr` table's dispatch) |
| Cli.MainOutcome | bit/cli.py:85-86 | `bit` shows no usage but its three own (`Cli.MainUsageExactly`, `Cli.MainBrowse` and `Cli.MainPr` give the dispatch) |
| Cli.UsagesDiffer | bit/cli.py:28-77 | the three usage messages are different |
| Cli.MainWithoutCommand | bit/cli.py:85-95 | `bit` alone shows the main usage |
| Cli.MainUsageExactly | bit/cli.py:79-99 | the main usage is shown exactly when the first argument is missing or is neither `browse` nor `pr` |
| Cli.MainBrowse | bit/cli.py:79-86 | `bit browse ...` runs `browse` on the rest |
| Cli.MainPr | bit/cli.py:60-66 | `bit pr list ...` runs `pr list`; any other `bit pr ...` shows the `pr` usage |
| Cli.ErrorMessage | bit/cli.py:148-149 | `error: ` followed by the message |
| Cli.NotBitbucketRepositoryMessage | bit/cli.py:136-149 | the error is `error: not a Bitbucket repository` |
| Cli.ResolveRepository | bit/cli.py:136-141 | with the working tree's remote lines, the repository they give, or `error: not a Bitbucket repository` when they give none; a failing `git` is a crash |
| Cli.Show | bit/cli.py:110-115 | the page is opened exactly when opening is asked for and the browser opens it; otherwise its address is printed |
| Cli.BrowseOutcome | bit/cli.py:33-46 | `browse` shows no usage but its own and prints at most the one address (`Cli.BrowseHelp`, `Cli.BrowseUrlOnly`, `Cli.BrowseOpens`, `Cli.BrowseResolvedUrlOnly`, `Cli.BrowseResolvedOpens`, `Cli.BrowseOperandOverrides` and `Cli.BrowseOutsideBitbucket` give its cases) |
| Cli.Browse | bit/cli.py:33-46 | the option loop with its early exit on help computes the outcome of `browse` |
| Cli.BrowseHelp | bit/cli.py:37-38 | a help option shows the `browse` usage |
| Cli.BrowseUrlOnly | bit/cli.py:39-46 | with an operand and `-u` or `--url`, the address of the operand's page is printed, not opened |
| Cli.BrowseOpens | bit/cli.py:41-46 | with an operand and no `-u`, the operand's page is opened, or its address printed when the browser does not open |
| Cli.BrowseResolvedUrlOnly | bit/cli.py:39-46 | without an operand, `-u` or `--url` prints the page address of the repository the working tree's remotes name |
| Cli.BrowseResolvedOpens | bit/cli.py:41-46 | without an operand or `-u`, the page of the repository the working tree's remotes name is opened, or its address printed when the browser does not open |
| Cli.BrowseOperandOverrides | bit/cli.py:41 | an operand names the repository; the working tree and its remotes play no part |
| Cli.BrowseOutsideBitbucket | bit/cli.py:136-141 | without an operand and outside a Bitbucket repository, `browse` fails with `error: not a Bitbucket repository` |
| Cli.FirstSpace | bit/cli.py:125 | the index of the first space: no space before it, a space at it, or the end when there is none |
| Cli.FormatPullRequest | bit/cli.py:123-125 | a line of at least 10 characters ending in two spaces and the title (`Cli.FormatPullRequestParts` gives the fill and `#`, `Cli.ParseLineOfFormat` reads it back) |
| Cli.FormatPullRequestParts | bit/cli.py:123-125 | a line is the fill, `#`, the identifier, two spaces and the title |
| Cli.ParseLineOfFormat | bit/cli.py:123-125 | a printed line reads back as its pull request |
| Cli.FormatPullRequestInjective | bit/cli.py:123-125 | different pull requests print different lines |
| Cli.TitleColumn | bit/cli.py:125 | for identifiers below 10^7 the title starts in column 10 |
| Cli.FormatSmallPullRequest | bit/cli.py:123-125 | a one-digit identifier is printed after six spaces and `#` |
| Cli.PullRequestLines | bit/cli.py:118-120 | one line per pull request |
| Cli.FormatPullRequests | bit/cli.py:118-120 | the printing loop prints the lines of the sorted list |
| Cli.PullRequestLinesMeaning | bit/cli.py:118-125 | line i reads back as the i-th pull request of the sorted list |
| Cli.PullRequestLinesOrder | bit/cli.py:118-125 | the printed pull requests are ascending, the same pull requests, with each identifier's in input order |
| Cli.SortExample | bit/cli.py:119 | pull requests that come as 3, 1, 2 are sorted to 1, 2, 3 |
| Cli.ListingExample | bit/cli.py:118-125 | pull requests that come as 3, 1, 2 are printed as 1, 2, 3 |
| Cli.PrListOutcome | bit/cli.py:49-53 | `pr list` ends in an `error: ` exit, a crash or the printed lines, and prints only with credentials and a repository (`Cli.PrListNeedsCredentials`, `Cli.PrListOutsideBitbucket`, `Cli.PrListRequestFails` and `Cli.PrListPrints` give its cases) |
| Cli.PrListNeedsCredentials | bit/cli.py:128-132 | without credentials, `pr list` fails with the configuration's error |
| Cli.PrListOutsideBitbucket | bit/cli.py:49-53 | outside a Bitbucket repository, `pr list` fails with `error: not a Bitbucket repository` |
| Cli.PrListRequestFails | bit/cli.py:50-53 | a failed request ends in `error: ` and its reason |
| Cli.PrListPrints | bit/cli.py:49-53 | otherwise the pull requests' lines are printed, one per pull request |

## Left out

- `http.get_json` (bit/http.py:33-41): the network request and JSON decoding are the parameter `getJson`. A failure is an `HttpError` with a reason.
- Exceptions `get_json` does not convert (bit/http.py:35-41 converts only `URLError` and `JSONDecodeError`), such as a `UnicodeDecodeError` from `json.load` on a body that is not UTF-8: they end `bit pr list` in a traceback, which the `getJson` parameter cannot express.
- JSON numbers are integers here. Floats do not occur in the pull-request answer.
- Bitbucket.ParsePullRequest: an `id` that is not a number or a `title` that is not a string is a bad response here; Python would build the pull request anyway and fail, or not, later when formatting.
- Bitbucket.PullRequestsOf: an answer of the wrong shape is an exception the program does not catch, modelled as `Crashed` with a short reason rather than a traceback.
- `bit/config.py` is not part of this model. `config.load()` is the `World` field `config`: credentials, or the text of a `ConfigError`. The prompting, reading and writing of the configuration file are left out.
- A configuration file without a `[default]` section or without one of its keys: `_parse` (bit/config.py:76-79) then raises a `configparser` error outside the `try` of `_read`, and `_client` catches only `ConfigError`, so `bit pr list` ends in a traceback. The `config` field cannot express this crash.
- The `subprocess` call of `git remote --verbose` and `os.getcwd()`: the output lines, the environment and the current directory are given. A failing `git` is `Crashed`.
- `webbrowser.open`: the `World` field `browserOpens`. A `webbrowser.Error` and a `False` result are the same here, as in `_browse`.
- The internals of `getopt.getopt`: the `World` field `getopt`, the options by name and the operands, or `None` for a `GetoptError`.
- `sys.exit` and printing: the `Outcome` a run ends with.
- Text.IsWordChar: `\w` is ASCII letters, digits and `_`; Python 3's `\w` also matches other Unicode letters and digits.
- `bit pr list` ignores its own arguments, as `pr_list` does.
- setup.py: packaging only.
