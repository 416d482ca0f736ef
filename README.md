# mini-shortener: rule ingestion and routing core

mini-shortener is a small redirect service. At start-up it:

1. picks its listening port from the `--port` flag, the `PORT` environment variable and the default 8901;
2. reads a line-oriented rules file `./rules`, where each line has the form `"/path" => "target"`;
3. writes a one-rule example file when the rules file is missing;
4. fills a map from path to target.

A request for a known path is answered with a 307 redirect to its target. Any other path gets the body `Silence is gold`.

This project models that core in Dafny:

- `text.dfy`:
  - `Wrappers.Option`.
  - `Text.TrimSpace`, with Go's `unicode.IsSpace` set written out.
  - `Text.Contains`.
- `rule_parser.dfy`: `parseRules` and `ruleRegexp`.
  - The pattern `"(\/.+)".s*=>.s*"(.+)"` is described by a predicate over five positions in the line (`IsMatch`).
  - Go's leftmost-first choice among matches is `IsLeftmostFirst`.
  - An executable search, `FindMatch`, is proved to return exactly that match.
  - `ParseRuleLine` is a complete characterisation of what the pattern accepts on lines written as `"path"` + separator + `=>` + separator + `"target"`, when none of the four pieces holds a `"` or a newline. A line with more quotes can match differently: `"/a" => "b" => "c"` yields the path `/a" => "b` and the target `c`, because the first capture is greedy.
- `rule_loader.dfy`: `loadRules` over an abstract file state. The file is either absent, or present with the lines the scanner delivers and whether it can be opened.
  - The scan loop is a method proved equal to the specification function `Kept`.
  - The bootstrap branch is modelled by recursion with bootstrapping switched off.
- `routing.dfy`:
  - The routing table as last-write-wins insertion (`TableOf`).
  - The handler's hit/miss decision (`Route`).
- `port.dfy`: the closed form of the port selection (`PortRule`).
- `startup.dfy`: the program's two globals, `links` and `appPort`, as the fields of the class `Service`. Its methods:
  - `SelectPort`: the argument loop that may reassign `appPort`.
  - `AddLinks`: the loop that fills the map.
  - `Init`: the whole of `init` after `flag.Parse`.

The model follows the code wherever it differs from the natural reading of the rule format and the port options:

- **The arrow.** A `\s*` reading of the pattern would tolerate any white space around `=>`. The pattern uses `.s*`, not `\s*`, so exactly one arbitrary character, then only letters `s`, stands on each side of the arrow.
  - `"/a"=>"b"` is rejected, and so is `"/a"  =>  "b"`.
  - `"/a"xsss=>ysss"b"` is accepted.
- **Port precedence.** A reading in which an explicit `--port` flag always beats `PORT` does not hold. In the code, `PORT` wins whenever it parses, differs from 8901, and some argument does not contain `--port`, or there are no arguments.
  - So `--port 9000`, given as two arguments, loses to `PORT=7000`.
  - `--port=9000` as the only argument keeps 9000.
- **Unparsable `PORT`.** An unparsable `PORT` leaves the flag value rather than falling back to the default.
- **No range check.** The port is never checked against the range 1-65535.

## Model

| member | source | states |
|---|---|---|
| Text.TrimSpace | main.go:87-88 | The trimmed string is a contiguous slice of the input. It starts at the first non-space character and has only spaces after it. It has no leading or trailing space. It is empty exactly when the input is all space. An already trimmed string is kept unchanged. |
| Text.ShortNeverContains | main.go:147 | A string shorter than `sub` never contains it. This is the `strings.Contains` fact used for short arguments. |
| RuleParser.FindMatch | main.go:101-104 | The search returns a match exactly when the pattern matches somewhere in the line. The match it returns is the leftmost-first one, i.e. preferred to every other match. |
| RuleParser.LeftmostFirstUnique | main.go:101-104 | The leftmost-first match of a line is unique, so the two captures are well defined. |
| RuleParser.ParseRules | main.go:103-114 | The result is the two captures of the leftmost-first match. The path is empty exactly when nothing matches, and then the whole `Link` is the zero value. A match always gives a path of at least two characters starting with `/`, and a non-empty target. |
| RuleParser.RuleLineMatchIsFixed | main.go:101 | On a line `"path"` sep `=>` sep `"target"` whose pieces hold no quote or newline, every match uses the line's own four quotes and its arrow. |
| RuleParser.RuleLineMatchesWhen | main.go:101 | That decomposition is a match exactly when the path starts with `/` and has at least two characters, each separator is one character followed only by letters `s`, and the target is non-empty. |
| RuleParser.ParseRuleLine | main.go:101-113 | On such lines, `parseRules` returns path and target unchanged exactly when that condition holds, and the zero `Link` otherwise. This covers both directions. |
| RuleParser.CanonicalRuleParses | main.go:101-108 | `"p" => "t"`, with one space on each side of the arrow, yields `From = p` and `To = t` whenever p starts with `/`, \|p\| >= 2, t is non-empty, and neither holds a quote or newline. |
| RuleParser.NoSeparatorRejected | main.go:101-113 | `"/a"=>"b"` yields the zero `Link`. |
| RuleParser.DoubleSpaceRejected | main.go:101-113 | `"/a"  =>  "b"` yields the zero `Link`. |
| RuleParser.LetterSeparatorAccepted | main.go:101-108 | `"/a"xsss=>ysss"b"` yields `("/a", "b")`: `s*` is the literal letter. |
| RuleParser.RootPathRejected | main.go:101-113 | `"/" => "x"` yields the zero `Link`. |
| RuleLoader.Normalize | main.go:86-88 | A trimmed parse has a non-empty path exactly when the line matches. That path starts with `/`. A non-matching line also has an empty target. Both fields are trimmed. |
| RuleLoader.NormalizeLine | main.go:86-88 | The loop body's parse-then-trim equals `Normalize`. |
| RuleLoader.ScanRules | main.go:84-92 | The scan loop returns exactly `Kept(lines)`: the in-order trimmed parses of the lines whose fields are both non-empty. |
| RuleLoader.LoadRules | main.go:58-99 | A present file is left as it is. It yields `Kept` of its lines, or the fatal outcome when it cannot be opened. An absent file yields no links when bootstrapping is off or the write fails. Otherwise the file becomes the one example line, and the single retry yields `[("/ping", homepage)]`. |
| RuleLoader.DefaultRuleKept | main.go:40 | The example file content yields exactly the link `("/ping", "https://github.com/soulteary/mini-shortener")`. |
| RuleLoader.KeptCanonicalLine | main.go:84-92 | A one-line file `"p" => "t"` with trimmed, plain p and t yields exactly `[(p, t)]`. |
| RuleLoader.NormalizeKeepsTrimmed | main.go:87-88 | Trimming leaves a parse whose fields have no surrounding space unchanged. |
| RuleLoader.KeepLineDrops | main.go:86-89 | A line contributes nothing exactly when it does not match, or when its captured target is all white space. A matched path is never trimmed to empty. |
| RuleLoader.KeepLineHas | main.go:86-91 | A line contributes a link exactly when its trimmed parse is that link and both fields are non-empty. |
| RuleLoader.KeptAppend | main.go:85-92 | Scanning a file split in two gives the links of the first part followed by those of the second, so file order is kept. |
| RuleLoader.KeptMembers | main.go:85-92 | A link is collected exactly when some line's trimmed parse is that link with both fields non-empty. |
| RuleLoader.KeptLength | main.go:85-92 | No more links than lines. |
| RuleLoader.KeptWellFormed | main.go:87-90 | Every collected link has a path starting with `/` and a non-empty target, with neither field carrying leading or trailing white space. |
| Routing.Route | main.go:118-127 | A path in the table gets a 307 redirect to its mapped target. Any other path gets status 200 with body `Silence is gold`. |
| Routing.TableKeys | main.go:155-158 | After the build, a path is a key exactly when it was one before or some link has it as its path. |
| Routing.TableLastWins | main.go:155-158 | The value for a link's path is that link's target when no later link has the same path: last write wins. |
| Routing.TableUntouched | main.go:155-158 | A path that no link names keeps its presence and value from before the build. |
| Routing.RouteLoaded | main.go:118-121 | After the build, a request for the path of the last link with that path redirects, with status 307, to that link's target. |
| Routing.RouteUnknown | main.go:122-126 | A path that no link names, and that the table did not hold, gets the fixed body. |
| PortConfig.UnsetEnvKeepsFlag | main.go:134-138 | An unset or unparsable `PORT` leaves the flag value, whatever the arguments. |
| PortConfig.DefaultEnvKeepsFlag | main.go:141-151 | `PORT=8901` never changes the port. |
| PortConfig.PortFlagArgsKeepFlag | main.go:146-152 | When every argument contains `--port`, the flag value stays. |
| PortConfig.SplitPortFlagLoses | main.go:146-152 | With `PORT=7000`, the arguments `--port 9000` give 7000. |
| PortConfig.JoinedPortFlagWins | main.go:146-152 | With `PORT=7000`, the single argument `--port=9000` gives 9000. |
| Startup.Service.constructor | main.go:55-56 | The program starts with an empty table and port 8901. |
| Startup.Service.SelectPort | main.go:134-153 | After the argument loop, `appPort` is `PortRule` of its previous value, the parsed environment and the arguments. The table is unchanged. |
| Startup.Service.AddLinks | main.go:155-158 | After the loop, the table is `TableOf` of the old table and the links. The port is unchanged. |
| Startup.Service.Init | main.go:130-160 | The port is `PortRule` of the inputs. Start-up fails only on an unopenable present file, and then the table is untouched. A present file fills the table from `Kept` of its lines. An absent file leaves the table unchanged, or adds the `/ping` rule and creates the example file when the write succeeds. |
| Startup.BootstrapRoutes | main.go:40 | After bootstrapping, `/ping` redirects to the project homepage and every other path gets the fixed body. |
| Startup.DuplicateRuleLastWins | main.go:155-158 | A file with two rules for the same path routes that path to the second rule's target. |

## Left out

- The server lifecycle in `main` (main.go:162-196) is not modelled: the listener goroutine, signal handling, the shutdown timeout and `ListenAndServe`. It is concurrency and network I/O.
- `os.Stat`, `os.WriteFile`, `os.Open` and `file.Close` are replaced by the abstract `FileState`, with a flag saying whether the write succeeds.
  - A file that was written successfully is assumed to be openable on the retry.
  - An error from `Close` is not modelled.
- `bufio.Scanner` is not modelled: its line splitting, `\r` handling, token size limit and read errors. The file is given as the sequence of lines the scanner delivers. A scan error is a shorter sequence, i.e. the lines read before it.
- `log.Fatal` after a failed open is an outcome value (`OpenFailed`, or `ok == false` in `Init`), not a process exit.
- The internals of `http.Redirect` and `w.Write` are not modelled: Location escaping, relative-URL resolution, the HTML body of the redirect, and write errors. Only the redirect/body decision with its status is modelled.
- `flag.Parse`, `os.Getenv("PORT")` and `strconv.Atoi` are inputs to `Init`: the flag value and an optional parsed integer.
- Logging, the version package and the message constants are left out.
- Strings are sequences of code points. Go's byte-level UTF-8 handling of invalid input is not modelled.
