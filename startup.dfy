/** The program's two globals, `links` and `appPort` (main.go:55-56), and
    the start-up in `init` (main.go:130-160) that fills them. */
module Startup {
  import opened Wrappers
  import opened Text
  import opened RuleParser
  import opened RuleLoader
  import opened Routing
  import opened PortConfig

  /** The mutable state of the running program. */
  class Service {
    /** The routing table: request path to redirect target. */
    var links: map<string, string>
    /** The port the server will listen on. */
    var appPort: int

    /** The state before `init`: an empty table and the default port. */
    constructor ()
      ensures links == map[] && appPort == DEFAULT_PORT
    {
      links := map[];
      appPort := DEFAULT_PORT;
    }

    /** main.go:134-153: `appPort` already holds the flag value; the parsed
        environment value replaces it when it differs from the default port
        and some argument does not mention `--port`, or there are none. */
    method SelectPort(env: Option<int>, args: seq<string>)
      modifies this
      ensures appPort == PortRule(old(appPort), env, args)
      ensures links == old(links)
    {
      var portEnv := if env.Some? then env.value else appPort;
      if |args| == 0 {
        if portEnv != DEFAULT_PORT {
          appPort := portEnv;
        }
      } else {
        for i := 0 to |args|
          invariant links == old(links)
          invariant appPort ==
            if portEnv != DEFAULT_PORT && exists k | 0 <= k < i :: !Contains(args[k], PORT_FLAG)
            then portEnv else old(appPort)
        {
          if !Contains(args[i], PORT_FLAG) {
            if portEnv != DEFAULT_PORT {
              appPort := portEnv;
            }
          }
        }
      }
    }

    /** main.go:155-158: each loaded link is written into the table in
        order, a later link overwriting an earlier one with the same path. */
    method AddLinks(rules: seq<Link>)
      modifies this
      ensures links == TableOf(old(links), rules)
      ensures appPort == old(appPort)
    {
      for i := 0 to |rules|
        invariant links == TableOf(old(links), rules[..i])
        invariant appPort == old(appPort)
      {
        assert rules[..i + 1][..i] == rules[..i];
        links := links[rules[i].from := rules[i].to];
      }
      assert rules[..|rules|] == rules;
    }

    /** `init` after `flag.Parse`: port selection, then `loadRules(true)`
        and the table build. `ok` is false when the rules file exists but
        cannot be opened, where the program stops with `log.Fatal` before
        touching the table; `after` is the rules file afterwards. */
    method Init(flagPort: int, env: Option<int>, args: seq<string>, fs: FileState, writeSucceeds: bool)
      returns (ok: bool, after: FileState)
      modifies this
      ensures appPort == PortRule(flagPort, env, args)
      ensures ok <==> !(fs.Present? && !fs.openable)
      ensures !ok ==> links == old(links)
      ensures fs.Present? ==> after == fs
      ensures fs.Present? && fs.openable ==> links == TableOf(old(links), Kept(fs.lines))
      ensures fs.Absent? && writeSucceeds ==>
        after == Present([DEFAULT_RULE], true)
        && links == TableOf(old(links), [Link("/ping", HOMEPAGE)])
      ensures fs.Absent? && !writeSucceeds ==> after == Absent && links == old(links)
    {
      appPort := flagPort;
      SelectPort(env, args);
      var outcome;
      outcome, after := LoadRules(fs, true, writeSucceeds);
      if outcome.OpenFailed? {
        return false, after;
      }
      AddLinks(outcome.links);
      ok := true;
    }
  }

  /* ----- start-up scenarios ----- */

  /** With no rules file and a successful write of the example, `/ping`
      redirects to the project homepage and every other path gets the
      fixed body. */
  lemma BootstrapRoutes(path: string)
    ensures Route(TableOf(map[], [Link("/ping", HOMEPAGE)]), "/ping")
      == Redirect(STATUS_TEMPORARY_REDIRECT, HOMEPAGE)
    ensures path != "/ping" ==>
      Route(TableOf(map[], [Link("/ping", HOMEPAGE)]), path) == Body(STATUS_OK, DEFAULTS)
  {
    var rules := [Link("/ping", HOMEPAGE)];
    RouteLoaded(map[], rules, 0);
    if path != "/ping" {
      RouteUnknown(map[], rules, path);
    }
  }

  /** Two documented rules for the same path: the later line wins. */
  lemma DuplicateRuleLastWins(path: string, first: string, second: string)
    requires Plain(path) && Plain(first) && Plain(second)
    requires Trimmed(path) && Trimmed(first) && Trimmed(second)
    requires |path| >= 2 && path[0] == '/' && first != [] && second != []
    ensures var lines := [RuleLine(path, " ", " ", first), RuleLine(path, " ", " ", second)];
      Route(TableOf(map[], Kept(lines)), path) == Redirect(STATUS_TEMPORARY_REDIRECT, second)
  {
    var one := RuleLine(path, " ", " ", first);
    var two := RuleLine(path, " ", " ", second);
    KeptCanonicalLine(path, first);
    KeptCanonicalLine(path, second);
    KeptAppend([one], [two]);
    assert [one] + [two] == [one, two];
    var rules := [Link(path, first), Link(path, second)];
    assert Kept([one, two]) == rules;
    RouteLoaded(map[], rules, 1);
  }
}
