/** Port selection in `init` (main.go:134-153), once `flag.Parse`,
    `os.Getenv("PORT")` and `strconv.Atoi` have produced their results. */
module PortConfig {
  import opened Wrappers
  import opened Text

  /** `DEFAULT_PORT` (main.go:38). */
  const DEFAULT_PORT := 8901

  /** The substring that marks an argument as a port flag (main.go:147). */
  const PORT_FLAG := "--port"

  /** The argument list lets the environment through: it is empty, or one
      of its arguments does not mention `--port`. */
  predicate EnvAllowed(args: seq<string>) {
    |args| == 0 || exists k | 0 <= k < |args| :: !Contains(args[k], PORT_FLAG)
  }

  /** The port `init` ends with. `flagPort` is `appPort` after
      `flag.Parse`; `env` is the parsed `PORT` variable, `None` when it is
      unset or not a number. The environment wins when it parses, differs
      from the default port, and the arguments let it through; otherwise
      the flag value stays. */
  function PortRule(flagPort: int, env: Option<int>, args: seq<string>): int {
    if env.Some? && env.value != DEFAULT_PORT && EnvAllowed(args) then env.value
    else flagPort
  }

  /* ----- consequences of the rule ----- */

  /** An unset or unparsable `PORT` leaves the flag value, whatever the
      arguments. */
  lemma {:induction false} UnsetEnvKeepsFlag(flagPort: int, args: seq<string>)
    ensures PortRule(flagPort, None, args) == flagPort
  {
  }

  /** `PORT` set to the default port never changes anything. */
  lemma {:induction false} DefaultEnvKeepsFlag(flagPort: int, args: seq<string>)
    ensures PortRule(flagPort, Some(DEFAULT_PORT), args) == flagPort
  {
  }

  /** When every argument mentions `--port`, the flag value stays. */
  lemma {:induction false} PortFlagArgsKeepFlag(flagPort: int, env: Option<int>, args: seq<string>)
    requires |args| > 0
    requires forall k | 0 <= k < |args| :: Contains(args[k], PORT_FLAG)
    ensures PortRule(flagPort, env, args) == flagPort
  {
  }

  /** `--port 9000` written as two arguments loses to `PORT=7000`: the
      argument `9000` does not mention `--port`. */
  lemma SplitPortFlagLoses()
    ensures PortRule(9000, Some(7000), ["--port", "9000"]) == 7000
  {
    var args := ["--port", "9000"];
    ShortNeverContains(args[1], PORT_FLAG);
    assert !Contains(args[1], PORT_FLAG);
    assert EnvAllowed(args);
  }

  /** `--port=9000` written as one argument keeps 9000 against `PORT=7000`. */
  lemma JoinedPortFlagWins()
    ensures PortRule(9000, Some(7000), ["--port=9000"]) == 9000
  {
    assert PORT_FLAG <= "--port=9000";
  }
}
