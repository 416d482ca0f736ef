/** The routing table filled at start-up (main.go:155-158) and the
    hit/miss decision of the request handler `route` (main.go:116-127). */
module Routing {
  import opened RuleParser

  /** `http.StatusTemporaryRedirect`. */
  const STATUS_TEMPORARY_REDIRECT := 307

  /** The status `w.Write` sends when no header was written first. */
  const STATUS_OK := 200

  /** `defaults` (main.go:116): the body of every request without a rule. */
  const DEFAULTS := "Silence is gold"

  /** What the handler answers: a redirect or a plain body. */
  datatype Response = Redirect(status: int, location: string) | Body(status: int, payload: string)

  /** The map after `links[link.From] = link.To` for each link in order,
      starting from `base`. */
  function TableOf(base: map<string, string>, links: seq<Link>): map<string, string>
    decreases |links|
  {
    if links == [] then base
    else
      var last := links[|links| - 1];
      TableOf(base, links[..|links| - 1])[last.from := last.to]
  }

  /** `route`: an exact lookup of the request path. A hit redirects with
      status 307 to the mapped target; a miss answers the fixed body. */
  function Route(table: map<string, string>, path: string): (resp: Response)
    ensures resp.Redirect? <==> path in table
    ensures resp.Redirect? ==> resp == Redirect(STATUS_TEMPORARY_REDIRECT, table[path])
    ensures resp.Body? ==> resp == Body(STATUS_OK, DEFAULTS)
  {
    if path in table then Redirect(STATUS_TEMPORARY_REDIRECT, table[path])
    else Body(STATUS_OK, DEFAULTS)
  }

  /* ----- properties of the table ----- */

  /** A path is a key of the table exactly when it was one before or some
      link has it as its path. */
  lemma {:induction false} TableKeys(base: map<string, string>, links: seq<Link>, path: string)
    ensures path in TableOf(base, links) <==>
      path in base || exists j | 0 <= j < |links| :: links[j].from == path
    decreases |links|
  {
    if links != [] {
      var init := links[..|links| - 1];
      TableKeys(base, init, path);
      if exists j | 0 <= j < |init| :: init[j].from == path {
        var j :| 0 <= j < |init| && init[j].from == path;
        assert links[j].from == path;
      }
      if exists j | 0 <= j < |links| :: links[j].from == path {
        var j :| 0 <= j < |links| && links[j].from == path;
        if j < |init| {
          assert init[j].from == path;
        }
      }
    }
  }

  /** Last write wins: the value for a link's path is that link's target
      when no later link has the same path. */
  lemma {:induction false} TableLastWins(base: map<string, string>, links: seq<Link>, j: nat)
    requires j < |links|
    requires forall k | j < k < |links| :: links[k].from != links[j].from
    ensures links[j].from in TableOf(base, links)
    ensures TableOf(base, links)[links[j].from] == links[j].to
    decreases |links|
  {
    var init := links[..|links| - 1];
    if j < |init| {
      forall k | j < k < |init| ensures init[k].from != init[j].from {
        assert init[k] == links[k];
      }
      TableLastWins(base, init, j);
      assert init[j] == links[j];
    }
  }

  /** A path that no link names keeps whatever the table held before. */
  lemma {:induction false} TableUntouched(base: map<string, string>, links: seq<Link>, path: string)
    requires forall j | 0 <= j < |links| :: links[j].from != path
    ensures path in TableOf(base, links) <==> path in base
    ensures path in base ==> TableOf(base, links)[path] == base[path]
    decreases |links|
  {
    if links != [] {
      var init := links[..|links| - 1];
      forall j | 0 <= j < |init| ensures init[j].from != path {
        assert init[j] == links[j];
      }
      TableUntouched(base, init, path);
    }
  }

  /* ----- the handler over a built table ----- */

  /** A request for the path of a link that no later link overrides is
      redirected to that link's target. */
  lemma RouteLoaded(base: map<string, string>, links: seq<Link>, j: nat)
    requires j < |links|
    requires forall k | j < k < |links| :: links[k].from != links[j].from
    ensures Route(TableOf(base, links), links[j].from)
      == Redirect(STATUS_TEMPORARY_REDIRECT, links[j].to)
  {
    TableLastWins(base, links, j);
  }

  /** A request for a path that no link names and that the table did not
      hold before gets the fixed body. */
  lemma RouteUnknown(base: map<string, string>, links: seq<Link>, path: string)
    requires path !in base
    requires forall j | 0 <= j < |links| :: links[j].from != path
    ensures Route(TableOf(base, links), path) == Body(STATUS_OK, DEFAULTS)
  {
    TableUntouched(base, links, path);
  }
}
