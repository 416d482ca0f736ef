/** `parseRules` and `ruleRegexp` (main.go:101-114): one rule line is matched
    against the pattern `"(\/.+)".s*=>.s*"(.+)"` with Go's `regexp`
    semantics, and the two capture groups become the `Link`.

    A match is described by five positions in the line (a `Span`):

        "  /...  "  .  s...  =>  .  s...  "  ...  "
        ^start   ^fromEnd    ^arrow      ^toStart ^toEnd

    `.` is any character except a newline; `s*` is the LITERAL letter `s`
    repeated, so exactly one arbitrary character stands on each side of
    `=>`. The match is not anchored. Among all matches Go picks the
    leftmost-first one: the earliest start, then the one a backtracking
    matcher tries first, i.e. the greedy choice (the largest position) for
    each quantified piece in turn. */
module RuleParser {
  import opened Wrappers

  /** The Go struct `Link`; the zero value has both fields empty. */
  datatype Link = Link(from: string, to: string)

  /** Every character of s[lo..hi] matches `.`. */
  predicate AllDot(s: string, lo: nat, hi: nat)
    requires lo <= hi <= |s|
  {
    forall k | lo <= k < hi :: s[k] != '\n'
  }

  /** Every character of s[lo..hi] is the letter `s`. */
  predicate AllS(s: string, lo: nat, hi: nat)
    requires lo <= hi <= |s|
  {
    forall k | lo <= k < hi :: s[k] == 's'
  }

  /** `"(\/.+)"` occupies s[i..a+1]; the first capture is s[i+1..a]. */
  predicate HeadAt(s: string, i: nat, a: nat) {
    i + 3 <= a < |s| && s[i] == '"' && s[i + 1] == '/' && AllDot(s, i + 2, a) && s[a] == '"'
  }

  /** `(.+)"` occupies s[c+1..d+1] after the opening quote at c. */
  predicate ToEndAt(s: string, c: nat, d: nat) {
    c + 2 <= d < |s| && AllDot(s, c + 1, d) && s[d] == '"'
  }

  /** `.s*=>.s*"(.+)"` occupies s[a+1..d+1], with `=>` at b and the quote
      that opens the second capture at c. */
  predicate TailAt(s: string, a: nat, b: nat, c: nat, d: nat) {
    && a + 2 <= b && b + 3 <= c && c < |s|
    && s[a + 1] != '\n' && AllS(s, a + 2, b) && s[b] == '=' && s[b + 1] == '>'
    && s[b + 2] != '\n' && AllS(s, b + 3, c) && s[c] == '"'
    && ToEndAt(s, c, d)
  }

  datatype Span = Span(start: nat, fromEnd: nat, arrow: nat, toStart: nat, toEnd: nat)

  /** The whole pattern matches s[m.start..m.toEnd+1] as described by m. */
  predicate IsMatch(s: string, m: Span) {
    HeadAt(s, m.start, m.fromEnd) && TailAt(s, m.fromEnd, m.arrow, m.toStart, m.toEnd)
  }

  /** m is at least as preferred as n by Go's leftmost-first rule: an
      earlier start wins; at the same start the greedy quantifiers prefer
      the larger position, piece by piece from left to right. */
  predicate Preferred(m: Span, n: Span) {
    || m.start < n.start
    || (m.start == n.start &&
        (|| m.fromEnd > n.fromEnd
         || (m.fromEnd == n.fromEnd &&
             (|| m.arrow > n.arrow
              || (m.arrow == n.arrow &&
                  (|| m.toStart > n.toStart
                   || (m.toStart == n.toStart && m.toEnd >= n.toEnd)))))))
  }

  /** The match Go's `FindStringSubmatch` reports. */
  ghost predicate IsLeftmostFirst(s: string, m: Span) {
    IsMatch(s, m) && forall n | IsMatch(s, n) :: Preferred(m, n)
  }

  /** The captures of a match: `match[1]` and `match[2]`. */
  function Captures(s: string, m: Span): Link
    requires IsMatch(s, m)
  {
    Link(s[m.start + 1..m.fromEnd], s[m.toStart + 1..m.toEnd])
  }

  /** Two distinct matches are never both preferred to each other, so the
      leftmost-first match is unique. */
  lemma LeftmostFirstUnique(s: string, m: Span, n: Span)
    requires IsLeftmostFirst(s, m) && IsLeftmostFirst(s, n)
    ensures m == n
  {
    assert Preferred(m, n) && Preferred(n, m);
  }

  /* ----- the matcher ----- */

  /** The end of the run of letters `s` that begins at k. */
  function SkipS(s: string, k: nat): (r: nat)
    requires k <= |s|
    ensures k <= r <= |s| && AllS(s, k, r) && (r == |s| || s[r] != 's')
    decreases |s| - k
  {
    if k == |s| || s[k] != 's' then k else SkipS(s, k + 1)
  }

  /** The greedy `(.+)"`: the largest d <= hi that closes the second capture. */
  function LastToEnd(s: string, c: nat, hi: nat): (r: Option<nat>)
    requires hi < |s|
    ensures r.Some? ==> r.value <= hi && ToEndAt(s, c, r.value)
    ensures forall d: nat | d <= hi && ToEndAt(s, c, d) :: r.Some? && d <= r.value
    decreases hi
  {
    if hi < c + 2 then None
    else if ToEndAt(s, c, hi) then Some(hi)
    else LastToEnd(s, c, hi - 1)
  }

  /** The part of the pattern after the first capture, once the quote that
      closes it is fixed at a. Since `s*` cannot run over `=` or `"`, the
      arrow and the opening quote of the target are determined by a; only
      the target's end is a real choice, and the greedy one is taken. */
  function TailFrom(s: string, a: nat): (r: Option<(nat, nat, nat)>)
    requires a < |s|
    ensures r.Some? ==> TailAt(s, a, r.value.0, r.value.1, r.value.2)
    ensures forall b: nat, c: nat, d: nat | TailAt(s, a, b, c, d) ::
      r.Some? && b == r.value.0 && c == r.value.1 && d <= r.value.2
  {
    if a + 1 == |s| || s[a + 1] == '\n' then None
    else
      var b := SkipS(s, a + 2);
      if b + 2 >= |s| || s[b] != '=' || s[b + 1] != '>' || s[b + 2] == '\n' then None
      else
        var c := SkipS(s, b + 3);
        if c == |s| || s[c] != '"' then None
        else
          match LastToEnd(s, c, |s| - 1)
          case None => None
          case Some(d) => Some((b, c, d))
  }

  /** The preferred match starting at i whose first capture closes at or
      before hi: the greedy `.+` tries the largest closing quote first. */
  function LastFromEnd(s: string, i: nat, hi: nat): (r: Option<Span>)
    requires hi < |s|
    ensures r.Some? ==> IsMatch(s, r.value) && r.value.start == i && r.value.fromEnd <= hi
    ensures forall n | IsMatch(s, n) && n.start == i && n.fromEnd <= hi ::
      r.Some? && Preferred(r.value, n)
    decreases hi
  {
    if hi < i + 3 then None
    else if HeadAt(s, i, hi) then
      match TailFrom(s, hi)
      case Some((b, c, d)) => Some(Span(i, hi, b, c, d))
      case None => LastFromEnd(s, i, hi - 1)
    else LastFromEnd(s, i, hi - 1)
  }

  /** The preferred match among those starting at i or later. */
  function FirstMatchFrom(s: string, i: nat): (r: Option<Span>)
    requires i <= |s|
    ensures r.Some? ==> IsMatch(s, r.value) && i <= r.value.start
    ensures r.Some? ==> forall n | IsMatch(s, n) && i <= n.start :: Preferred(r.value, n)
    ensures r.None? ==> forall n | IsMatch(s, n) :: n.start < i
    decreases |s| - i
  {
    if i == |s| then None
    else
      match LastFromEnd(s, i, |s| - 1)
      case Some(m) => Some(m)
      case None => FirstMatchFrom(s, i + 1)
  }

  /** `ruleRegexp.FindStringSubmatch`: the leftmost-first match if there is
      any match at all. */
  function FindMatch(s: string): (r: Option<Span>)
    ensures r.Some? ==> IsLeftmostFirst(s, r.value)
    ensures r.None? <==> forall n :: !IsMatch(s, n)
  {
    FirstMatchFrom(s, 0)
  }

  /** `parseRules`: the captures of the leftmost-first match, or the zero
      `Link` when the line does not match. A match always yields a path of
      at least two characters starting with `/` and a non-empty target. */
  function ParseRules(input: string): (link: Link)
    ensures forall m | IsLeftmostFirst(input, m) :: link == Captures(input, m)
    ensures link.from == [] <==> forall m :: !IsMatch(input, m)
    ensures link.from == [] ==> link == Link("", "")
    ensures link.from != [] ==> |link.from| >= 2 && link.from[0] == '/' && link.to != []
  {
    match FindMatch(input)
    case Some(m) =>
      forall n | IsLeftmostFirst(input, n) ensures n == m {
        LeftmostFirstUnique(input, n, m);
      }
      Captures(input, m)
    case None => Link("", "")
  }

  /* ----- what the pattern accepts on lines of the documented shape ----- */

  /** Holds no `"` and no newline. */
  predicate Plain(x: string) {
    forall k | 0 <= k < |x| :: x[k] != '"' && x[k] != '\n'
  }

  /** What `.s*` accepts: one character, then only letters `s`. */
  predicate Separator(x: string) {
    |x| >= 1 && forall k | 1 <= k < |x| :: x[k] == 's'
  }

  /** A line `"path"` left `=>` right `"target"`. */
  function RuleLine(path: string, left: string, right: string, target: string): string {
    "\"" + path + "\"" + left + "=>" + right + "\"" + target + "\""
  }

  /** Where each piece of a `RuleLine` sits; with a = |path| + 1 the closing
      quote of the path, b the `=` of the arrow, c and d the quotes around
      the target. */
  lemma RuleLineLayout(path: string, left: string, right: string, target: string)
    ensures var L := RuleLine(path, left, right, target);
      var a := |path| + 1; var b := a + 1 + |left|; var c := b + 2 + |right|; var d := c + 1 + |target|;
      && |L| == d + 1
      && L[0] == '"' && L[a] == '"' && L[b] == '=' && L[b + 1] == '>' && L[c] == '"' && L[d] == '"'
      && L[1..a] == path && L[c + 1..d] == target
      && (forall k | 1 <= k < a :: L[k] == path[k - 1])
      && (forall k | a < k < b :: L[k] == left[k - a - 1])
      && (forall k | b + 1 < k < c :: L[k] == right[k - b - 2])
      && (forall k | c < k < d :: L[k] == target[k - c - 1])
  {
    var L := RuleLine(path, left, right, target);
    var a := |path| + 1;
    var b := a + 1 + |left|;
    var c := b + 2 + |right|;
    assert L == ['"'] + path + ['"'] + left + ['=', '>'] + right + ['"'] + target + ['"'];
  }

  /** On a `RuleLine` whose pieces are plain, every match uses the four quotes and the one arrow of the line. */
  lemma RuleLineMatchIsFixed(path: string, left: string, right: string, target: string, n: Span)
    requires Plain(path) && Plain(left) && Plain(right) && Plain(target)
    requires IsMatch(RuleLine(path, left, right, target), n)
    ensures var a := |path| + 1; var b := a + 1 + |left|; var c := b + 2 + |right|;
      n == Span(0, a, b, c, c + 1 + |target|)
  {
    var L := RuleLine(path, left, right, target);
    var a := |path| + 1;
    var b := a + 1 + |left|;
    var c := b + 2 + |right|;
    var d := c + 1 + |target|;
    RuleLineLayout(path, left, right, target);
    forall k | 0 <= k < |L| && L[k] == '"' ensures k == 0 || k == a || k == c || k == d { }
    assert L[n.start] == '"' && L[n.fromEnd] == '"' && L[n.toStart] == '"' && L[n.toEnd] == '"';
    assert n.start == 0 && n.fromEnd == a && n.toStart == c && n.toEnd == d;
  }

  /** The line's own decomposition is a match exactly when the path has at
      least two characters and starts with `/`, each separator is one
      character followed by letters `s`, and the target is not empty. */
  lemma RuleLineMatchesWhen(path: string, left: string, right: string, target: string)
    requires Plain(path) && Plain(left) && Plain(right) && Plain(target)
    ensures var a := |path| + 1; var b := a + 1 + |left|; var c := b + 2 + |right|;
      IsMatch(RuleLine(path, left, right, target), Span(0, a, b, c, c + 1 + |target|))
      <==> |path| >= 2 && path[0] == '/' && Separator(left) && Separator(right) && target != []
  {
    var L := RuleLine(path, left, right, target);
    var a := |path| + 1;
    var b := a + 1 + |left|;
    var c := b + 2 + |right|;
    var d := c + 1 + |target|;
    RuleLineLayout(path, left, right, target);
    if |path| >= 2 {
      assert L[1] == path[0];
      assert AllDot(L, 2, a) by {
        forall k | 2 <= k < a ensures L[k] != '\n' {
          assert L[k] == path[k - 1];
        }
      }
    }
    if |left| >= 1 {
      assert L[a + 1] == left[0];
      assert AllS(L, a + 2, b) <==> forall k | 1 <= k < |left| :: left[k] == 's' by {
        forall k | 1 <= k < |left| ensures left[k] == L[a + 1 + k] { }
        forall k | a + 2 <= k < b ensures L[k] == left[k - a - 1] { }
      }
    }
    if |right| >= 1 {
      assert L[b + 2] == right[0];
      assert AllS(L, b + 3, c) <==> forall k | 1 <= k < |right| :: right[k] == 's' by {
        forall k | 1 <= k < |right| ensures right[k] == L[b + 2 + k] { }
        forall k | b + 3 <= k < c ensures L[k] == right[k - b - 2] { }
      }
    }
    assert AllDot(L, c + 1, d) by {
      forall k | c + 1 <= k < d ensures L[k] != '\n' {
        assert L[k] == target[k - c - 1];
      }
    }
  }

  /** The complete behaviour of `parseRules` on lines `"path"` left `=>`
      right `"target"` whose pieces hold no quote or newline: the path
      and target come back unchanged when the path has at least two characters and starts with `/`, each
      separator is exactly one character followed only by letters `s`, and
      the target is not empty; otherwise the line is rejected. */
  lemma ParseRuleLine(path: string, left: string, right: string, target: string)
    requires Plain(path) && Plain(left) && Plain(right) && Plain(target)
    ensures ParseRules(RuleLine(path, left, right, target)) ==
      if |path| >= 2 && path[0] == '/' && Separator(left) && Separator(right) && target != []
      then Link(path, target) else Link("", "")
  {
    var L := RuleLine(path, left, right, target);
    var a := |path| + 1;
    var b := a + 1 + |left|;
    var c := b + 2 + |right|;
    var m := Span(0, a, b, c, c + 1 + |target|);
    RuleLineMatchesWhen(path, left, right, target);
    forall n | IsMatch(L, n) ensures n == m {
      RuleLineMatchIsFixed(path, left, right, target, n);
    }
    if IsMatch(L, m) {
      assert Preferred(m, m);
      assert IsLeftmostFirst(L, m);
      RuleLineLayout(path, left, right, target);
      assert Captures(L, m) == Link(path, target);
    }
  }

  /** A line written as documented, `"path" => "target"` with one space on
      each side of the arrow, yields exactly its path and target. */
  lemma CanonicalRuleParses(path: string, target: string)
    requires Plain(path) && Plain(target)
    requires |path| >= 2 && path[0] == '/' && target != []
    ensures ParseRules(RuleLine(path, " ", " ", target)) == Link(path, target)
  {
    ParseRuleLine(path, " ", " ", target);
  }

  /** No character between the path and the arrow: rejected, because `.`
      must consume one. */
  lemma NoSeparatorRejected()
    ensures ParseRules("\"/a\"=>\"b\"") == Link("", "")
  {
    assert "\"/a\"=>\"b\"" == RuleLine("/a", "", "", "b");
    ParseRuleLine("/a", "", "", "b");
  }

  /** Two spaces on each side of the arrow: rejected, because after the one
      character `.` takes, `s*` accepts only letters `s`. */
  lemma DoubleSpaceRejected()
    ensures ParseRules("\"/a\"  =>  \"b\"") == Link("", "")
  {
    assert "\"/a\"  =>  \"b\"" == RuleLine("/a", "  ", "  ", "b");
    assert !Separator("  ") by {
      assert "  "[1] != 's';
    }
    ParseRuleLine("/a", "  ", "  ", "b");
  }

  /** One character then letters `s` on each side of the arrow: accepted,
      since `s*` is the literal letter and not white space. */
  lemma LetterSeparatorAccepted()
    ensures ParseRules("\"/a\"xsss=>ysss\"b\"") == Link("/a", "b")
  {
    assert "\"/a\"xsss=>ysss\"b\"" == RuleLine("/a", "xsss", "ysss", "b");
    ParseRuleLine("/a", "xsss", "ysss", "b");
  }

  /** The bare root path: rejected, because `\/.+` needs a character after
      the slash. */
  lemma RootPathRejected()
    ensures ParseRules("\"/\" => \"x\"") == Link("", "")
  {
    assert "\"/\" => \"x\"" == RuleLine("/", " ", " ", "x");
    ParseRuleLine("/", " ", " ", "x");
  }
}
