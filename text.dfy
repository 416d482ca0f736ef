/** The optional value used where the Go code returns a value together with
    an `ok` flag or an error (a map lookup, `strconv.Atoi`). */
module Wrappers {
  datatype Option<T> = None | Some(value: T)
}

/** The two functions of Go's `strings` package that the core relies on:
    `TrimSpace` and `Contains`, on strings as sequences of code points. */
module Text {

  /** Go's `unicode.IsSpace`: the Unicode White_Space property. */
  predicate IsSpace(c: char) {
    var n := c as int;
    (9 <= n <= 13) || n == 32 || n == 0x85 || n == 0xA0 || n == 0x1680
    || (0x2000 <= n <= 0x200A) || n == 0x2028 || n == 0x2029 || n == 0x202F
    || n == 0x205F || n == 0x3000
  }

  predicate AllSpace(s: string) {
    forall k | 0 <= k < |s| :: IsSpace(s[k])
  }

  /** A string with neither leading nor trailing white space. */
  predicate Trimmed(s: string) {
    s == [] || (!IsSpace(s[0]) && !IsSpace(s[|s| - 1]))
  }

  /** The index of the first non-space character at or after k, or |s|. */
  function SkipSpace(s: string, k: nat): (n: nat)
    requires k <= |s|
    ensures k <= n <= |s|
    ensures forall j | k <= j < n :: IsSpace(s[j])
    ensures n == |s| || !IsSpace(s[n])
    decreases |s| - k
  {
    if k == |s| || !IsSpace(s[k]) then k else SkipSpace(s, k + 1)
  }

  /** One past the last non-space character before k, or 0. */
  function SkipSpaceBack(s: string, k: nat): (n: nat)
    requires k <= |s|
    ensures n <= k
    ensures forall j | n <= j < k :: IsSpace(s[j])
    ensures n == 0 || !IsSpace(s[n - 1])
    decreases k
  {
    if k == 0 || !IsSpace(s[k - 1]) then k else SkipSpaceBack(s, k - 1)
  }

  /** `strings.TrimSpace`: the infix of `s` left after removing all leading
      and trailing white space. It starts at the first non-space character,
      everything after it is space, it is empty exactly when `s` is all
      space, and it keeps a string that is already trimmed. */
  function TrimSpace(s: string): (r: string)
    ensures Trimmed(r)
    ensures var lo := SkipSpace(s, 0);
      && lo + |r| <= |s| && r == s[lo..lo + |r|]
      && forall j | lo + |r| <= j < |s| :: IsSpace(s[j])
    ensures r == [] <==> AllSpace(s)
    ensures s != [] && !IsSpace(s[0]) ==> r != [] && r[0] == s[0]
    ensures Trimmed(s) ==> r == s
  {
    var lo := SkipSpace(s, 0);
    if lo == |s| then []
    else
      var hi := SkipSpaceBack(s, |s|);
      s[lo..hi]
  }

  /** `strings.Contains`: `sub` occurs somewhere in `s`. */
  predicate Contains(s: string, sub: string) {
    sub <= s || (s != [] && Contains(s[1..], sub))
  }

  /** A string shorter than `sub` does not contain it. */
  lemma {:induction false} ShortNeverContains(s: string, sub: string)
    requires |s| < |sub|
    ensures !Contains(s, sub)
  {
    if s != [] {
      ShortNeverContains(s[1..], sub);
    }
  }
}
