/** `loadRules` (main.go:58-99): read the rules file line by line, parse
    each line, trim both fields and keep the links whose fields are both
    non-empty, in file order; when the file is missing, optionally write a
    one-rule example file and load again, once.

    The file system is abstract: a `FileState` is either absent or present
    with the lines the scanner delivers and whether it can be opened. */
module RuleLoader {
  import opened Text
  import opened RuleParser

  /** The project homepage the example rule points at (main.go:40). */
  const HOMEPAGE := "https://github.com/soulteary/mini-shortener"

  /** `DEFAULT_RULE` (main.go:40): the whole content of the example file. */
  const DEFAULT_RULE := "\"/ping\" => \"" + HOMEPAGE + "\""

  /** The rules file `./rules`. */
  datatype FileState = Absent | Present(lines: seq<string>, openable: bool)

  /** What `loadRules` ends in: the links, or the `log.Fatal` after a
      failed `os.Open`. */
  datatype LoadOutcome = Loaded(links: seq<Link>) | OpenFailed

  /** One line as the scan loop turns it into a link (main.go:86-88): its
      parse with both fields trimmed. The path is non-empty exactly when
      the line matches the pattern, and then it still starts with `/`. */
  function Normalize(line: string): (link: Link)
    ensures link.from != [] <==> exists m :: IsMatch(line, m)
    ensures link.from != [] ==> link.from[0] == '/'
    ensures link.from == [] ==> link.to == []
    ensures Trimmed(link.from) && Trimmed(link.to)
  {
    var parsed := ParseRules(line);
    Link(TrimSpace(parsed.from), TrimSpace(parsed.to))
  }

  /** The filter of main.go:89. */
  predicate Usable(link: Link) {
    link.from != [] && link.to != []
  }

  /** What the scan loop appends for one line. */
  function KeepLine(line: string): seq<Link> {
    var link := Normalize(line);
    if Usable(link) then [link] else []
  }

  /** What `keep` gives for each line, concatenated in line order. */
  function Collect(keep: string -> seq<Link>, lines: seq<string>): seq<Link>
    decreases |lines|
  {
    if lines == [] then []
    else Collect(keep, lines[..|lines| - 1]) + keep(lines[|lines| - 1])
  }

  /** The links the scan loop collects from `lines`, in order. */
  function Kept(lines: seq<string>): seq<Link> {
    Collect(KeepLine, lines)
  }

  /** The body of the scan loop up to the filter (main.go:86-88). */
  method NormalizeLine(line: string) returns (link: Link)
    ensures link == Normalize(line)
  {
    link := ParseRules(line);
    link := link.(from := TrimSpace(link.from));
    link := link.(to := TrimSpace(link.to));
  }

  /** The scan loop of main.go:84-92. */
  method ScanRules(lines: seq<string>) returns (links: seq<Link>)
    ensures links == Kept(lines)
  {
    links := [];
    var i := 0;
    while i < |lines|
      invariant i <= |lines|
      invariant links == Kept(lines[..i])
    {
      var link := NormalizeLine(lines[i]);
      KeptStep(lines, i, links, KeepLine(lines[i]));
      if link.from != "" && link.to != "" {
        links := links + [link];
      }
      i := i + 1;
    }
    assert lines[..|lines|] == lines;
  }

  lemma KeptStep(lines: seq<string>, i: nat, before: seq<Link>, kept: seq<Link>)
    requires i < |lines| && before == Kept(lines[..i]) && kept == KeepLine(lines[i])
    ensures Kept(lines[..i + 1]) == before + kept
  {
    assert lines[..i + 1][..i] == lines[..i];
  }

  /** `loadRules(tryToCreateExampleRule)`. `writeSucceeds` says whether
      `os.WriteFile` of the example file would succeed. A present file is
      scanned (or is fatal when it cannot be opened); a missing one gives
      no links, unless the example file is written, in which case the
      single retry, with bootstrapping off, loads the one example rule. */
  method LoadRules(fs: FileState, tryToCreateExampleRule: bool, writeSucceeds: bool)
    returns (r: LoadOutcome, after: FileState)
    ensures fs.Present? ==> after == fs
    ensures fs.Present? ==> r == if fs.openable then Loaded(Kept(fs.lines)) else OpenFailed
    ensures fs.Absent? && !(tryToCreateExampleRule && writeSucceeds) ==>
      after == Absent && r == Loaded([])
    ensures fs.Absent? && tryToCreateExampleRule && writeSucceeds ==>
      after == Present([DEFAULT_RULE], true) && r == Loaded([Link("/ping", HOMEPAGE)])
    decreases if tryToCreateExampleRule then 1 else 0
  {
    if fs.Absent? {
      if tryToCreateExampleRule {
        if !writeSucceeds {
          return Loaded([]), fs;
        }
        var written := Present([DEFAULT_RULE], true);
        r, after := LoadRules(written, false, writeSucceeds);
        DefaultRuleKept();
        return;
      }
      return Loaded([]), fs;
    }
    if !fs.openable {
      return OpenFailed, fs;
    }
    var links := ScanRules(fs.lines);
    return Loaded(links), fs;
  }

  /* ----- properties of the scan ----- */

  /** The example file yields exactly the `/ping` rule. */
  lemma DefaultRuleKept()
    ensures Kept([DEFAULT_RULE]) == [Link("/ping", HOMEPAGE)]
  {
    assert Plain(HOMEPAGE) by {
      forall k | 0 <= k < |HOMEPAGE| ensures HOMEPAGE[k] != '"' && HOMEPAGE[k] != '\n' { }
    }
    assert "\"/ping\" => \"" == "\"" + "/ping" + "\"" + " " + "=>" + " " + "\"";
    assert DEFAULT_RULE == RuleLine("/ping", " ", " ", HOMEPAGE);
    assert Trimmed("/ping") && Trimmed(HOMEPAGE);
    KeptCanonicalLine("/ping", HOMEPAGE);
  }

  /** A file holding one rule written as documented yields that rule, when
      neither field has surrounding white space. */
  lemma KeptCanonicalLine(path: string, target: string)
    requires Plain(path) && Plain(target) && Trimmed(path) && Trimmed(target)
    requires |path| >= 2 && path[0] == '/' && target != []
    ensures Kept([RuleLine(path, " ", " ", target)]) == [Link(path, target)]
  {
    var line := RuleLine(path, " ", " ", target);
    CanonicalRuleParses(path, target);
    NormalizeKeepsTrimmed(line);
    KeptSingle(line);
  }

  /** A parse whose fields are already trimmed is kept as it is. */
  lemma NormalizeKeepsTrimmed(line: string)
    requires Trimmed(ParseRules(line).from) && Trimmed(ParseRules(line).to)
    ensures Normalize(line) == ParseRules(line)
  {
  }

  /** A one-line file yields what its line yields. */
  lemma KeptSingle(line: string)
    ensures Kept([line]) == KeepLine(line)
  {
    assert [line][..0] == [];
    assert Collect(KeepLine, [line]) == Collect(KeepLine, []) + KeepLine(line);
  }

  /** A line that does not match contributes nothing; a line that matches
      is dropped only when its target is all white space. */
  lemma KeepLineDrops(line: string)
    ensures KeepLine(line) == [] <==>
      (forall m :: !IsMatch(line, m)) || AllSpace(ParseRules(line).to)
  {
    var parsed := ParseRules(line);
    if parsed.from != [] {
      assert TrimSpace(parsed.from) != [];
    }
  }

  /** Collecting over two parts of a file one after the other gives what
      the first part yields followed by what the second yields. */
  lemma {:induction false} CollectAppend(keep: string -> seq<Link>, front: seq<string>, back: seq<string>)
    ensures Collect(keep, front + back) == Collect(keep, front) + Collect(keep, back)
    decreases |back|
  {
    if back == [] {
      assert front + back == front;
    } else {
      var init := back[..|back| - 1];
      CollectAppend(keep, front, init);
      assert (front + back)[..|front + back| - 1] == front + init;
    }
  }

  /** A link is collected exactly when `keep` yields it for some line. */
  lemma {:induction false} CollectMembers(keep: string -> seq<Link>, lines: seq<string>, link: Link)
    ensures link in Collect(keep, lines) <==> exists k | 0 <= k < |lines| :: link in keep(lines[k])
    decreases |lines|
  {
    if lines != [] {
      var init := lines[..|lines| - 1];
      CollectMembers(keep, init, link);
      if exists k | 0 <= k < |init| :: link in keep(init[k]) {
        var k :| 0 <= k < |init| && link in keep(init[k]);
        assert lines[k] == init[k];
      }
      if exists k | 0 <= k < |lines| :: link in keep(lines[k]) {
        var k :| 0 <= k < |lines| && link in keep(lines[k]);
        if k < |init| {
          assert init[k] == lines[k];
        }
      }
    }
  }

  /** Scanning two parts of a file one after the other gives the links of
      the first part followed by those of the second: file order is kept. */
  lemma KeptAppend(front: seq<string>, back: seq<string>)
    ensures Kept(front + back) == Kept(front) + Kept(back)
  {
    CollectAppend(KeepLine, front, back);
  }

  /** A link is collected exactly when some line normalises to it and
      both of its fields are non-empty. */
  lemma KeptMembers(lines: seq<string>, link: Link)
    ensures link in Kept(lines) <==>
      exists k | 0 <= k < |lines| :: Normalize(lines[k]) == link && Usable(link)
  {
    CollectMembers(KeepLine, lines, link);
    forall k | 0 <= k < |lines|
      ensures link in KeepLine(lines[k]) <==> Normalize(lines[k]) == link && Usable(link)
    {
      KeepLineHas(lines[k], link);
    }
  }

  lemma KeepLineHas(line: string, link: Link)
    ensures link in KeepLine(line) <==> Normalize(line) == link && Usable(link)
  {
  }

  /** Each line contributes at most one link. */
  lemma {:induction false} KeptLength(lines: seq<string>)
    ensures |Kept(lines)| <= |lines|
    decreases |lines|
  {
    if lines != [] {
      KeptLength(lines[..|lines| - 1]);
    }
  }

  /** Every collected link has a path starting with `/`, a non-empty
      target, and no leading or trailing white space in either field. */
  lemma {:induction false} KeptWellFormed(lines: seq<string>)
    ensures forall link | link in Kept(lines) ::
      && link.from != [] && link.from[0] == '/' && link.to != []
      && Trimmed(link.from) && Trimmed(link.to)
    decreases |lines|
  {
    if lines != [] {
      KeptWellFormed(lines[..|lines| - 1]);
    }
  }
}
