/** Normalizing a manifest and a lock file: what is rewritten, what is kept, and what cannot be seen. */
module ManifestNormalization {
  import opened TextLines
  import opened VersionNormalization

  // --- the enumerated fields --------------------------------------------------

  const WORKSPACE_SECTION: string := "[workspace.package]"
  const DEPENDENCY_SECTION: string := "[dependencies]"
  const PLAIN: string := "0.0.0"
  const EXACT: string := "=0.0.0"

  // `workspace`: this is the root manifest; `allowed`: the internal dependencies of this one.
  datatype Rules = Rules(workspace: bool, allowed: set<string>)

  function RulesFor(path: string): Rules {
    Rules(path == "Cargo.toml",
          if path == "crates/toktier/Cargo.toml" then
            {"toktier-routing-core", "toktier-cuda-driver", "toktier-store-core", "toktier-store-sqlite"}
          else if path == "crates/toktier-py/Cargo.toml" then
            {"toktier-routing-core", "toktier-store-core", "toktier-store-sqlite"}
          else if path == "crates/toktier-routing-core/Cargo.toml" then
            {"toktier-gigatoken-core", "toktier-cuda-driver", "toktier-store-core"}
          else if path == "crates/toktier-store-sqlite/Cargo.toml" then {"toktier-store-core"}
          else {})
  }

  // No enumerated name could be mistaken for the start of a section header.
  ghost predicate PlainNames(rules: Rules) {
    forall k :: k in rules.allowed ==> k != "" && k[0] != '['
  }

  lemma RulesArePlain(path: string)
    ensures PlainNames(RulesFor(path))
  {
    var t := "toktier-";
    forall k | k in RulesFor(path).allowed
      ensures k != "" && k[0] != '['
    {
      assert k[0] == 't';
    }
  }

  // --- one manifest line ------------------------------------------------------

  predicate IsHeader(line: string) {
    var s := Strip(line); |s| > 0 && s[0] == '[' && s[|s| - 1] == ']'
  }

  function NextSection(section: string, line: string): string { if IsHeader(line) then Strip(line) else section }

  datatype Site = NoSite | WorkspaceVersion(span: Span) | DependencyVersion(span: Span)

  predicate InWorkspace(rules: Rules, section: string, line: string) {
    rules.workspace && section == WORKSPACE_SECTION && Key(line) == VERSION
  }

  predicate PathBehindKey(line: string) { HasEquals(line) && HasPathField(line[EqualsAt(line) + 1..]) }

  predicate InDependencies(rules: Rules, section: string, line: string) {
    section == DEPENDENCY_SECTION && Key(line) in rules.allowed && PathBehindKey(line)
  }

  // Where a line is rewritten, `section` being the one the line stands in.
  function SiteOf(rules: Rules, word: char -> bool, section: string, line: string): (r: Site)
    ensures r != NoSite ==> 2 <= r.span.start <= r.span.stop < |line| && line[r.span.stop] == '"'
  {
    if InWorkspace(rules, section, line) then
      if AssignmentSpan(line).Some? then WorkspaceVersion(AssignmentSpan(line).value) else NoSite
    else if InDependencies(rules, section, line) && VersionSpan(word, line).Some? then
      DependencyVersion(VersionSpan(word, line).value)
    else NoSite
  }

  function NormLine(rules: Rules, word: char -> bool, section: string, line: string): string {
    match SiteOf(rules, word, section, line)
    case NoSite => line
    case WorkspaceVersion(span) => Splice(line, span, PLAIN)
    case DependencyVersion(span) => Splice(line, span, EXACT)
  }

  // A value that may stand at a site: without a quote or a line break, and for a dependency with its `=`.
  predicate Fits(site: Site, v: string) {
    NoneOf(v, '"') && NoBreaks(v) && (site.DependencyVersion? ==> VersionValue(v))
  }

  // --- the site of a rewritten line -------------------------------------------

  lemma HeadHasEquals(word: char -> bool, line: string, p: nat)
    requires HeadAt(word, line, p).Some?
    ensures EqualsAt(line) < HeadAt(word, line, p).value
  {
  }

  lemma VersionBehindKey(word: char -> bool, line: string)
    requires VersionSpan(word, line).Some?
    ensures EqualsAt(line) < VersionSpan(word, line).value.start
  {
    hide HeadAt, FindFrom, VersionFrom;
    var p := FirstMatch(word, line, 0);
    HeadHasEquals(word, line, p);
  }

  lemma SameKey(line: string, f: string, n: nat)
    requires n <= |line| && n <= |f| && line[..n] == f[..n] && EqualsAt(line) < n
    ensures EqualsAt(f) == EqualsAt(line) && Key(f) == Key(line)
  {
    hide FindFrom, Strip;
    SamePrefixFind(line, f, '=', 0, n);
    assert f[..EqualsAt(line)] == f[..n][..EqualsAt(line)] == line[..n][..EqualsAt(line)] == line[..EqualsAt(line)];
  }

  lemma SiteKey(rules: Rules, word: char -> bool, section: string, line: string)
    requires PlainNames(rules) && SiteOf(rules, word, section, line) != NoSite
    ensures Key(line) != "" && Key(line)[0] != '[' && !IsHeader(line)
    ensures EqualsAt(line) < SiteOf(rules, word, section, line).span.start
  {
    hide Strip, VersionSpan, SkipSpace, FindFrom, HasPathField;
    KeyStartsLine(line);
    if SiteOf(rules, word, section, line).DependencyVersion? {
      VersionBehindKey(word, line);
    }
  }

  lemma RewrittenLine(rules: Rules, word: char -> bool, section: string, line: string, v: string)
    requires PlainNames(rules) && SiteOf(rules, word, section, line) != NoSite
    requires Fits(SiteOf(rules, word, section, line), v)
    ensures var site := SiteOf(rules, word, section, line);
            var f := Splice(line, site.span, v);
            var span := Span(site.span.start, site.span.start + |v|);
            && Key(f) == Key(line) && !IsHeader(f) && !IsHeader(line)
            && (site.WorkspaceVersion? ==> SiteOf(rules, word, section, f) == WorkspaceVersion(span))
            && (site.DependencyVersion? ==>
                  SiteOf(rules, word, section, f) == if PathBehindKey(f) then DependencyVersion(span) else NoSite)
  {
    hide Strip, VersionSpan, AssignmentSpan, SkipSpace, FindFrom, PathBehindKey, Splice;
    var site := SiteOf(rules, word, section, line);
    var f := Splice(line, site.span, v);
    SpliceFacts(line, site.span, v);
    SiteKey(rules, word, section, line);
    SameKey(line, f, site.span.start);
    KeyStartsLine(f);
    if site.WorkspaceVersion? {
      AssignmentSurvives(line, v);
    } else {
      VersionSurvives(word, line, v);
    }
  }

  // `b` is `a`, or `a` with another value at its site.
  ghost predicate RefilledLine(rules: Rules, word: char -> bool, section: string, a: string, b: string) {
    b == a || (SiteOf(rules, word, section, a) != NoSite
               && exists v ::
                    Fits(SiteOf(rules, word, section, a), v) && b == Splice(a, SiteOf(rules, word, section, a).span, v))
  }

  // The normal line is the same exactly when the new value leaves the site a site, or is the
  // normal one already.
  lemma RefilledLineNormal(rules: Rules, word: char -> bool, section: string, a: string, b: string)
    requires PlainNames(rules) && RefilledLine(rules, word, section, a, b)
    ensures NormLine(rules, word, section, b) == NormLine(rules, word, section, a) <==>
              RecognizedLine(rules, word, section, a, b)
  {
    hide Splice, SiteOf, IsHeader, PlainNames, Fits;
    if b != a {
      var site := SiteOf(rules, word, section, a);
      var v :| Fits(site, v) && b == Splice(a, site.span, v);
      RewrittenLine(rules, word, section, a, v);
      SpliceTwice(a, site.span, v, PLAIN);
      SpliceTwice(a, site.span, v, EXACT);
    }
  }

  lemma NormalFits(site: Site)
    ensures site.WorkspaceVersion? ==> Fits(site, PLAIN)
    ensures site.DependencyVersion? ==> Fits(site, EXACT)
  {
  }

  lemma NormalLineIsRefill(rules: Rules, word: char -> bool, section: string, line: string)
    ensures RefilledLine(rules, word, section, line, NormLine(rules, word, section, line))
  {
    hide SiteOf, Splice, Fits;
    NormalFits(SiteOf(rules, word, section, line));
  }

  // --- a manifest, as lines ---------------------------------------------------

  function NormLines(rules: Rules, word: char -> bool, section: string, lines: seq<string>): (r: seq<string>)
    ensures |r| == |lines|
    decreases |lines|
  {
    if lines == [] then []
    else
      var now := NextSection(section, lines[0]);
      [NormLine(rules, word, now, lines[0])] + NormLines(rules, word, now, lines[1..])
  }

  ghost predicate Refilled(rules: Rules, word: char -> bool, section: string, a: seq<string>, b: seq<string>)
    decreases |a|
  {
    |a| == |b| &&
    (a == [] ||
     (var now := NextSection(section, a[0]);
      RefilledLine(rules, word, now, a[0], b[0]) && Refilled(rules, word, now, a[1..], b[1..])))
  }

  // Every refilled line still passes the test on its path field, or holds the normal value.
  ghost predicate Recognized(rules: Rules, word: char -> bool, section: string, a: seq<string>, b: seq<string>)
    requires |a| == |b|
    decreases |a|
  {
    a == [] ||
    (var now := NextSection(section, a[0]);
     RecognizedLine(rules, word, now, a[0], b[0]) && Recognized(rules, word, now, a[1..], b[1..]))
  }

  ghost predicate RecognizedLine(rules: Rules, word: char -> bool, section: string, a: string, b: string) {
    b == a || SiteOf(rules, word, section, a).WorkspaceVersion? || PathBehindKey(b)
        || b == NormLine(rules, word, section, a)
  }

  lemma ConsEqual(x: string, y: string, xs: seq<string>, ys: seq<string>)
    ensures [x] + xs == [y] + ys <==> x == y && xs == ys
  {
    if [x] + xs == [y] + ys {
      assert ([x] + xs)[0] == x && ([y] + ys)[0] == y;
      assert ([x] + xs)[1..] == xs && ([y] + ys)[1..] == ys;
    }
  }

  // Filling the enumerated sites with other values does not change the normal form, exactly when
  // every refilled site is still recognized.
  lemma {:induction false} BlindToVersions(rules: Rules, word: char -> bool, section: string, a: seq<string>,
                                           b: seq<string>)
    requires PlainNames(rules) && Refilled(rules, word, section, a, b)
    ensures NormLines(rules, word, section, a) == NormLines(rules, word, section, b) <==>
              Recognized(rules, word, section, a, b)
    decreases |a|
  {
    hide NextSection, NormLine, SiteOf, RefilledLine, PlainNames, RecognizedLine;
    if a != [] {
      var now := NextSection(section, a[0]);
      RefilledLineNormal(rules, word, now, a[0], b[0]);
      RefilledLineSection(rules, word, section, now, a[0], b[0]);
      BlindToVersions(rules, word, now, a[1..], b[1..]);
      ConsEqual(NormLine(rules, word, now, a[0]), NormLine(rules, word, now, b[0]),
                NormLines(rules, word, now, a[1..]), NormLines(rules, word, now, b[1..]));
    }
  }

  // A refill neither makes nor breaks a section header.
  lemma RefilledLineSection(rules: Rules, word: char -> bool, section: string, now: string, a: string, b: string)
    requires PlainNames(rules) && RefilledLine(rules, word, now, a, b)
    ensures NextSection(section, b) == NextSection(section, a)
  {
    hide Splice, SiteOf, IsHeader, PlainNames, Fits;
    if b != a {
      var site := SiteOf(rules, word, now, a);
      var v :| Fits(site, v) && b == Splice(a, site.span, v);
      RewrittenLine(rules, word, now, a, v);
    }
  }

  // The normal lines are a refill of the lines, so everything outside the enumerated values stays.
  lemma {:induction false} NormalIsRefill(rules: Rules, word: char -> bool, section: string, lines: seq<string>)
    requires PlainNames(rules)
    ensures Refilled(rules, word, section, lines, NormLines(rules, word, section, lines))
    ensures Recognized(rules, word, section, lines, NormLines(rules, word, section, lines))
    decreases |lines|
  {
    hide NextSection, NormLine, SiteOf, RefilledLine, PlainNames, PathBehindKey;
    if lines != [] {
      var now := NextSection(section, lines[0]);
      NormalLineIsRefill(rules, word, now, lines[0]);
      NormalIsRefill(rules, word, now, lines[1..]);
    }
  }

  // --- a manifest, as text ----------------------------------------------------

  function Normalize(rules: Rules, word: char -> bool, text: string): string {
    Join(NormLines(rules, word, "", SplitLines(text)))
  }

  // `_normalize_manifest`: one pass over the lines, the section carried along.
  method NormalizeManifest(path: string, word: char -> bool, text: string) returns (output: string)
    ensures output == Normalize(RulesFor(path), word, text)
  {
    hide RulesFor, NextSection, NormLine, SplitLines;
    var rules, lines := RulesFor(path), SplitLines(text);
    var section, out := "", [];
    for i := 0 to |lines|
      invariant out + NormLines(rules, word, section, lines[i..]) == NormLines(rules, word, "", lines)
    {
      ghost var before, rest := out, lines[i..];
      assert rest[0] == lines[i] && rest[1..] == lines[i + 1..];
      section := NextSection(section, lines[i]);
      var line := NormLine(rules, word, section, lines[i]);
      out := out + [line];
      assert before + ([line] + NormLines(rules, word, section, rest[1..]))
          == out + NormLines(rules, word, section, rest[1..]);
    }
    assert lines[|lines|..] == [] && out + [] == out && lines[0..] == lines;
    output := Join(out);
  }

  lemma RefilledLineIsLine(rules: Rules, word: char -> bool, section: string, a: string, b: string)
    requires IsLine(a) && RefilledLine(rules, word, section, a, b)
    ensures IsLine(b) && b[0] == a[0] && b[|b| - 1] == a[|a| - 1]
  {
    hide SiteOf, Splice, IsLine;
    if b != a {
      var site := SiteOf(rules, word, section, a);
      var v :| Fits(site, v) && b == Splice(a, site.span, v);
      RewrittenIsLine(a, site.span, v);
    }
  }

  lemma {:induction false} RefilledAreLines(rules: Rules, word: char -> bool, section: string, a: seq<string>,
                                            b: seq<string>)
    requires AreLines(a) && Refilled(rules, word, section, a, b)
    ensures AreLines(b)
    decreases |a|
  {
    hide NextSection, RefilledLine, LineEnd;
    if a != [] {
      var now := NextSection(section, a[0]);
      RefilledLineIsLine(rules, word, now, a[0], b[0]);
      RefilledAreLines(rules, word, now, a[1..], b[1..]);
      if |a| > 1 {
        var later := NextSection(now, a[1]);
        assert a[1..][0] == a[1] && b[1..][0] == b[1];
        assert IsLine(a[1]) && RefilledLine(rules, word, later, a[1], b[1]);
        RefilledLineIsLine(rules, word, later, a[1], b[1]);
        assert Parted(a[0], a[1]) == Parted(b[0], b[1]);
      }
    }
  }

  // The number of lines is kept, and so is everything outside the enumerated version values.
  lemma NormalizeKeepsTheRest(rules: Rules, word: char -> bool, text: string)
    requires PlainNames(rules)
    ensures var lines := SplitLines(text);
            var normal := SplitLines(Normalize(rules, word, text));
            |normal| == |lines| && Refilled(rules, word, "", lines, normal)
                && normal == NormLines(rules, word, "", lines)
  {
    hide NormLines, Refilled, Recognized, SplitLines, Join, AreLines, PlainNames;
    var lines := SplitLines(text);
    SplitIsLines(text);
    NormalIsRefill(rules, word, "", lines);
    RefilledAreLines(rules, word, "", lines, NormLines(rules, word, "", lines));
    SplitJoin(NormLines(rules, word, "", lines));
  }

  lemma NormalizeIdempotent(rules: Rules, word: char -> bool, text: string)
    requires PlainNames(rules)
    ensures Normalize(rules, word, Normalize(rules, word, text)) == Normalize(rules, word, text)
  {
    hide NormLines, Refilled, Recognized, SplitLines, Join, PlainNames;
    var lines := SplitLines(text);
    NormalizeKeepsTheRest(rules, word, text);
    NormalIsRefill(rules, word, "", lines);
    BlindToVersions(rules, word, "", lines, NormLines(rules, word, "", lines));
  }

  // Two manifests that differ only in enumerated version values normalize to the same text, exactly
  // when every changed line of the second still passes the test on its path field.
  lemma NormalizeBlind(rules: Rules, word: char -> bool, a: string, b: string)
    requires PlainNames(rules) && Refilled(rules, word, "", SplitLines(a), SplitLines(b))
    ensures Normalize(rules, word, a) == Normalize(rules, word, b) <==>
              Recognized(rules, word, "", SplitLines(a), SplitLines(b))
  {
    hide NormLines, Refilled, Recognized, SplitLines, Join, PlainNames;
    BlindToVersions(rules, word, "", SplitLines(a), SplitLines(b));
    NormalizeKeepsTheRest(rules, word, a);
    NormalizeKeepsTheRest(rules, word, b);
  }

  // --- values that cannot hold a path field -----------------------------------

  // Neither of the characters a path field may follow.
  predicate PlainVersion(v: string) { NoneOf(v, ',') && NoneOf(v, '{') }

  lemma SkipBehind(a: string, b: string, i: nat, d: int)
    requires i <= |a| && 0 <= i + d && |b| == |a| + d
    requires forall k :: i <= k < |a| ==> b[k + d] == a[k]
    ensures SkipSpace(b, i + d) == SkipSpace(a, i) + d
    decreases |a| - i
  {
    if i < |a| && IsSpace(a[i]) {
      SkipBehind(a, b, i + 1, d);
      assert b[i + d] == a[i];
    }
  }

  // A path field in front of the value, or behind it, is there whatever the value is.
  lemma PathBefore(a: string, b: string, n: nat, i: nat)
    requires 0 < n <= |a| && n <= |b| && a[..n] == b[..n] && a[n - 1] == '"' && i < n && PathFieldAt(a, i)
    ensures HasPathField(b)
  {
    hide SkipSpace;
    var p := SkipSpace(a, i);
    var e := SkipSpace(a, p + 4);
    PathChars(a, p);
    assert n - 1 > e;
    SamePrefixSkip(a, b, i, n);
    SamePrefixSkip(a, b, p + 4, n);
    SameSlice(a, b, n, p);
    assert i > 0 ==> b[i - 1] == b[..n][i - 1] == a[..n][i - 1];
    assert PathFieldAt(b, i);
  }

  lemma SameSlice(a: string, b: string, n: nat, p: nat)
    requires p + 4 <= n <= |a| && n <= |b| && a[..n] == b[..n]
    ensures a[p..p + 4] == b[p..p + 4]
  {
    assert a[p..p + 4] == a[..n][p..p + 4] && b[p..p + 4] == b[..n][p..p + 4];
  }

  lemma PathBehind(a: string, b: string, m: nat, d: int, i: nat)
    requires m < i <= |a| && 0 <= m + d && |b| == |a| + d && PathFieldAt(a, i)
    requires forall k :: m <= k < |a| ==> b[k + d] == a[k]
    ensures HasPathField(b)
  {
    hide SkipSpace;
    var p := SkipSpace(a, i);
    SkipBehind(a, b, i, d);
    SkipBehind(a, b, p + 4, d);
    assert a[p..p + 4] == b[p + d..p + d + 4];
    assert b[i - 1 + d] == a[i - 1];
    assert PathFieldAt(b, i + d);
  }

  lemma PathChars(a: string, p: nat)
    requires At(a, p, PATH)
    ensures forall k :: p <= k < p + 4 ==> a[k] != '"'
  {
    assert forall k :: p <= k < p + 4 ==> a[k] == a[p..p + 4][k - p] == PATH[k - p];
  }

  lemma PathOutside(line: string, span: Span, w: string, q: nat)
    requires q < span.start <= span.stop < |line| && line[span.start - 1] == '"' && line[span.stop] == '"'
    requires PlainVersion(line[span.start..span.stop]) && HasPathField(line[q..])
    ensures q < |Splice(line, span, w)| && HasPathField(Splice(line, span, w)[q..])
  {
    hide PathFieldAt, Splice;
    var f := Splice(line, span, w);
    SpliceFacts(line, span, w);
    SpliceTail(line, span, w);
    var a, b := line[q..], f[q..];
    var n, d := span.start - q, |w| - (span.stop - span.start);
    var m := span.stop - q;
    var i :| 0 <= i <= |a| && PathFieldAt(a, i);
    FieldStart(a, i);
    if i < n {
      assert a[..n] == line[..span.start][q..] == f[..span.start][q..] == b[..n];
      PathBefore(a, b, n, i);
    } else {
      forall k | m <= k < |a|
        ensures b[k + d] == a[k]
      {
        assert f[k + q + d] == line[k + q];
      }
      assert line[q + i - 1] == a[i - 1];
      ValueCharacter(line, span, q + i - 1);
      PathBehind(a, b, m, d, i);
    }
  }

  lemma ValueCharacter(line: string, span: Span, k: nat)
    requires span.start <= span.stop <= |line| && PlainVersion(line[span.start..span.stop])
    ensures span.start <= k < span.stop ==> line[k] != ',' && line[k] != '{'
  {
    assert span.start <= k < span.stop ==> line[span.start..span.stop][k - span.start] == line[k];
  }

  lemma FieldStart(a: string, i: nat)
    requires PathFieldAt(a, i)
    ensures i == 0 || a[i - 1] == ',' || a[i - 1] == '{'
  {
  }

  // Values that hold neither a comma nor a brace.
  ghost predicate PlainValues(rules: Rules, word: char -> bool, section: string, a: seq<string>)
    decreases |a|
  {
    a == [] ||
    (var now := NextSection(section, a[0]);
     PlainValue(SiteOf(rules, word, now, a[0]), a[0]) && PlainValues(rules, word, now, a[1..]))
  }

  ghost predicate PlainValue(site: Site, line: string) {
    site != NoSite ==>
      site.span.start <= site.span.stop <= |line| && PlainVersion(line[site.span.start..site.span.stop])
  }

  lemma PlainLineRecognized(rules: Rules, word: char -> bool, section: string, a: string, b: string)
    requires PlainNames(rules) && RefilledLine(rules, word, section, a, b)
    requires PlainValue(SiteOf(rules, word, section, a), a)
    ensures RecognizedLine(rules, word, section, a, b)
  {
    hide Splice, HasPathField, PlainNames, AssignmentSpan, VersionFrom, PlainVersion, FindFrom, NormLine, IsHeader,
         Strip, SkipSpace;
    var site := SiteOf(rules, word, section, a);
    if b != a && site.DependencyVersion? {
      var v :| Fits(site, v) && b == Splice(a, site.span, v);
      SiteKey(rules, word, section, a);
      SpliceFacts(a, site.span, v);
      SameKey(a, b, site.span.start);
      QuoteBefore(word, a);
      PathOutside(a, site.span, v, EqualsAt(a) + 1);
    }
  }

  // Manifests that differ only in enumerated version values normalize to the same text, when the
  // values of one of them hold neither a comma nor a brace.
  lemma NormalizeBlindToPlainVersions(rules: Rules, word: char -> bool, a: string, b: string)
    requires PlainNames(rules) && Refilled(rules, word, "", SplitLines(a), SplitLines(b))
    requires PlainValues(rules, word, "", SplitLines(a))
    ensures Normalize(rules, word, a) == Normalize(rules, word, b)
  {
    hide *;
    PlainAreRecognized(rules, word, "", SplitLines(a), SplitLines(b));
    NormalizeBlind(rules, word, a, b);
  }

  lemma {:induction false} PlainAreRecognized(rules: Rules, word: char -> bool, section: string, a: seq<string>,
                                              b: seq<string>)
    requires PlainNames(rules) && Refilled(rules, word, section, a, b) && PlainValues(rules, word, section, a)
    ensures |a| == |b| && Recognized(rules, word, section, a, b)
    decreases |a|
  {
    hide NextSection, SiteOf, RefilledLine, PlainNames, RecognizedLine, PlainValue;
    if a != [] {
      var now := NextSection(section, a[0]);
      PlainLineRecognized(rules, word, now, a[0], b[0]);
      PlainAreRecognized(rules, word, now, a[1..], b[1..]);
    }
  }

  // The quote in front of the `=` of a version field.
  lemma QuoteBefore(word: char -> bool, line: string)
    requires VersionSpan(word, line).Some?
    ensures line[VersionSpan(word, line).value.start - 1] == '"'
    ensures VersionSpan(word, line).value.start > EqualsAt(line) + 1
  {
    hide SkipSpace, FindFrom, VersionFrom;
    var p := FirstMatch(word, line, 0);
    HeadHasEquals(word, line, p);
  }
}
