/** What normalizing does to a printed manifest: the workspace version and the exact versions of the
  enumerated path dependencies, in their own sections, and nothing else. */
module ManifestPrinter {
  import opened FieldLines
  import opened ManifestNormalization
  import opened TextLines
  import opened VersionNormalization
  import opened Wrappers

  // A dependency with an exact version, by path or from the registry.
  datatype Entry = Entry(name: string, version: string, byPath: bool)

  datatype Manifest = Manifest(version: string, dependencies: seq<Entry>, devDependencies: seq<Entry>)

  // `name = { path = "..", version = "=v" }`
  const OPEN: string := " = { "
  const MIDDLE: string := " = \"..\", "
  const EQUALS: string := " = \"="
  const CLOSE: string := "\" }\n"

  function PathLine(name: string, v: string): string {
    name + (OPEN + PATH + MIDDLE + VERSION + EQUALS) + v + CLOSE
  }

  function EntryLine(e: Entry): string {
    if e.byPath then PathLine(e.name, e.version) else FieldLine(e.name, "=" + e.version)
  }

  function EntryLines(es: seq<Entry>): (r: seq<string>)
    ensures |r| == |es| && forall k :: 0 <= k < |es| ==> r[k] == EntryLine(es[k])
  {
    seq(|es|, k requires 0 <= k < |es| => EntryLine(es[k]))
  }

  const WORKSPACE: string := "[workspace.package]\n"
  const DEPENDENCIES: string := "[dependencies]\n"
  const DEV_DEPENDENCIES: string := "[dev-dependencies]\n"

  function Lines(m: Manifest): seq<string> {
    ([WORKSPACE] + [FieldLine("version", m.version)])
    + (([DEPENDENCIES] + EntryLines(m.dependencies)) + ([DEV_DEPENDENCIES] + EntryLines(m.devDependencies)))
  }

  function Render(m: Manifest): string { Join(Lines(m)) }

  // A name as it is read back: no spaces, no equals sign, and no bracket in front.
  predicate IsName(name: string) {
    name != "" && name[0] != '[' && NoneOf(name, '=') && forall i :: 0 <= i < |name| ==> !IsSpace(name[i])
  }

  // Without a comma or a brace, so that no path field stands inside the value itself.
  predicate IsVersion(v: string) { v != "" && NoneOf(v, '"') && NoBreaks(v) && NoneOf(v, ',') && NoneOf(v, '{') }

  ghost predicate PrintableEntries(es: seq<Entry>) {
    forall k :: 0 <= k < |es| ==> IsName(es[k].name) && IsVersion(es[k].version)
  }

  ghost predicate Printable(m: Manifest) {
    IsVersion(m.version) && PrintableEntries(m.dependencies) && PrintableEntries(m.devDependencies)
  }

  // The dependencies of each manifest inside the workspace.
  predicate Internal(path: string, name: string) {
    || (path == "crates/toktier/Cargo.toml"
        && (name == "toktier-routing-core" || name == "toktier-cuda-driver" || name == "toktier-store-core"
            || name == "toktier-store-sqlite"))
    || (path == "crates/toktier-py/Cargo.toml"
        && (name == "toktier-routing-core" || name == "toktier-store-core" || name == "toktier-store-sqlite"))
    || (path == "crates/toktier-routing-core/Cargo.toml"
        && (name == "toktier-gigatoken-core" || name == "toktier-cuda-driver" || name == "toktier-store-core"))
    || (path == "crates/toktier-store-sqlite/Cargo.toml" && name == "toktier-store-core")
  }

  function Unversioned(path: string, e: Entry): Entry {
    if e.byPath && Internal(path, e.name) then e.(version := "0.0.0") else e
  }

  function AllUnversioned(path: string, es: seq<Entry>): (r: seq<Entry>)
    ensures |r| == |es| && forall k :: 0 <= k < |es| ==> r[k] == Unversioned(path, es[k])
  {
    seq(|es|, k requires 0 <= k < |es| => Unversioned(path, es[k]))
  }

  function UnversionedManifest(path: string, m: Manifest): Manifest {
    m.(version := if path == "Cargo.toml" then "0.0.0" else m.version,
       dependencies := AllUnversioned(path, m.dependencies))
  }

  // --- a dependency by path ---------------------------------------------------

  lemma Heads()
    ensures var head := OPEN + PATH + MIDDLE + VERSION + EQUALS;
            && |head| == 30 && head[0] == ' ' && head[1] == '=' && head[2] == ' ' && head[3] == '{' && head[4] == ' '
            && head[5..9] == PATH && head[9] == ' ' && head[10] == '=' && head[17] == ' ' && head[18..25] == VERSION
            && head[25] == ' ' && head[26] == '=' && head[27] == ' ' && head[28] == '"' && head[29] == '='
            && forall i :: 0 <= i < 18 ==> head[i] != 'v'
  {
    var head := OPEN + PATH + MIDDLE + VERSION + EQUALS;
    assert |OPEN| == 5 && |PATH| == 4 && |MIDDLE| == 9 && |VERSION| == 7 && |EQUALS| == 5;
    assert forall i :: 0 <= i < 5 ==> head[i] == OPEN[i] && OPEN[i] != 'v';
    assert forall i :: 5 <= i < 9 ==> head[i] == PATH[i - 5] && PATH[i - 5] != 'v';
    assert forall i :: 9 <= i < 18 ==> head[i] == MIDDLE[i - 9] && MIDDLE[i - 9] != 'v';
    assert forall i :: 25 <= i < 30 ==> head[i] == EQUALS[i - 25];
  }

  lemma Spaces()
    ensures !IsSpace('{') && !IsSpace('p') && !IsSpace('=') && !IsSpace('"') && IsSpace(' ')
  {
  }

  // Where everything stands in the line.
  lemma Layout(name: string, v: string)
    ensures var line, n := PathLine(name, v), |name|;
            && |line| == n + 34 + |v| && (forall i :: 0 <= i < n ==> line[i] == name[i])
            && line[n] == ' ' && line[n + 1] == '=' && line[n + 2] == ' ' && line[n + 3] == '{' && line[n + 4] == ' '
            && line[n + 5..n + 9] == PATH && line[n + 9] == ' ' && line[n + 10] == '='
            && line[n + 17] == ' ' && line[n + 18..n + 25] == VERSION && line[n + 25] == ' ' && line[n + 26] == '='
            && line[n + 27] == ' ' && line[n + 28] == '"' && line[n + 29] == '='
            && line[n + 30..n + 30 + |v|] == v && line[n + 30 + |v|] == '"'
            && (forall i :: n <= i < n + 18 ==> line[i] != 'v')
            && (forall i :: n + 30 <= i < n + 30 + |v| ==> line[i] == v[i - n - 30])
  {
    Heads();
    var head := OPEN + PATH + MIDDLE + VERSION + EQUALS;
    Pieces(name, head, v, CLOSE);
  }

  lemma Pieces(a: string, b: string, c: string, d: string)
    requires |b| == 30 && |d| == 4
    ensures var s, n := a + b + c + d, |a|;
            && |s| == n + 34 + |c| && (forall i :: 0 <= i < n ==> s[i] == a[i])
            && s[n] == b[0] && s[n + 1] == b[1] && s[n + 2] == b[2] && s[n + 3] == b[3] && s[n + 4] == b[4]
            && s[n + 5..n + 9] == b[5..9] && s[n + 9] == b[9] && s[n + 10] == b[10]
            && s[n + 17] == b[17] && s[n + 18..n + 25] == b[18..25] && s[n + 25] == b[25] && s[n + 26] == b[26]
            && s[n + 27] == b[27] && s[n + 28] == b[28] && s[n + 29] == b[29]
            && s[n + 30..n + 30 + |c|] == c && s[n + 30 + |c|] == d[0]
            && (forall i :: n <= i < n + 30 ==> s[i] == b[i - n])
            && (forall i :: n + 30 <= i < n + 30 + |c| ==> s[i] == c[i - n - 30])
  {
  }

  lemma PathKey(name: string, v: string)
    requires IsName(name)
    ensures EqualsAt(PathLine(name, v)) == |name| + 1 && Key(PathLine(name, v)) == name
    ensures HasEquals(PathLine(name, v))
  {
    hide PathLine, IsSpace;
    Layout(name, v);
    Spaces();
    var line := PathLine(name, v);
    FindExactly(line, '=', 0, |name| + 1);
    var left := line[..|name| + 1];
    assert left == name + " ";
    StripIs(left, 0, |name|);
    assert left[0..|name|] == name;
  }

  lemma SkipTo(s: string, i: nat, j: nat)
    requires i <= j < |s| && !IsSpace(s[j]) && forall k :: i <= k < j ==> IsSpace(s[k])
    ensures SkipSpace(s, i) == j
  {
    hide IsSpace;
  }

  lemma PathIsBehind(name: string, v: string)
    requires IsName(name)
    ensures PathBehindKey(PathLine(name, v))
  {
    hide PathLine, IsSpace, EqualsAt;
    PathKey(name, v);
    Layout(name, v);
    Spaces();
    var line, n := PathLine(name, v), |name|;
    var value := line[n + 2..];
    assert value[3..7] == line[n + 5..n + 9];
    assert value[3] == PATH[0];
    SkipTo(value, 2, 3);
    SkipTo(value, 7, 8);
    assert At(value, 3, PATH);
    assert PathFieldAt(value, 2);
  }

  // No version field begins in front of the right one.
  lemma NoneEarlier(word: char -> bool, name: string, v: string, q: nat)
    requires IsName(name) && q < |name| + 18
    ensures VersionAt(word, PathLine(name, v), q).None?
  {
    hide PathLine, IsSpace, FindFrom, SkipSpace;
    Layout(name, v);
    Spaces();
    var line, n := PathLine(name, v), |name|;
    if At(line, q, VERSION) {
      assert line[q] == line[q..q + 7][0] == VERSION[0] == 'v';
      assert q < n;
      if n < q + 7 {
        assert line[n] == line[q..q + 7][n - q] == VERSION[n - q];
        NoSpaceInside(n - q);
        assert false;
      }
      if q + 7 < n {
        SkipTo(line, q + 7, q + 7);
      } else {
        SkipTo(line, n, n + 1);
        SkipTo(line, n + 2, n + 3);
      }
    }
  }

  lemma NoSpaceInside(i: nat)
    requires i < 7
    ensures VERSION[i] != ' '
  {
  }

  lemma VersionStands(word: char -> bool, name: string, v: string)
    requires IsName(name) && IsVersion(v) && !word(' ')
    ensures VersionSpan(word, PathLine(name, v)) == Some(Span(|name| + 29, |name| + 30 + |v|))
  {
    hide PathLine, IsSpace, FindFrom, SkipSpace, VersionFrom;
    Layout(name, v);
    Spaces();
    var line, n := PathLine(name, v), |name|;
    assert At(line, n + 18, VERSION);
    SkipTo(line, n + 25, n + 26);
    SkipTo(line, n + 27, n + 28);
    FindExactly(line, '"', n + 30, n + 30 + |v|);
    forall q | 0 <= q < n + 18 ensures VersionAt(word, line, q).None? { NoneEarlier(word, name, v, q); }
    VersionFromAt(word, line, 0, n + 18);
  }

  lemma PathSpliced(name: string, v: string)
    ensures |PathLine(name, v)| >= |name| + 30 + |v|
    ensures Splice(PathLine(name, v), Span(|name| + 29, |name| + 30 + |v|), "=0.0.0") == PathLine(name, "0.0.0")
  {
    Heads();
    var head := OPEN + PATH + MIDDLE + VERSION + EQUALS;
    assert head == head[..29] + "=";
    assert "=0.0.0" == "=" + "0.0.0";
    Replaced(name, head, v, "0.0.0", CLOSE);
  }

  lemma Replaced(a: string, b: string, c: string, e: string, d: string)
    requires |b| == 30 && b == b[..29] + "="
    ensures Splice(a + b + c + d, Span(|a| + 29, |a| + 30 + |c|), "=" + e) == a + b + e + d
  {
    var s := a + b + c + d;
    assert s[..|a| + 29] == a + b[..29];
    assert s[|a| + 30 + |c|..] == d;
    assert a + b[..29] + ("=" + e) == a + (b[..29] + "=") + e;
  }

  lemma NamesAreKeys(name: string)
    requires IsName(name)
    ensures IsKey(name) && NoBreaks(name)
  {
  }

  lemma PathIsLine(name: string, v: string)
    requires IsName(name) && NoBreaks(v)
    ensures IsLine(PathLine(name, v)) && LastIsBreak(PathLine(name, v))
  {
    NamesAreKeys(name);
    var head := OPEN + PATH + MIDDLE + VERSION + EQUALS;
    HeadHasNoBreak();
    Unbroken(name, head, v, "\" }");
    var line := PathLine(name, v);
    assert line == (name + head + v + "\" }") + "\n";
    EndsOnce(name + head + v + "\" }");
  }

  predicate LastIsBreak(line: string) { line != "" && line[|line| - 1] == '\n' }

  lemma HeadHasNoBreak()
    ensures NoBreaks(OPEN + PATH + MIDDLE + VERSION + EQUALS) && NoBreaks("\" }")
  {
    Unbroken(OPEN, PATH, MIDDLE, VERSION);
    Unbroken(OPEN + PATH + MIDDLE + VERSION, EQUALS, "", "");
    var head := OPEN + PATH + MIDDLE + VERSION + EQUALS;
    assert head + "" + "" == head;
  }

  lemma Unbroken(a: string, b: string, c: string, d: string)
    requires NoBreaks(a) && NoBreaks(b) && NoBreaks(c) && NoBreaks(d)
    ensures NoBreaks(a + b + c + d)
  {
    hide IsBreak;
  }

  lemma EndsOnce(text: string)
    requires NoBreaks(text)
    ensures IsLine(text + "\n")
  {
    BreakAt(text + "\n", 0, |text|);
  }

  // --- what is made of one entry ----------------------------------------------

  lemma RulesMean(path: string, name: string)
    ensures name in RulesFor(path).allowed <==> Internal(path, name)
    ensures RulesFor(path).workspace <==> path == "Cargo.toml"
  {
  }

  lemma NoPathInside(name: string, v: string)
    requires IsName(name) && IsVersion(v)
    ensures !PathBehindKey(FieldLine(name, "=" + v))
  {
    hide EqualsAt, SkipSpace, IsSpace, IsName, IsKey, At;
    NamesAreKeys(name);
    FieldKey(name, "=" + v);
    var line := FieldLine(name, "=" + v);
    var value := line[|name| + 2..];
    assert value == " \"=" + v + "\"\n";
    ValueChars(v);
    forall i | 0 <= i <= |value|
      ensures !PathFieldAt(value, i)
    {
      if i == 0 {
        Spaces();
        SkipTo(value, 0, 1);
        AtFirst(value, 1);
      }
    }
  }

  lemma ValueChars(v: string)
    requires IsVersion(v)
    ensures var value := " \"=" + v + "\"\n";
            value[0] == ' ' && value[1] == '"' && forall i :: 0 <= i < |value| ==> value[i] != ',' && value[i] != '{'
  {
    var value := " \"=" + v + "\"\n";
    forall i | 0 <= i < |value|
      ensures value[i] != ',' && value[i] != '{'
    {
      if 3 <= i < 3 + |v| { assert value[i] == v[i - 3]; }
    }
  }

  lemma AtFirst(s: string, p: nat)
    requires p < |s| && s[p] == '"'
    ensures !At(s, p, PATH)
  {
    assert p + 4 <= |s| ==> s[p..p + 4][0] == s[p];
    assert PATH[0] == 'p';
  }

  lemma EntryReads(e: Entry)
    requires IsName(e.name) && IsVersion(e.version)
    ensures HasEquals(EntryLine(e)) && Key(EntryLine(e)) == e.name && !IsHeader(EntryLine(e))
    ensures PathBehindKey(EntryLine(e)) <==> e.byPath
    ensures IsLine(EntryLine(e)) && LastIsBreak(EntryLine(e))
  {
    hide PathLine, IsHeader, PathBehindKey, FindFrom, Key, IsLine, IsName, IsVersion, IsKey;
    NamesAreKeys(e.name);
    PrintedVersion(e.version);
    if e.byPath {
      PathKey(e.name, e.version);
      PathIsBehind(e.name, e.version);
      PathIsLine(e.name, e.version);
    } else {
      FieldKey(e.name, "=" + e.version);
      NoPathInside(e.name, e.version);
      FieldIsLine(e.name, "=" + e.version);
    }
    NoHeader(EntryLine(e), e.name);
  }

  lemma PrintedVersion(v: string)
    requires IsVersion(v)
    ensures NoBreaks(v) && NoBreaks("=" + v)
  {
  }

  lemma NoHeader(line: string, name: string)
    requires Key(line) == name && IsName(name)
    ensures !IsHeader(line)
  {
    hide Strip, FindFrom;
    KeyStartsLine(line);
  }

  lemma EntryNormal(path: string, word: char -> bool, e: Entry)
    requires IsName(e.name) && IsVersion(e.version) && !word(' ')
    ensures NormLine(RulesFor(path), word, DEPENDENCY_SECTION, EntryLine(e)) == EntryLine(Unversioned(path, e))
    ensures NormLine(RulesFor(path), word, "[dev-dependencies]", EntryLine(e)) == EntryLine(e)
  {
    hide EntryLine, RulesFor, Internal, IsHeader, PathBehindKey, Key, VersionSpan, Splice, IsName, IsVersion;
    EntryReads(e);
    RulesMean(path, e.name);
    Sections();
    if e.byPath { ByPath(word, e); }
  }

  lemma ByPath(word: char -> bool, e: Entry)
    requires IsName(e.name) && IsVersion(e.version) && !word(' ') && e.byPath
    ensures VersionSpan(word, EntryLine(e)).Some?
    ensures Splice(EntryLine(e), VersionSpan(word, EntryLine(e)).value, EXACT) == EntryLine(e.(version := "0.0.0"))
  {
    hide VersionSpan, Splice, PathLine;
    VersionStands(word, e.name, e.version);
    PathSpliced(e.name, e.version);
  }

  lemma Sections()
    ensures DEPENDENCY_SECTION != WORKSPACE_SECTION && "[dev-dependencies]" != WORKSPACE_SECTION
    ensures "[dev-dependencies]" != DEPENDENCY_SECTION
  {
    assert DEPENDENCY_SECTION[1] == 'd' && WORKSPACE_SECTION[1] == 'w' && "[dev-dependencies]"[1] == 'd';
    assert DEPENDENCY_SECTION[3] == 'p' && "[dev-dependencies]"[3] == 'v';
  }

  // --- the headers and the workspace version ----------------------------------

  lemma HeaderReads(section: string)
    requires |section| > 1 && section[0] == '[' && section[|section| - 1] == ']'
    requires NoBreaks(section) && NoneOf(section, '=')
    ensures Strip(section + "\n") == section && IsHeader(section + "\n")
    ensures !HasEquals(section + "\n") && Key(section + "\n") == section
    ensures IsLine(section + "\n")
  {
    hide IsBreak, FirstBreak;
    var line := section + "\n";
    Brackets();
    StripIs(line, 0, |section|);
    assert line[0..|section|] == section;
    assert EqualsAt(line) == |line|;
    assert line[..|line|] == line;
    EndsOnce(section);
  }

  lemma Brackets()
    ensures !IsSpace('[') && !IsSpace(']') && IsSpace('\n')
  {
  }

  lemma HeaderNormal(path: string, word: char -> bool, section: string)
    requires |section| > 1 && section[0] == '[' && section[|section| - 1] == ']'
    requires NoBreaks(section) && NoneOf(section, '=')
    ensures NormLine(RulesFor(path), word, section, section + "\n") == section + "\n"
  {
    hide RulesFor, Key, Strip, IsHeader, IsLine, EqualsAt;
    HeaderReads(section);
    assert VERSION[0] == 'v';
  }

  lemma OwnSections()
    ensures WORKSPACE == WORKSPACE_SECTION + "\n" && DEPENDENCIES == DEPENDENCY_SECTION + "\n"
    ensures DEV_DEPENDENCIES == "[dev-dependencies]" + "\n"
    ensures NoBreaks(WORKSPACE_SECTION) && NoneOf(WORKSPACE_SECTION, '=')
    ensures NoBreaks(DEPENDENCY_SECTION) && NoneOf(DEPENDENCY_SECTION, '=')
    ensures NoBreaks("[dev-dependencies]") && NoneOf("[dev-dependencies]", '=')
    ensures |WORKSPACE_SECTION| > 1 && |DEPENDENCY_SECTION| > 1 && |"[dev-dependencies]"| > 1
    ensures WORKSPACE_SECTION[0] == '[' && WORKSPACE_SECTION[|WORKSPACE_SECTION| - 1] == ']'
    ensures DEPENDENCY_SECTION[0] == '[' && DEPENDENCY_SECTION[|DEPENDENCY_SECTION| - 1] == ']'
  {
  }

  lemma WorkspaceNormal(path: string, word: char -> bool, v: string)
    requires IsVersion(v)
    ensures NormLine(RulesFor(path), word, WORKSPACE_SECTION, FieldLine("version", v))
         == FieldLine("version", if path == "Cargo.toml" then "0.0.0" else v)
    ensures !IsHeader(FieldLine("version", v)) && IsLine(FieldLine("version", v))
  {
    hide RulesFor, IsHeader, PathBehindKey, Key, AssignmentSpan, IsLine, FieldLine, Splice, IsKey, IsVersion,
         Internal, NoBreaks, NoneOf;
    OwnKeys();
    VersionIsLine(v);
    RulesMean(path, "version");
    QuotedVersion(v);
    FieldKey("version", v);
    FieldQuotes("version", v);
    Sections();
    VersionSpliced(v);
    NoHeader(FieldLine("version", v), "version") by { VersionIsName(); }
  }

  lemma VersionIsName()
    ensures IsName("version")
  {
  }

  lemma QuotedVersion(v: string)
    requires IsVersion(v)
    ensures NoneOf(v, '"') && NoBreaks(v)
  {
  }

  lemma VersionSpliced(v: string)
    ensures 11 + |v| <= |FieldLine("version", v)|
    ensures Splice(FieldLine("version", v), Span(11, 11 + |v|), PLAIN) == FieldLine("version", "0.0.0")
  {
    var line, n := FieldLine("version", v), 11;
    assert line[..n] == "version" + " = \"" && line[n + |v|..] == "\"\n";
  }

  // --- the whole manifest -----------------------------------------------------

  function SectionAfter(section: string, lines: seq<string>): string
    decreases |lines|
  {
    if lines == [] then section else SectionAfter(NextSection(section, lines[0]), lines[1..])
  }

  lemma {:induction false} NormAppend(rules: Rules, word: char -> bool, section: string, a: seq<string>, b: seq<string>)
    ensures NormLines(rules, word, section, a + b)
         == NormLines(rules, word, section, a) + NormLines(rules, word, SectionAfter(section, a), b)
    decreases |a|
  {
    hide NormLine, NextSection;
    if a == [] {
      assert a + b == b;
    } else {
      assert (a + b)[1..] == a[1..] + b;
      NormAppend(rules, word, NextSection(section, a[0]), a[1..], b);
    }
  }

  // Lines without a header are read in one section.
  lemma {:induction false} OneSection(rules: Rules, word: char -> bool, section: string, lines: seq<string>)
    requires forall i :: 0 <= i < |lines| ==> !IsHeader(lines[i])
    ensures SectionAfter(section, lines) == section
    ensures forall i :: 0 <= i < |lines| ==>
              NormLines(rules, word, section, lines)[i] == NormLine(rules, word, section, lines[i])
    decreases |lines|
  {
    hide NormLine, IsHeader, Strip;
    if lines != [] {
      OneSection(rules, word, section, lines[1..]);
    }
  }

  lemma HeaderThen(path: string, word: char -> bool, before: string, section: string, lines: seq<string>)
    requires |section| > 1 && section[0] == '[' && section[|section| - 1] == ']'
    requires NoBreaks(section) && NoneOf(section, '=')
    requires forall i :: 0 <= i < |lines| ==> !IsHeader(lines[i])
    ensures var all := [section + "\n"] + lines;
            && SectionAfter(before, all) == section
            && NormLines(RulesFor(path), word, before, all)
               == [section + "\n"] + NormLines(RulesFor(path), word, section, lines)
  {
    hide NormLine, IsHeader, Strip, RulesFor, IsLine, Key, EqualsAt, NoBreaks, NoneOf;
    HeaderReads(section);
    HeaderNormal(path, word, section);
    OneSection(RulesFor(path), word, section, lines);
    var all := [section + "\n"] + lines;
    assert all[1..] == lines;
  }

  lemma EntriesNormal(path: string, word: char -> bool, es: seq<Entry>)
    requires PrintableEntries(es) && !word(' ')
    ensures forall k :: 0 <= k < |es| ==> !IsHeader(EntryLines(es)[k])
    ensures NormLines(RulesFor(path), word, DEPENDENCY_SECTION, EntryLines(es))
         == EntryLines(AllUnversioned(path, es))
    ensures NormLines(RulesFor(path), word, "[dev-dependencies]", EntryLines(es)) == EntryLines(es)
  {
    hide NormLine, IsHeader, RulesFor, EntryLine, IsName, IsVersion, Unversioned, NormLines;
    var rules, lines := RulesFor(path), EntryLines(es);
    forall k | 0 <= k < |es|
      ensures !IsHeader(lines[k])
      ensures NormLine(rules, word, DEPENDENCY_SECTION, lines[k]) == EntryLine(Unversioned(path, es[k]))
      ensures NormLine(rules, word, "[dev-dependencies]", lines[k]) == lines[k]
    {
      EntryReads(es[k]);
      EntryNormal(path, word, es[k]);
    }
    OneSection(rules, word, DEPENDENCY_SECTION, lines);
    OneSection(rules, word, "[dev-dependencies]", lines);
  }

  lemma WorkspaceNormals(path: string, word: char -> bool, v: string)
    requires IsVersion(v)
    ensures var lines := [FieldLine("version", v)];
            && !IsHeader(lines[0])
            && NormLines(RulesFor(path), word, WORKSPACE_SECTION, lines)
               == [FieldLine("version", if path == "Cargo.toml" then "0.0.0" else v)]
  {
    hide NormLine, IsHeader, RulesFor, FieldLine, IsVersion, Strip;
    WorkspaceNormal(path, word, v);
    var lines := [FieldLine("version", v)];
    assert lines[1..] == [];
  }

  lemma LinesNormal(path: string, word: char -> bool, m: Manifest)
    requires Printable(m) && !word(' ')
    ensures NormLines(RulesFor(path), word, "", Lines(m)) == Lines(UnversionedManifest(path, m))
  {
    hide *;
    OwnSections();
    ManifestParts(m);
    WorkspaceNormals(path, word, m.version);
    EntriesNormal(path, word, m.dependencies);
    EntriesNormal(path, word, m.devDependencies);
    HeaderThen(path, word, "", WORKSPACE_SECTION, [FieldLine("version", m.version)]);
    HeaderThen(path, word, WORKSPACE_SECTION, DEPENDENCY_SECTION, EntryLines(m.dependencies));
    HeaderThen(path, word, DEPENDENCY_SECTION, "[dev-dependencies]", EntryLines(m.devDependencies));
    ThreeSections(path, word, m);
  }

  lemma ManifestParts(m: Manifest)
    requires Printable(m)
    ensures IsVersion(m.version) && PrintableEntries(m.dependencies) && PrintableEntries(m.devDependencies)
  {
  }

  lemma ThreeSections(path: string, word: char -> bool, m: Manifest)
    requires var a, b, c := [WORKSPACE] + [FieldLine("version", m.version)],
                            [DEPENDENCIES] + EntryLines(m.dependencies),
                            [DEV_DEPENDENCIES] + EntryLines(m.devDependencies);
             && SectionAfter("", a) == WORKSPACE_SECTION && SectionAfter(WORKSPACE_SECTION, b) == DEPENDENCY_SECTION
             && NormLines(RulesFor(path), word, "", a)
                == [WORKSPACE] + [FieldLine("version", if path == "Cargo.toml" then "0.0.0" else m.version)]
             && NormLines(RulesFor(path), word, WORKSPACE_SECTION, b)
                == [DEPENDENCIES] + EntryLines(AllUnversioned(path, m.dependencies))
             && NormLines(RulesFor(path), word, DEPENDENCY_SECTION, c)
                == [DEV_DEPENDENCIES] + EntryLines(m.devDependencies)
    ensures NormLines(RulesFor(path), word, "", Lines(m)) == Lines(UnversionedManifest(path, m))
  {
    hide NormLines, RulesFor, EntryLines, FieldLine, SectionAfter, AllUnversioned;
    var a, b, c := [WORKSPACE] + [FieldLine("version", m.version)], [DEPENDENCIES] + EntryLines(m.dependencies),
                   [DEV_DEPENDENCIES] + EntryLines(m.devDependencies);
    NormAppend(RulesFor(path), word, "", a, b + c);
    NormAppend(RulesFor(path), word, WORKSPACE_SECTION, b, c);
  }

  ghost predicate AllLines(lines: seq<string>) {
    forall i :: 0 <= i < |lines| ==> IsLine(lines[i]) && LastIsBreak(lines[i])
  }

  lemma AppendLines(a: seq<string>, b: seq<string>)
    requires AllLines(a) && AllLines(b)
    ensures AllLines(a + b)
  {
    hide IsLine, LastIsBreak;
  }

  lemma HeaderLine(section: string)
    requires |section| > 1 && section[0] == '[' && section[|section| - 1] == ']'
    requires NoBreaks(section) && NoneOf(section, '=')
    ensures AllLines([section + "\n"])
  {
    hide IsLine, NoBreaks, NoneOf;
    HeaderReads(section);
  }

  lemma EntriesAreLines(es: seq<Entry>)
    requires PrintableEntries(es)
    ensures AllLines(EntryLines(es))
  {
    hide IsLine, LastIsBreak, EntryLine, IsName, IsVersion;
    forall k | 0 <= k < |es|
      ensures IsLine(EntryLine(es[k])) && LastIsBreak(EntryLine(es[k]))
    {
      EntryReads(es[k]);
    }
  }

  lemma LinesAreLines(m: Manifest)
    requires Printable(m)
    ensures AreLines(Lines(m))
  {
    hide AreLines, IsLine, EntryLines, FieldLine, IsVersion, PrintableEntries, NoBreaks, NoneOf, AllLines;
    OwnSections();
    HeaderLine(WORKSPACE_SECTION);
    HeaderLine(DEPENDENCY_SECTION);
    HeaderLine("[dev-dependencies]");
    VersionLine(m.version);
    EntriesAreLines(m.dependencies);
    EntriesAreLines(m.devDependencies);
    AppendLines([WORKSPACE], [FieldLine("version", m.version)]);
    AppendLines([DEPENDENCIES], EntryLines(m.dependencies));
    AppendLines([DEV_DEPENDENCIES], EntryLines(m.devDependencies));
    var b, c := [DEPENDENCIES] + EntryLines(m.dependencies), [DEV_DEPENDENCIES] + EntryLines(m.devDependencies);
    AppendLines(b, c);
    AppendLines([WORKSPACE] + [FieldLine("version", m.version)], b + c);
    AllAreLines(Lines(m));
  }

  lemma AllAreLines(lines: seq<string>)
    requires AllLines(lines)
    ensures AreLines(lines)
  {
    hide AreLines, IsLine;
    LinesAre(lines);
  }

  lemma VersionLine(v: string)
    requires IsVersion(v)
    ensures AllLines([FieldLine("version", v)])
  {
    hide IsLine, LastIsBreak, FieldLine;
    VersionIsLine(v);
  }

  lemma VersionIsLine(v: string)
    requires IsVersion(v)
    ensures IsLine(FieldLine("version", v)) && LastIsBreak(FieldLine("version", v))
  {
    hide IsLine;
    OwnKeys();
    FieldIsLine("version", v);
  }

  // Normalizing a printed manifest is printing it with "0.0.0" for the workspace version of the root
  // manifest and for the path dependencies inside the workspace, under `[dependencies]` alone.
  lemma NormalizePrinted(path: string, word: char -> bool, m: Manifest)
    requires Printable(m) && !word(' ')
    ensures Normalize(RulesFor(path), word, Render(m)) == Render(UnversionedManifest(path, m))
  {
    hide RulesFor, AreLines, Join, SplitLines, Lines, NormLines, Printable;
    LinesAreLines(m);
    SplitJoin(Lines(m));
    LinesNormal(path, word, m);
  }
}
