/** A manifest whose normal form depends on the version it declares. */
module ManifestExample {
  import opened ManifestNormalization
  import opened TextLines
  import opened VersionNormalization
  import opened Wrappers

  const MANIFEST: string := "crates/toktier-store-sqlite/Cargo.toml"
  const KEY: string := "toktier-store-core"
  const HEADER: string := "[dependencies]\n"
  const WITHIN: string := "1,path="
  const OTHER: string := "2"
  const ZERO: string := "0.0.0"

  // The dependency line that declares the exact version `v`, and no path of its own.
  function Line(v: string): string { KEY + "={version=\"=" + v + "\"}\n" }

  // Neither quotes nor line breaks, and at least one character.
  predicate Version(v: string) { v != "" && NoneOf(v, '"') && NoBreaks(v) }

  predicate Ordinary(c: char) { ('a' <= c <= 'u') || c == '-' }

  lemma KeyOrdinary()
    ensures |KEY| == 18 && forall i :: 0 <= i < 18 ==> Ordinary(KEY[i])
  {
    var first, rest := "toktier-s", "tore-core";
    assert KEY == first + rest;
    assert forall i :: 0 <= i < 9 ==> Ordinary(first[i]);
    assert forall i :: 0 <= i < 9 ==> Ordinary(rest[i]);
  }

  // Where everything stands in the line.
  lemma Layout(v: string)
    ensures var line := Line(v);
            && |line| == 33 + |v|
            && (forall i :: 0 <= i < 18 ==> Ordinary(line[i]))
            && line[..18] == KEY && line[18] == '=' && line[19] == '{' && line[20..27] == VERSION
            && line[27] == '=' && line[28] == '"' && line[29] == '=' && line[30..30 + |v|] == v
            && line[30 + |v|] == '"' && line[31 + |v|] == '}' && line[32 + |v|] == '\n'
  {
    KeyOrdinary();
    var head, tail := "={version=\"=", "\"}\n";
    assert head[2..9] == [head[2], head[3], head[4], head[5], head[6], head[7], head[8]] == VERSION;
    var line := Line(v);
    assert line[20..27] == head[2..9];
    assert line == KEY + head + v + tail;
    assert forall i :: 0 <= i < 18 ==> line[i] == KEY[i];
    assert forall i :: 18 <= i < 30 ==> line[i] == head[i - 18];
    assert forall i :: 30 + |v| <= i < |line| ==> line[i] == tail[i - 30 - |v|];
  }

  lemma OrdinaryIsPlain(c: char)
    requires Ordinary(c)
    ensures !IsSpace(c) && c != '=' && c != '"' && c != 'v' && c != '['
  {
  }

  lemma LineKey(v: string)
    ensures EqualsAt(Line(v)) == 18 && HasEquals(Line(v)) && Key(Line(v)) == KEY
  {
    hide Line, FindFrom, IsSpace, SkipSpace, TrimEnd;
    Layout(v);
    var line := Line(v);
    forall i | 0 <= i < 18 ensures line[i] != '=' { OrdinaryIsPlain(line[i]); }
    FindExactly(line, '=', 0, 18);
    KeyOrdinary();
    OrdinaryIsPlain(KEY[0]);
    OrdinaryIsPlain(KEY[17]);
    StripNothing(KEY);
  }

  lemma StripNothing(s: string)
    requires s != "" && !IsSpace(s[0]) && !IsSpace(s[|s| - 1])
    ensures Strip(s) == s
  {
    assert s[0..|s|] == s;
  }

  lemma SkipNone(s: string, i: nat)
    requires i < |s| && !IsSpace(s[i])
    ensures SkipSpace(s, i) == i
  {
  }

  lemma LineVersion(word: char -> bool, v: string)
    requires !word('{') && Version(v)
    ensures VersionSpan(word, Line(v)) == Some(Span(29, 30 + |v|))
  {
    hide Line, FindFrom, SkipSpace, VersionFrom, At;
    Layout(v);
    var line := Line(v);
    SkipNone(line, 27);
    SkipNone(line, 28);
    assert At(line, 20, VERSION) by { AtMeans(line, 20); }
    forall i | 30 <= i < 30 + |v| ensures line[i] != '"' { assert line[i] == line[30..30 + |v|][i - 30]; }
    FindExactly(line, '"', 30, 30 + |v|);
    forall q | 0 <= q < 20 ensures VersionAt(word, line, q).None? {
      if q < 18 { OrdinaryIsPlain(line[q]); }
      AtMeans(line, q);
    }
    VersionFromAt(word, line, 0, 20);
  }

  lemma AtMeans(line: string, p: nat)
    ensures p + 7 <= |line| && line[p..p + 7] == VERSION ==> At(line, p, VERSION)
    ensures p < |line| && line[p] != 'v' ==> !At(line, p, VERSION)
  {
    if At(line, p, VERSION) { assert line[p] == line[p..p + 7][0] == VERSION[0]; }
  }

  // --- the path field ---------------------------------------------------------

  lemma PathWithin()
    ensures PathBehindKey(Line(WITHIN))
  {
    hide Line, SkipSpace, EqualsAt;
    LineKey(WITHIN);
    Layout(WITHIN);
    var line := Line(WITHIN);
    var value := line[19..];
    assert forall i :: 0 <= i < 7 ==> value[11 + i] == line[30..37][i] == WITHIN[i];
    assert value[13..17] == [value[13], value[14], value[15], value[16]] == PATH;
    SkipNone(value, 13);
    SkipNone(value, 17);
    assert value[11 + 1] == WITHIN[1] == ',' && value[11 + 6] == WITHIN[6] == '=';
    assert At(value, 13, PATH);
    assert PathFieldAt(value, 13);
  }

  lemma NoPathWithout()
    ensures !PathBehindKey(Line(OTHER))
  {
    hide Line, SkipSpace, EqualsAt;
    LineKey(OTHER);
    Layout(OTHER);
    var line := Line(OTHER);
    var value := line[19..];
    assert line[30] == line[30..31][0] == OTHER[0];
    Word(line);
    assert forall i :: 0 <= i < |value| ==> value[i] == line[i + 19];
    forall i | 0 <= i <= |value|
      ensures !PathFieldAt(value, i)
    {
      if i < 2 {
        SkipNone(value, i);
        assert value[i..i + 4][0] == value[i] && PATH[0] == 'p';
      } else {
        assert value[i - 1] != ',' && value[i - 1] != '{';
      }
    }
  }

  lemma Word(line: string)
    requires |line| >= 27 && line[20..27] == VERSION
    ensures forall i :: 20 <= i < 27 ==> line[i] == VERSION[i - 20] && line[i] != ',' && line[i] != '{'
  {
    assert forall i :: 20 <= i < 27 ==> line[i] == line[20..27][i - 20];
  }

  // --- the two manifests ------------------------------------------------------

  function Manifest(v: string): string { HEADER + Line(v) }

  lemma LineIsLine(v: string)
    requires Version(v)
    ensures IsLine(Line(v))
  {
    hide Line, FirstBreak, IsBreak;
    Layout(v);
    var line := Line(v);
    Word(line);
    forall i | 0 <= i < 32 + |v| ensures !IsBreak(line[i]) {
      if i < 18 { OrdinaryNoBreak(line[i]); }
      if 30 <= i < 30 + |v| { assert line[i] == line[30..30 + |v|][i - 30]; }
      if 20 <= i < 27 { LetterNoBreak(line[i]); }
      OthersNoBreak();
    }
    assert IsBreak('\n') by { OthersNoBreak(); }
    BreakAt(line, 0, 32 + |v|);
  }

  lemma OrdinaryNoBreak(c: char)
    requires Ordinary(c)
    ensures !IsBreak(c)
  {
  }

  lemma LetterNoBreak(c: char)
    requires c in VERSION
    ensures !IsBreak(c)
  {
  }

  lemma OthersNoBreak()
    ensures !IsBreak('=') && !IsBreak('{') && !IsBreak('"') && !IsBreak('}') && IsBreak('\n')
  {
  }

  lemma HeaderIsLine()
    ensures IsLine(HEADER) && Strip(HEADER) == DEPENDENCY_SECTION && IsHeader(HEADER)
  {
    hide FirstBreak;
    assert HEADER == DEPENDENCY_SECTION + "\n";
    assert |DEPENDENCY_SECTION| == 14;
    assert forall i :: 0 <= i < 14 ==> HEADER[i] == DEPENDENCY_SECTION[i] && !IsSpace(DEPENDENCY_SECTION[i]);
    BreakAt(HEADER, 0, 14);
    SkipNone(HEADER, 0);
    assert HEADER[..14] == DEPENDENCY_SECTION;
    assert TrimEnd(HEADER) == 14;
  }

  lemma ManifestLines(v: string)
    requires Version(v)
    ensures SplitLines(Manifest(v)) == [HEADER, Line(v)]
  {
    hide LineEnd, Line, SplitLines;
    LineIsLine(v);
    HeaderIsLine();
    Layout(v);
    var lines := [HEADER, Line(v)];
    assert lines[1..] == [Line(v)] && lines[1..][1..] == [];
    assert Parted(HEADER, Line(v)) by { OrdinaryIsPlain(Line(v)[0]); }
    assert AreLines(lines[1..]);
    assert Join(lines[1..]) == Line(v) + Join([]);
    assert Join(lines) == HEADER + Join(lines[1..]);
    assert Join(lines) == Manifest(v);
    SplitJoin(lines);
  }

  lemma NotHeader(v: string)
    ensures !IsHeader(Line(v))
  {
    hide Line, Key, Strip;
    LineKey(v);
    KeyStartsLine(Line(v));
    OrdinaryIsPlain(KEY[0]) by { KeyOrdinary(); }
  }

  // The line as rewritten, when its path field is found and when it is not.
  lemma LineNormal(word: char -> bool, v: string)
    requires !word('{') && Version(v)
    ensures var site := SiteOf(RulesFor(MANIFEST), word, DEPENDENCY_SECTION, Line(v));
            && site == (if PathBehindKey(Line(v)) then DependencyVersion(Span(29, 30 + |v|)) else NoSite)
            && NormLine(RulesFor(MANIFEST), word, DEPENDENCY_SECTION, Line(v))
               == (if PathBehindKey(Line(v)) then Line(ZERO) else Line(v))
  {
    hide Line, Key, VersionSpan, PathBehindKey;
    LineKey(v);
    LineVersion(word, v);
    assert !RulesFor(MANIFEST).workspace && KEY in RulesFor(MANIFEST).allowed;
    Respliced(v, ZERO);
    assert "=" + ZERO == EXACT;
  }

  lemma Respliced(v: string, w: string)
    ensures |Line(v)| >= 30 + |v| && Splice(Line(v), Span(29, 30 + |v|), "=" + w) == Line(w)
  {
    hide Line;
    Layout(v);
    Layout(w);
    var a, b := Line(v), Line(w);
    assert Line(v) == a[..30] + v + a[30 + |v|..];
    LineParts(v, w);
    assert a[..30] == a[..29] + ['='];
  }

  lemma LineParts(v: string, w: string)
    ensures |Line(v)| >= 30 + |v| && |Line(w)| >= 30 + |w| && Line(w) == Line(v)[..30] + w + Line(v)[30 + |v|..]
  {
    var head, tail := KEY + "={version=\"=", "\"}\n";
    KeyOrdinary();
    assert Line(v) == head + v + tail && Line(w) == head + w + tail;
    assert |head| == 30;
    assert Line(v)[..30] == head && Line(v)[30 + |v|..] == tail;
  }

  lemma TwoLines(rules: Rules, word: char -> bool, first: string, second: string)
    ensures var section := NextSection("", first);
            NormLines(rules, word, "", [first, second])
            == [NormLine(rules, word, section, first), NormLine(rules, word, NextSection(section, second), second)]
  {
    hide NormLine, NextSection;
    var lines := [first, second];
    assert lines[1..] == [second] && lines[1..][1..] == [];
  }

  lemma JoinTwo(first: string, second: string)
    ensures Join([first, second]) == first + second
  {
    var lines := [first, second];
    assert lines[1..] == [second] && lines[1..][1..] == [];
    assert Join([second]) == second + "";
  }

  lemma NormalManifest(word: char -> bool, v: string)
    requires !word('{') && Version(v)
    ensures Normalize(RulesFor(MANIFEST), word, Manifest(v))
              == if PathBehindKey(Line(v)) then Manifest(ZERO) else Manifest(v)
  {
    hide Line, SplitLines, Join, NormLine, NormLines, RulesFor, IsHeader, Strip, PathBehindKey;
    var rules := RulesFor(MANIFEST);
    ManifestLines(v);
    HeaderIsLine();
    NotHeader(v);
    TwoLines(rules, word, HEADER, Line(v));
    HeaderNormal(word);
    LineNormal(word, v);
    JoinTwo(HEADER, Line(v));
    JoinTwo(HEADER, Line(ZERO));
  }

  lemma HeaderNormal(word: char -> bool)
    ensures NormLine(RulesFor(MANIFEST), word, DEPENDENCY_SECTION, HEADER) == HEADER
  {
    hide FindFrom, Strip;
    assert forall i :: 0 <= i < |HEADER| ==> HEADER[i] != '=';
    assert EqualsAt(HEADER) == |HEADER|;
  }

  lemma Refills(word: char -> bool)
    requires !word('{')
    ensures Refilled(RulesFor(MANIFEST), word, "", SplitLines(Manifest(WITHIN)), SplitLines(Manifest(OTHER)))
  {
    hide Line, SplitLines, NormLine, RulesFor, IsHeader, Strip, PathBehindKey, SiteOf, Splice, Fits;
    var rules := RulesFor(MANIFEST);
    Versions();
    ManifestLines(WITHIN);
    ManifestLines(OTHER);
    HeaderIsLine();
    NotHeader(WITHIN);
    PathWithin();
    LineNormal(word, WITHIN);
    Respliced(WITHIN, OTHER);
    var a, b := [HEADER, Line(WITHIN)], [HEADER, Line(OTHER)];
    assert a[1..] == [Line(WITHIN)] && b[1..] == [Line(OTHER)] && a[1..][1..] == [] && b[1..][1..] == [];
    var site := SiteOf(rules, word, DEPENDENCY_SECTION, Line(WITHIN));
    assert Fits(site, "=" + OTHER) by { OtherFits(site); }
    assert RefilledLine(rules, word, DEPENDENCY_SECTION, Line(WITHIN), Line(OTHER));
    var now := NextSection("", HEADER);
    assert now == DEPENDENCY_SECTION && NextSection(now, Line(WITHIN)) == now;
    assert Refilled(rules, word, now, a[1..], b[1..]);
    assert RefilledLine(rules, word, now, HEADER, HEADER);
  }

  lemma OtherFits(site: Site)
    ensures Fits(site, "=" + OTHER)
  {
  }

  lemma Versions()
    ensures Version(WITHIN) && Version(OTHER) && Version(ZERO)
  {
  }

  // The manifests differ only in the enumerated value of the dependency, and their normal forms differ.
  lemma BlindnessNeedsRecognition(word: char -> bool)
    requires !word('{')
    ensures Refilled(RulesFor(MANIFEST), word, "", SplitLines(Manifest(WITHIN)), SplitLines(Manifest(OTHER)))
    ensures Normalize(RulesFor(MANIFEST), word, Manifest(WITHIN)) == Manifest(ZERO)
    ensures Normalize(RulesFor(MANIFEST), word, Manifest(OTHER)) == Manifest(OTHER) != Manifest(ZERO)
  {
    hide Line, SplitLines, NormLine, NormLines, RulesFor, PathBehindKey, Normalize, Refilled;
    Versions();
    Refills(word);
    PathWithin();
    NoPathWithout();
    NormalManifest(word, WITHIN);
    NormalManifest(word, OTHER);
    Layout(OTHER);
    Layout(ZERO);
  }
}
