/** Version-normalized identities: rewriting exactly the enumerated version values, line by line.

  A line is rewritten at a span: the text between the quotes of an assignment, or the `=...` between
  the quotes of a dependency's version field.
 */
module VersionNormalization {
  import opened Wrappers

  datatype Span = Span(start: nat, stop: nat)

  // --- characters -------------------------------------------------------------

  predicate IsBreak(c: char) {
    c in {'\n', '\r', '\U{0B}', '\U{0C}', '\U{1C}', '\U{1D}', '\U{1E}', '\U{85}', '\U{2028}', '\U{2029}'}
  }

  predicate IsSpace(c: char) {
    IsBreak(c) || c in {' ', '\t', '\U{1F}', '\U{A0}', '\U{1680}', '\U{202F}', '\U{205F}', '\U{3000}'}
    || '\U{2000}' <= c <= '\U{200A}'
  }

  // The line boundaries of `str.splitlines`, and the white space of `str.strip`, by codepoint.
  lemma BreaksAndSpaces(c: char)
    ensures IsBreak(c) <==>
              c as int in {0x0A, 0x0B, 0x0C, 0x0D, 0x1C, 0x1D, 0x1E, 0x85, 0x2028, 0x2029}
    ensures IsSpace(c) <==>
              || 0x09 <= c as int <= 0x0D || 0x1C <= c as int <= 0x20 || 0x2000 <= c as int <= 0x200A
              || c as int in {0x85, 0xA0, 0x1680, 0x2028, 0x2029, 0x202F, 0x205F, 0x3000}
  {
  }

  predicate NoneOf(s: string, c: char) { forall i :: 0 <= i < |s| ==> s[i] != c }

  predicate NoBreaks(s: string) { forall i :: 0 <= i < |s| ==> !IsBreak(s[i]) }

  // The first `c` at or behind `i`, or the length.
  function FindFrom(s: string, c: char, i: nat): (r: nat)
    requires i <= |s|
    ensures i <= r <= |s|
    ensures forall k :: i <= k < r ==> s[k] != c
    ensures r < |s| ==> s[r] == c
    decreases |s| - i
  {
    if i == |s| || s[i] == c then i else FindFrom(s, c, i + 1)
  }

  // The first character that is not a space at or behind `i`, or the length.
  function SkipSpace(s: string, i: nat): (r: nat)
    requires i <= |s|
    ensures i <= r <= |s|
    ensures forall k :: i <= k < r ==> IsSpace(s[k])
    ensures r < |s| ==> !IsSpace(s[r])
    decreases |s| - i
  {
    if i == |s| || !IsSpace(s[i]) then i else SkipSpace(s, i + 1)
  }

  function TrimEnd(s: string): (r: nat)
    ensures r <= |s|
    ensures r > 0 ==> !IsSpace(s[r - 1])
    ensures forall k :: r <= k < |s| ==> IsSpace(s[k])
  {
    if s == "" || !IsSpace(s[|s| - 1]) then |s| else TrimEnd(s[..|s| - 1])
  }

  function Strip(s: string): string {
    var i, j := SkipSpace(s, 0), TrimEnd(s);
    if i <= j then s[i..j] else ""
  }

  // --- the two kinds of span --------------------------------------------------

  function Splice(line: string, span: Span, value: string): string
    requires span.start <= span.stop <= |line|
  {
    line[..span.start] + value + line[span.stop..]
  }

  // `line.partition("=")`
  function EqualsAt(line: string): nat { FindFrom(line, '=', 0) }

  predicate HasEquals(line: string) { EqualsAt(line) < |line| }

  function Key(line: string): string { Strip(line[..EqualsAt(line)]) }

  // Where `_replace_assignment` writes and `_quoted_value` reads: between the quotes.
  function AssignmentSpan(line: string): (r: Option<Span>)
    ensures r.Some? ==> 2 <= r.value.start <= r.value.stop < |line| && line[r.value.stop] == '"'
  {
    if !HasEquals(line) then None
    else
      var q := SkipSpace(line, EqualsAt(line) + 1);
      if q == |line| || line[q] != '"' then None
      else
        var e := FindFrom(line, '"', q + 1);
        if e == |line| then None else Some(Span(q + 1, e))
  }

  const VERSION: string := "version"
  const PATH: string := "path"

  predicate At(line: string, p: nat, what: string) { p + |what| <= |line| && line[p..p + |what|] == what }

  // The part `\bversion\s*=\s*"=` at `p`: where its last `=` stands. `word` tells the characters a
  // word boundary looks at.
  function HeadAt(word: char -> bool, line: string, p: nat): (r: Option<nat>)
    ensures r.Some? ==> p + 9 <= r.value < |line| && line[r.value] == '='
  {
    if !At(line, p, VERSION) || (p > 0 && word(line[p - 1])) then None
    else
      var i := SkipSpace(line, p + 7);
      if i == |line| || line[i] != '=' then None
      else
        var j := SkipSpace(line, i + 1);
        if j + 1 >= |line| || line[j] != '"' || line[j + 1] != '=' then None else Some(j + 1)
  }

  // One attempt of `\bversion\s*=\s*"=[^"]+"` at `p`; the span holds `=...`.
  function VersionAt(word: char -> bool, line: string, p: nat): (r: Option<Span>)
    ensures r.Some? ==> p + 9 <= r.value.start && r.value.start + 2 <= r.value.stop < |line|
    ensures r.Some? ==> line[r.value.stop] == '"' && line[r.value.start] == '='
  {
    var head := HeadAt(word, line, p);
    if head.None? then None
    else
      var e := FindFrom(line, '"', head.value + 1);
      if e == |line| || e == head.value + 1 then None else Some(Span(head.value, e))
  }

  // The leftmost match at or behind `p`.
  function VersionFrom(word: char -> bool, line: string, p: nat): (r: Option<Span>)
    requires p <= |line|
    ensures r.Some? ==> p + 9 <= r.value.start && r.value.start + 2 <= r.value.stop < |line|
    ensures r.Some? ==> line[r.value.stop] == '"' && line[r.value.start] == '='
    decreases |line| - p
  {
    if p == |line| then None
    else if VersionAt(word, line, p).Some? then VersionAt(word, line, p)
    else VersionFrom(word, line, p + 1)
  }

  function VersionSpan(word: char -> bool, line: string): (r: Option<Span>)
    ensures r.Some? ==> 9 <= r.value.start && r.value.start + 2 <= r.value.stop < |line|
    ensures r.Some? ==> line[r.value.stop] == '"' && line[r.value.start] == '='
  {
    VersionFrom(word, line, 0)
  }

  // `(?:^|[,{])\s*path\s*=` somewhere in the value.
  predicate PathFieldAt(value: string, i: nat) {
    && i <= |value|
    && (i == 0 || value[i - 1] == ',' || value[i - 1] == '{')
    && var p := SkipSpace(value, i);
       At(value, p, PATH) && var e := SkipSpace(value, p + 4); e < |value| && value[e] == '='
  }

  predicate HasPathField(value: string) { exists i :: 0 <= i <= |value| && PathFieldAt(value, i) }

  // --- a span survives a new value --------------------------------------------

  lemma SamePrefixFind(a: string, b: string, c: char, i: nat, n: nat)
    requires n <= |a| && n <= |b| && a[..n] == b[..n] && i <= |a| && FindFrom(a, c, i) < n
    ensures i <= |b| && FindFrom(b, c, i) == FindFrom(a, c, i)
    decreases n - i
  {
    assert a[..n][i] == b[..n][i];
    if FindFrom(a, c, i) > i { SamePrefixFind(a, b, c, i + 1, n); }
  }

  lemma SamePrefixSkip(a: string, b: string, i: nat, n: nat)
    requires n <= |a| && n <= |b| && a[..n] == b[..n] && i <= |a| && SkipSpace(a, i) < n
    ensures i <= |b| && SkipSpace(b, i) == SkipSpace(a, i)
    decreases n - i
  {
    assert a[..n][i] == b[..n][i];
    if SkipSpace(a, i) > i { SamePrefixSkip(a, b, i + 1, n); }
  }

  // A key is where its line begins.
  lemma KeyStartsLine(line: string)
    requires Key(line) != ""
    ensures Strip(line) != "" && Strip(line)[0] == Key(line)[0]
  {
    var p := EqualsAt(line);
    var left := line[..p];
    assert left[..p] == line[..p] && |left| == p;
    var i := SkipSpace(left, 0);
    SamePrefixSkip(left, line, 0, p);
    assert line[i] == left[i];
    assert TrimEnd(line) > i;
  }

  lemma FindExactly(s: string, c: char, i: nat, r: nat)
    requires i <= r < |s| && s[r] == c && forall k :: i <= k < r ==> s[k] != c
    ensures FindFrom(s, c, i) == r
  {
  }

  lemma SpliceFacts(line: string, span: Span, v: string)
    requires span.start <= span.stop <= |line|
    ensures var f := Splice(line, span, v);
            && |f| == |line| - (span.stop - span.start) + |v|
            && f[..span.start] == line[..span.start]
            && f[span.start..span.start + |v|] == v
            && f[span.start + |v|..] == line[span.stop..]
            && (forall k :: 0 <= k < span.start ==> f[k] == line[k])
            && (forall k :: span.start <= k < span.start + |v| ==> f[k] == v[k - span.start])
            && (span.stop < |line| ==> f[span.start + |v|] == line[span.stop])
  {
  }

  lemma SpliceTwice(line: string, span: Span, v: string, w: string)
    requires span.start <= span.stop <= |line|
    ensures var f := Splice(line, span, v);
            span.start + |v| <= |f| && Splice(f, Span(span.start, span.start + |v|), w) == Splice(line, span, w)
  {
    SpliceFacts(line, span, v);
  }

  // A rewritten assignment is found again, with the new value between its quotes.
  lemma AssignmentSurvives(line: string, v: string)
    requires AssignmentSpan(line).Some? && NoneOf(v, '"')
    ensures var span := AssignmentSpan(line).value;
            var f := Splice(line, span, v);
            && AssignmentSpan(f) == Some(Span(span.start, span.start + |v|))
            && Key(f) == Key(line) && EqualsAt(f) == EqualsAt(line) < span.start
  {
    hide Splice, SkipSpace, FindFrom, Strip;
    var span := AssignmentSpan(line).value;
    var f := Splice(line, span, v);
    var p := EqualsAt(line);
    SpliceFacts(line, span, v);
    SamePrefixFind(line, f, '=', 0, span.start);
    assert f[..p] == f[..span.start][..p] == line[..span.start][..p] == line[..p];
    SamePrefixSkip(line, f, p + 1, span.start);
    FindExactly(f, '"', span.start, span.start + |v|);
  }

  lemma SamePrefixAt(a: string, b: string, k: nat, n: nat)
    requires k < n <= |a| && n <= |b| && a[..n] == b[..n]
    ensures a[k] == b[k]
  {
    assert a[..n][k] == b[..n][k];
  }

  lemma SamePrefixWord(a: string, b: string, p: nat, n: nat)
    requires p + 7 <= n <= |a| && n <= |b| && a[..n] == b[..n] && At(a, p, VERSION)
    ensures At(b, p, VERSION)
  {
    assert a[p..p + 7] == a[..n][p..p + 7] == b[..n][p..p + 7] == b[p..p + 7];
  }

  // The head of a match depends only on the text up to its last `=`.
  lemma HeadSame(word: char -> bool, a: string, b: string, p: nat)
    requires HeadAt(word, a, p).Some?
    requires var s := HeadAt(word, a, p).value; s + 1 <= |b| && a[..s + 1] == b[..s + 1]
    ensures HeadAt(word, b, p) == HeadAt(word, a, p)
  {
    hide SkipSpace, At, IsSpace;
    var n := HeadAt(word, a, p).value + 1;
    var i := SkipSpace(a, p + 7);
    var j := SkipSpace(a, i + 1);
    SamePrefixWord(a, b, p, n);
    SamePrefixSkip(a, b, p + 7, n);
    SamePrefixSkip(a, b, i + 1, n);
    SamePrefixAt(a, b, i, n);
    SamePrefixAt(a, b, j, n);
    SamePrefixAt(a, b, j + 1, n);
    if p > 0 { SamePrefixAt(a, b, p - 1, n); }
  }

  // The value of a version field: `=` and at least one more character, none of them a quote.
  predicate VersionValue(v: string) { |v| >= 2 && v[0] == '=' && NoneOf(v, '"') }

  lemma WordsApart(f: string, q: nat, p: nat)
    requires At(f, q, VERSION) && At(f, p, VERSION) && q < p
    ensures q + 7 <= p && f[p] == 'v' && !IsSpace(f[p])
  {
    assert f[p] == f[p..p + 7][0];
    assert f[q + 1] == f[q..q + 7][1] && f[q + 2] == f[q..q + 7][2] && f[q + 3] == f[q..q + 7][3];
    assert f[q + 4] == f[q..q + 7][4] && f[q + 5] == f[q..q + 7][5] && f[q + 6] == f[q..q + 7][6];
  }

  // A head ends before the word `version` can begin again.
  lemma HeadEndsBefore(word: char -> bool, f: string, q: nat, p: nat)
    requires HeadAt(word, f, q).Some? && q < p && At(f, p, VERSION)
    ensures HeadAt(word, f, q).value < p
  {
    hide SkipSpace, At, IsSpace;
    var i := SkipSpace(f, q + 7);
    var j := SkipSpace(f, i + 1);
    WordsApart(f, q, p);
  }

  // An attempt in front of the match has not seen past it: it fails on the rewritten line as well.
  lemma NoEarlierMatch(word: char -> bool, line: string, p: nat, q: nat, v: string)
    requires VersionAt(word, line, p).Some? && q < p && VersionAt(word, line, q).None? && VersionValue(v)
    ensures VersionAt(word, Splice(line, VersionAt(word, line, p).value, v), q).None?
  {
    hide HeadAt, SkipSpace, Splice;
    var span := VersionAt(word, line, p).value;
    var f := Splice(line, span, v);
    SpliceFacts(line, span, v);
    if HeadAt(word, f, q).Some? {
      var s := HeadAt(word, f, q).value;
      HeadIsVersion(word, line, p);
      assert f[p..p + 7] == f[..span.start][p..p + 7] == line[..span.start][p..p + 7] == line[p..p + 7];
      HeadEndsBefore(word, f, q, p);
      assert f[..s + 1] == f[..span.start][..s + 1] == line[..span.start][..s + 1] == line[..s + 1];
      HeadSame(word, f, line, q);
      // The quote that closes the match at `p` would have closed this one, had it been long enough.
      assert line[span.stop] == '"';
      assert f[s + 1] == line[s + 1];
    }
  }

  lemma HeadIsVersion(word: char -> bool, line: string, p: nat)
    requires HeadAt(word, line, p).Some?
    ensures At(line, p, VERSION) && p + 9 <= HeadAt(word, line, p).value
  {
  }

  lemma VersionFromAt(word: char -> bool, line: string, q: nat, p: nat)
    requires q <= p < |line| && VersionAt(word, line, p).Some?
    requires forall k :: q <= k < p ==> VersionAt(word, line, k).None?
    ensures VersionFrom(word, line, q) == VersionAt(word, line, p)
    decreases p - q
  {
    if q < p { VersionFromAt(word, line, q + 1, p); }
  }

  lemma FirstMatch(word: char -> bool, line: string, q: nat) returns (p: nat)
    requires q <= |line| && VersionFrom(word, line, q).Some?
    ensures q <= p < |line| && VersionAt(word, line, p) == VersionFrom(word, line, q)
    ensures forall k :: q <= k < p ==> VersionAt(word, line, k).None?
    decreases |line| - q
  {
    hide VersionAt;
    if VersionAt(word, line, q).Some? { p := q; } else { p := FirstMatch(word, line, q + 1); }
  }

  // A rewritten version field is the leftmost match again, with the new value.
  lemma VersionSurvives(word: char -> bool, line: string, v: string)
    requires VersionSpan(word, line).Some? && VersionValue(v)
    ensures var span := VersionSpan(word, line).value;
            VersionSpan(word, Splice(line, span, v)) == Some(Span(span.start, span.start + |v|))
  {
    hide VersionAt, Splice, VersionFrom;
    var span := VersionSpan(word, line).value;
    var f := Splice(line, span, v);
    SpliceFacts(line, span, v);
    var p := FirstMatch(word, line, 0);
    AttemptSurvives(word, line, p, v);
    forall q | 0 <= q < p
      ensures VersionAt(word, f, q).None?
    {
      NoEarlierMatch(word, line, p, q, v);
    }
    VersionFromAt(word, f, 0, p);
  }

  lemma AttemptSurvives(word: char -> bool, line: string, p: nat, v: string)
    requires VersionAt(word, line, p).Some? && VersionValue(v)
    ensures var span := VersionAt(word, line, p).value;
            && VersionAt(word, Splice(line, span, v), p) == Some(Span(span.start, span.start + |v|))
            && p < |Splice(line, span, v)|
  {
    hide HeadAt, Splice, FindFrom;
    var span := VersionAt(word, line, p).value;
    var f := Splice(line, span, v);
    SpliceFacts(line, span, v);
    assert f[..span.start + 1] == f[..span.start] + [f[span.start]];
    assert line[..span.start + 1] == line[..span.start] + [line[span.start]];
    HeadSame(word, line, f, p);
    assert forall k :: span.start + 1 <= k < span.start + |v| ==> f[k] == v[k - span.start] != '"';
    FindExactly(f, '"', span.start + 1, span.start + |v|);
  }
}
