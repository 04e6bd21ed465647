/** A text as its lines, each with its own break: splitting, joining, and what keeps the split. */
module TextLines {
  import opened VersionNormalization

  function FirstBreak(s: string, i: nat): (r: nat)
    requires i <= |s|
    ensures i <= r <= |s|
    ensures forall k :: i <= k < r ==> !IsBreak(s[k])
    ensures r < |s| ==> IsBreak(s[r])
    decreases |s| - i
  {
    if i == |s| || IsBreak(s[i]) then i else FirstBreak(s, i + 1)
  }

  // Where the first line ends, its break included; a carriage return takes a line feed along.
  function LineEnd(s: string): (r: nat)
    requires s != ""
    ensures 0 < r <= |s|
  {
    var e := FirstBreak(s, 0);
    if e == |s| then e
    else if s[e] == '\r' && e + 1 < |s| && s[e + 1] == '\n' then e + 2
    else e + 1
  }

  function SplitLines(text: string): seq<string> {
    if text == "" then [] else [text[..LineEnd(text)]] + SplitLines(text[LineEnd(text)..])
  }

  function Join(lines: seq<string>): string {
    if lines == [] then "" else lines[0] + Join(lines[1..])
  }

  predicate IsLine(line: string) { line != "" && LineEnd(line) == |line| }

  // A break between the two that they do not form together.
  predicate Parted(line: string, next: string)
    requires line != "" && next != ""
  {
    IsBreak(line[|line| - 1]) && !(line[|line| - 1] == '\r' && next[0] == '\n')
  }

  predicate AreLines(lines: seq<string>) {
    lines == [] ||
    (IsLine(lines[0]) && AreLines(lines[1..]) && (|lines| > 1 ==> lines[1] != "" && Parted(lines[0], lines[1])))
  }

  // The same, line by line.
  lemma {:induction false} LinesAre(lines: seq<string>)
    ensures AreLines(lines) <==>
              (forall i :: 0 <= i < |lines| ==> IsLine(lines[i]))
              && forall i, j :: 0 <= i && j == i + 1 < |lines| && IsLine(lines[i]) && IsLine(lines[j]) ==>
                 Parted(lines[i], lines[j])
  {
    hide LineEnd, Parted;
    if lines != [] {
      var rest := lines[1..];
      LinesAre(rest);
      assert forall i :: 0 <= i < |rest| ==> rest[i] == lines[i + 1];
      if AreLines(lines) {
        forall i | 0 <= i < |lines| ensures IsLine(lines[i]) { if i > 0 { assert IsLine(rest[i - 1]); } }
        forall i, j | 0 <= i && j == i + 1 < |lines| ensures Parted(lines[i], lines[j]) {
          if i > 0 { assert Parted(rest[i - 1], rest[i]); }
        }
      }
    }
  }

  lemma BreakAt(s: string, i: nat, r: nat)
    requires i <= r <= |s| && (forall k :: i <= k < r ==> !IsBreak(s[k])) && (r < |s| ==> IsBreak(s[r]))
    ensures FirstBreak(s, i) == r
  {
  }

  lemma LineEndAlone(text: string)
    requires text != ""
    ensures IsLine(text[..LineEnd(text)])
    ensures LineEnd(text) < |text| ==> Parted(text[..LineEnd(text)], text[LineEnd(text)..])
  {
    hide FirstBreak;
    var n := LineEnd(text);
    var e := FirstBreak(text, 0);
    var line := text[..n];
    BreakAt(line, 0, e);
  }

  lemma LineEndAppend(line: string, rest: string)
    requires IsLine(line) && (rest != "" ==> Parted(line, rest))
    ensures LineEnd(line + rest) == |line|
  {
    if rest == "" {
      assert line + rest == line;
    } else {
      BreakAt(line + rest, 0, FirstBreak(line, 0));
    }
  }

  lemma {:induction false} SplitIsLines(text: string)
    ensures AreLines(SplitLines(text)) && Join(SplitLines(text)) == text
    decreases |text|
  {
    hide LineEnd, IsLine, Parted;
    if text != "" {
      SplitIsLines(text[LineEnd(text)..]);
      LineEndAlone(text);
      var rest := text[LineEnd(text)..];
      var lines := SplitLines(text);
      assert lines[1..] == SplitLines(rest);
      if rest != "" {
        LineEndAlone(rest);
        assert SplitLines(rest)[0][0] == rest[0];
        PartedFirst(lines[0], rest, lines[1]);
      }
    }
  }

  lemma PartedFirst(line: string, a: string, b: string)
    requires line != "" && a != "" && b != "" && a[0] == b[0]
    ensures Parted(line, a) == Parted(line, b)
  {
  }

  // Lines that keep their breaks are split again as they were.
  lemma {:induction false} SplitJoin(lines: seq<string>)
    requires AreLines(lines)
    ensures SplitLines(Join(lines)) == lines
    decreases |lines|
  {
    hide LineEnd, Parted;
    if lines != [] {
      SplitJoin(lines[1..]);
      var line, rest := lines[0], Join(lines[1..]);
      if |lines| > 1 {
        assert lines[1] == lines[1..][0];
        assert rest[0] == lines[1][0];
        PartedFirst(line, rest, lines[1]);
      }
      LineEndAppend(line, rest);
      assert (line + rest)[..|line|] == line && (line + rest)[|line|..] == rest;
      assert Join(lines) == line + rest;
    }
  }

  // --- a value written between two quotes of a line ---------------------------

  lemma SpliceTail(line: string, span: Span, v: string)
    requires span.start <= span.stop <= |line|
    ensures var f := Splice(line, span, v);
            var d := |v| - (span.stop - span.start);
            |f| == |line| + d && forall k :: span.stop + d <= k < |f| ==> f[k] == line[k - d]
  {
  }

  lemma RewrittenIsLine(line: string, span: Span, v: string)
    requires IsLine(line) && 0 < span.start <= span.stop < |line| && line[span.stop] == '"' && NoBreaks(v)
    ensures var f := Splice(line, span, v);
            IsLine(f) && f[0] == line[0] && f[|f| - 1] == line[|line| - 1]
  {
    hide FirstBreak, Splice, IsBreak, LineEnd;
    var f, e := Splice(line, span, v), FirstBreak(line, 0);
    var d := |v| - (span.stop - span.start);
    SpliceFacts(line, span, v);
    SpliceTail(line, span, v);
    BreakMoves(line, span, v);
    EndMoves(line, f, d);
    assert f[|f| - 1] == line[|f| - 1 - d];
  }

  lemma EndMoves(line: string, f: string, d: int)
    requires line != "" && |f| == |line| + d > 0 && 0 <= FirstBreak(line, 0) + d == FirstBreak(f, 0)
    requires forall k :: FirstBreak(line, 0) + d <= k < |f| ==> f[k] == line[k - d]
    ensures LineEnd(f) == LineEnd(line) + d
  {
    hide FirstBreak;
  }

  lemma QuoteIsNoBreak()
    ensures !IsBreak('"')
  {
  }

  // The break of a line stands behind every place that holds none.
  lemma BreakBehind(line: string, i: nat)
    requires IsLine(line) && i < |line| && !IsBreak(line[i])
    ensures FirstBreak(line, 0) > i
  {
    hide FirstBreak;
  }

  // The break stays behind the value.
  lemma BreakMoves(line: string, span: Span, v: string)
    requires IsLine(line) && 0 < span.start <= span.stop < |line| && line[span.stop] == '"' && NoBreaks(v)
    ensures var e := FirstBreak(line, 0);
            e > span.stop && FirstBreak(Splice(line, span, v), 0) == e + |v| - (span.stop - span.start)
  {
    hide FirstBreak, Splice, IsBreak, IsLine;
    var f, e := Splice(line, span, v), FirstBreak(line, 0);
    var d := |v| - (span.stop - span.start);
    SpliceFacts(line, span, v);
    SpliceTail(line, span, v);
    QuoteIsNoBreak();
    BreakBehind(line, span.stop);
    forall k | 0 <= k < e + d
      ensures !IsBreak(f[k])
    {
      if k >= span.stop + d {
        assert f[k] == line[k - d];
      } else if k < span.start {
        assert f[k] == line[k];
      } else {
        assert f[k] == v[k - span.start];
      }
    }
    assert e < |line| ==> f[e + d] == line[e];
    BreakAt(f, 0, e + d);
  }
}
