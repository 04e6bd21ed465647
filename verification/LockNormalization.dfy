/** Normalizing a lock file in place: the version of every package of the workspace, block by block. */
module LockNormalization {
  import opened TextLines
  import opened VersionNormalization
  import opened Wrappers

  const PACKAGE_HEADER: string := "[[package]]"
  const NAME: string := "name"
  const PLAIN: string := "0.0.0"
  const WORKSPACE_PACKAGES: set<string> := {
    "toktier", "toktier-cuda-driver", "toktier-gigatoken-core", "toktier-py",
    "toktier-routing-core", "toktier-store-core", "toktier-store-sqlite"}

  predicate IsStart(line: string) { Strip(line) == PACKAGE_HEADER }

  predicate IsField(line: string, key: string) { HasEquals(line) && Key(line) == key }

  // `_quoted_value`
  function QuotedValue(line: string): Option<string> {
    var span := AssignmentSpan(line);
    if span.None? then None else Some(line[span.value.start..span.value.stop])
  }

  // `_replace_assignment`
  function ReplaceAssignment(line: string, value: string): string {
    var span := AssignmentSpan(line);
    if span.None? then line else Splice(line, span.value, value)
  }

  // --- which lines are rewritten ----------------------------------------------

  // The last header in front of `n`; the first header at or behind `i`, or the length.
  function LastStart(lines: seq<string>, n: nat): (r: Option<nat>)
    requires n <= |lines|
    ensures r.Some? ==> r.value < n
  {
    if n == 0 then None else if IsStart(lines[n - 1]) then Some(n - 1) else LastStart(lines, n - 1)
  }

  function NextStart(lines: seq<string>, i: nat): (r: nat)
    requires i <= |lines|
    ensures i <= r <= |lines|
    decreases |lines| - i
  {
    if i == |lines| || IsStart(lines[i]) then i else NextStart(lines, i + 1)
  }

  // The last line of a block that assigns the key: a later field replaces an earlier one.
  function LastField(lines: seq<string>, key: string, from: nat, stop: nat): (r: Option<nat>)
    requires from <= stop <= |lines|
    ensures r.Some? ==> from <= r.value < stop && IsField(lines[r.value], key)
    ensures r.Some? ==> forall k :: r.value < k < stop ==> !IsField(lines[k], key)
    ensures r.None? ==> forall k :: from <= k < stop ==> !IsField(lines[k], key)
    decreases stop
  {
    if from == stop then None
    else if IsField(lines[stop - 1], key) then Some(stop - 1)
    else LastField(lines, key, from, stop - 1)
  }

  predicate OfWorkspace(lines: seq<string>, name: Option<nat>)
    requires name.Some? ==> name.value < |lines|
  {
    name.Some? && QuotedValue(lines[name.value]).Some? && QuotedValue(lines[name.value]).value in WORKSPACE_PACKAGES
  }

  // Line `i` holds the version of the block it stands in, and that block names a workspace package.
  predicate Rewritten(lines: seq<string>, i: nat)
    requires i < |lines|
  {
    var start := LastStart(lines, i + 1);
    && start.Some?
    && var from, stop := start.value + 1, NextStart(lines, start.value + 1);
       && LastField(lines, VERSION, from, stop) == Some(i)
       && OfWorkspace(lines, LastField(lines, NAME, from, stop))
  }

  function NormalLine(lines: seq<string>, i: nat): string
    requires i < |lines|
  {
    if Rewritten(lines, i) then ReplaceAssignment(lines[i], PLAIN) else lines[i]
  }

  function NormalLines(lines: seq<string>): (r: seq<string>)
    ensures |r| == |lines|
  {
    seq(|lines|, i requires 0 <= i < |lines| => NormalLine(lines, i))
  }

  function Normalize(text: string): string { Join(NormalLines(SplitLines(text))) }

  // --- the pass that rewrites in place ----------------------------------------

  function Reached(starts: seq<nat>, j: nat, n: nat): nat { if j < |starts| then starts[j] else n }

  predicate AreStarts(lines: seq<string>, starts: seq<nat>, n: nat)
    requires n <= |lines|
  {
    && (forall j :: 0 <= j < |starts| ==> starts[j] < n && IsStart(lines[starts[j]]))
    && (forall j, k :: 0 <= j < k < |starts| ==> starts[j] < starts[k])
    && (forall i :: 0 <= i < n && IsStart(lines[i]) ==> i in starts)
  }

  lemma BlockBounds(lines: seq<string>, starts: seq<nat>, j: nat, end: nat)
    requires AreStarts(lines, starts, |lines|) && j < |starts| && end == Reached(starts, j + 1, |lines|)
    ensures starts[j] < end <= |lines| && NextStart(lines, starts[j] + 1) == end
    ensures forall i :: starts[j] < i < end ==> !IsStart(lines[i])
  {
    hide IsStart, NextStart, AreStarts;
    BlockEnds(lines, starts, j, end);
    forall i | starts[j] < i < end ensures !IsStart(lines[i]) { NoneBetween(lines, starts, j, i); }
    NextStartIs(lines, starts[j] + 1, end);
  }

  lemma BlockEnds(lines: seq<string>, starts: seq<nat>, j: nat, end: nat)
    requires AreStarts(lines, starts, |lines|) && j < |starts| && end == Reached(starts, j + 1, |lines|)
    ensures starts[j] < end <= |lines| && (end < |lines| ==> IsStart(lines[end]))
  {
    hide IsStart;
  }

  lemma NoneBetween(lines: seq<string>, starts: seq<nat>, j: nat, i: nat)
    requires AreStarts(lines, starts, |lines|) && j < |starts| && starts[j] < i < Reached(starts, j + 1, |lines|)
    requires i < |lines|
    ensures !IsStart(lines[i])
  {
    hide IsStart;
    if IsStart(lines[i]) {
      var k :| 0 <= k < |starts| && starts[k] == i;
      assert false;
    }
  }

  lemma {:induction false} NextStartIs(lines: seq<string>, i: nat, r: nat)
    requires i <= r <= |lines| && (r < |lines| ==> IsStart(lines[r])) && forall k :: i <= k < r ==> !IsStart(lines[k])
    ensures NextStart(lines, i) == r
    decreases r - i
  {
    hide IsStart;
    if i < r { NextStartIs(lines, i + 1, r); }
  }

  // What the specification says of a line of block `j`.
  lemma BlockLine(lines: seq<string>, starts: seq<nat>, j: nat, end: nat, i: nat)
    requires AreStarts(lines, starts, |lines|) && j < |starts| && end == Reached(starts, j + 1, |lines|)
    requires starts[j] <= i < end
    ensures Rewritten(lines, i) <==>
              LastField(lines, VERSION, starts[j] + 1, end) == Some(i)
              && OfWorkspace(lines, LastField(lines, NAME, starts[j] + 1, end))
  {
    hide IsStart, LastField, OfWorkspace, IsField;
    BlockBounds(lines, starts, j, end);
    LastStartIs(lines, i + 1, starts[j]);
  }

  lemma {:induction false} LastStartIs(lines: seq<string>, n: nat, s: nat)
    requires s < n <= |lines| && IsStart(lines[s]) && forall k :: s < k < n ==> !IsStart(lines[k])
    ensures LastStart(lines, n) == Some(s)
  {
    hide IsStart;
    if s < n - 1 { LastStartIs(lines, n - 1, s); }
  }

  lemma FirstBlock(lines: seq<string>, starts: seq<nat>, i: nat)
    requires AreStarts(lines, starts, |lines|) && i < |lines| && (starts != [] ==> i < starts[0])
    ensures !Rewritten(lines, i)
  {
    hide IsStart, LastField, NextStart, LastStart;
    assert forall k :: 0 <= k <= i ==> k !in starts;
    NoStart(lines, i + 1);
  }

  lemma {:induction false} NoStart(lines: seq<string>, n: nat)
    requires n <= |lines| && forall k :: 0 <= k < n ==> !IsStart(lines[k])
    ensures LastStart(lines, n).None?
  {
    hide IsStart;
    if n > 0 { NoStart(lines, n - 1); }
  }

  method Fields(lines: array<string>, start: nat, end: nat) returns (name: Option<nat>, version: Option<nat>)
    requires start < end <= lines.Length
    ensures name == LastField(lines[..], NAME, start + 1, end)
    ensures version == LastField(lines[..], VERSION, start + 1, end)
  {
    hide IsField;
    name, version := None, None;
    for i := start + 1 to end
      invariant name == LastField(lines[..], NAME, start + 1, i)
      invariant version == LastField(lines[..], VERSION, start + 1, i)
    {
      if IsField(lines[i], NAME) {
        name := Some(i);
      }
      if IsField(lines[i], VERSION) {
        version := Some(i);
      }
    }
  }

  lemma KeptLine(lines: seq<string>, i: nat)
    requires i < |lines| && !Rewritten(lines, i)
    ensures NormalLine(lines, i) == lines[i]
  {
  }

  method NormalizeLines(lines: array<string>)
    modifies lines
    ensures lines[..] == NormalLines(old(lines[..]))
  {
    hide IsStart, LastField, NextStart, LastStart, OfWorkspace, ReplaceAssignment, Rewritten, NormalLine;
    ghost var was := lines[..];
    var starts: seq<nat> := [];
    for i := 0 to lines.Length
      invariant lines[..] == was
      invariant AreStarts(was, starts, i)
    {
      if IsStart(lines[i]) { starts := starts + [i]; }
    }
    forall i | 0 <= i < lines.Length && (starts != [] ==> i < starts[0])
      ensures NormalLine(was, i) == was[i]
    {
      FirstBlock(was, starts, i);
      KeptLine(was, i);
    }
    for j := 0 to |starts|
      invariant |was| == lines.Length
      invariant forall i :: 0 <= i < Reached(starts, j, lines.Length) ==> lines[i] == NormalLine(was, i)
      invariant forall i :: Reached(starts, j, lines.Length) <= i < lines.Length ==> lines[i] == was[i]
    {
      RewriteBlock(lines, was, starts, j);
    }
  }

  method RewriteBlock(lines: array<string>, ghost was: seq<string>, starts: seq<nat>, j: nat)
    requires |was| == lines.Length && AreStarts(was, starts, |was|) && j < |starts|
    requires forall i :: starts[j] <= i < lines.Length ==> lines[i] == was[i]
    modifies lines
    ensures var end := Reached(starts, j + 1, lines.Length);
            && starts[j] < end
            && (forall i :: starts[j] <= i < end ==> lines[i] == NormalLine(was, i))
            && (forall i :: 0 <= i < starts[j] || end <= i < lines.Length ==> lines[i] == old(lines[i]))
  {
    hide IsStart, NextStart, LastStart, ReplaceAssignment, QuotedValue, AreStarts, LastField, Rewritten, OfWorkspace,
         IsField;
    var start, end := starts[j], Reached(starts, j + 1, lines.Length);
    assert start < end <= lines.Length by { BlockBounds(was, starts, j, end); }
    var name, version := Fields(lines, start, end);
    SameFields(lines[..], was, NAME, start + 1, end);
    SameFields(lines[..], was, VERSION, start + 1, end);
    forall i | start <= i < end
      ensures Rewritten(was, i) <==> version == Some(i) && OfWorkspace(was, name)
    {
      BlockLine(was, starts, j, end, i);
    }
    SameWorkspace(lines[..], was, name);
    if version.Some? && OfWorkspace(lines[..], name) {
      lines[version.value] := ReplaceAssignment(lines[version.value], PLAIN);
    }
  }

  lemma SameWorkspace(a: seq<string>, b: seq<string>, name: Option<nat>)
    requires name.Some? ==> name.value < |a| == |b| && b[name.value] == a[name.value]
    ensures OfWorkspace(a, name) == OfWorkspace(b, name)
  {
  }

  lemma SameFields(a: seq<string>, b: seq<string>, key: string, from: nat, stop: nat)
    requires from <= stop <= |a| == |b| && forall i :: from <= i < stop ==> IsField(a[i], key) == IsField(b[i], key)
    ensures LastField(a, key, from, stop) == LastField(b, key, from, stop)
  {
    hide IsField;
    if from < stop && !IsField(a[stop - 1], key) { SameFields(a, b, key, from, stop - 1); }
  }

  method NormalizeLock(text: string) returns (output: string)
    ensures output == Normalize(text)
  {
    hide NormalLines, SplitLines, Join;
    var split := SplitLines(text);
    var lines := new string[|split|](i requires 0 <= i < |split| => split[i]);
    assert lines[..] == split;
    NormalizeLines(lines);
    output := Join(lines[..]);
  }

  // --- what the pass cannot see -----------------------------------------------

  // Line `i` of `b` is line `i` of `a`, or `a` rewrites it and it only holds another value.
  ghost predicate RefilledAt(a: seq<string>, b: seq<string>, i: nat)
    requires i < |a| == |b|
  {
    b[i] == a[i] ||
    (Rewritten(a, i) && AssignmentSpan(a[i]).Some?
     && exists v :: NoneOf(v, '"') && NoBreaks(v) && b[i] == Splice(a[i], AssignmentSpan(a[i]).value, v))
  }

  ghost predicate Refilled(a: seq<string>, b: seq<string>) {
    |a| == |b| && forall i :: 0 <= i < |a| ==> RefilledAt(a, b, i)
  }

  // Everything the pass reads of a line is what it was: only the value of a version may differ.
  ghost predicate ReadsSame(a: string, b: string) {
    && IsStart(b) == IsStart(a) && IsField(b, VERSION) == IsField(a, VERSION) && IsField(b, NAME) == IsField(a, NAME)
    && (IsField(a, NAME) ==> QuotedValue(b) == QuotedValue(a))
    && (IsField(a, VERSION) ==> ReplaceAssignment(b, PLAIN) == ReplaceAssignment(a, PLAIN))
    && (!IsField(a, VERSION) ==> b == a)
  }

  lemma RefilledVersion(line: string, v: string)
    requires IsField(line, VERSION) && AssignmentSpan(line).Some? && NoneOf(v, '"')
    ensures ReadsSame(line, Splice(line, AssignmentSpan(line).value, v))
  {
    hide Strip, Splice, AssignmentSpan, FindFrom;
    var span := AssignmentSpan(line).value;
    var f := Splice(line, span, v);
    AssignmentSurvives(line, v);
    SpliceTwice(line, span, v, PLAIN);
    KeyStartsLine(line);
    KeyStartsLine(f);
  }

  lemma RefilledReadsSame(a: seq<string>, b: seq<string>, i: nat)
    requires i < |a| == |b| && RefilledAt(a, b, i)
    ensures ReadsSame(a[i], b[i]) && (!Rewritten(a, i) ==> b[i] == a[i])
  {
    hide IsStart, IsField, AssignmentSpan, Splice, ReadsSame, OfWorkspace, NextStart;
    if b[i] == a[i] {
      SameReadsSame(a[i]);
    } else {
      var v :| NoneOf(v, '"') && NoBreaks(v) && b[i] == Splice(a[i], AssignmentSpan(a[i]).value, v);
      RefilledVersion(a[i], v);
    }
  }

  lemma SameReadsSame(line: string)
    ensures ReadsSame(line, line)
  {
  }

  lemma SameLastStart(a: seq<string>, b: seq<string>, n: nat)
    requires n <= |a| == |b| && forall i :: 0 <= i < |a| ==> IsStart(b[i]) == IsStart(a[i])
    ensures LastStart(b, n) == LastStart(a, n)
  {
    hide IsStart;
    if n > 0 { SameLastStart(a, b, n - 1); }
  }

  lemma SameNextStart(a: seq<string>, b: seq<string>, i: nat)
    requires i <= |a| == |b| && forall k :: 0 <= k < |a| ==> IsStart(b[k]) == IsStart(a[k])
    ensures NextStart(b, i) == NextStart(a, i)
    decreases |a| - i
  {
    hide IsStart;
    if i < |a| { SameNextStart(a, b, i + 1); }
  }

  lemma SameRewritten(a: seq<string>, b: seq<string>, i: nat)
    requires i < |a| == |b| && forall k :: 0 <= k < |a| ==> ReadsSame(a[k], b[k])
    requires !Rewritten(a, i) ==> b[i] == a[i]
    ensures Rewritten(b, i) == Rewritten(a, i) && NormalLine(b, i) == NormalLine(a, i)
  {
    hide IsStart, IsField, ReplaceAssignment, QuotedValue, Rewritten;
    SameDecision(a, b, i);
    if Rewritten(a, i) {
      RewrittenIsField(a, i);
      assert ReadsSame(a[i], b[i]);
    }
  }

  lemma RewrittenIsField(lines: seq<string>, i: nat)
    requires i < |lines| && Rewritten(lines, i)
    ensures IsField(lines[i], VERSION)
  {
    hide IsStart, IsField, QuotedValue, OfWorkspace;
  }

  // Whether a line is rewritten is read off what the two have in common.
  lemma SameDecision(a: seq<string>, b: seq<string>, i: nat)
    requires i < |a| == |b| && forall k :: 0 <= k < |a| ==> ReadsSame(a[k], b[k])
    ensures Rewritten(b, i) == Rewritten(a, i)
  {
    hide IsStart, IsField, ReplaceAssignment, QuotedValue, LastField, LastStart, NextStart;
    SameLastStart(a, b, i + 1);
    var start := LastStart(a, i + 1);
    if start.Some? {
      var from := start.value + 1;
      SameNextStart(a, b, from);
      SameFields(b, a, VERSION, from, NextStart(a, from));
      SameFields(b, a, NAME, from, NextStart(a, from));
    }
  }

  // Filling the versions of the workspace packages with other values never changes the normal form.
  lemma LinesBlind(a: seq<string>, b: seq<string>)
    requires Refilled(a, b)
    ensures NormalLines(a) == NormalLines(b)
  {
    hide ReadsSame, RefilledAt, Rewritten, NormalLine;
    forall i | 0 <= i < |a|
      ensures ReadsSame(a[i], b[i]) && (!Rewritten(a, i) ==> b[i] == a[i])
    {
      RefilledReadsSame(a, b, i);
    }
    forall i | 0 <= i < |a|
      ensures NormalLine(b, i) == NormalLine(a, i)
    {
      SameRewritten(a, b, i);
    }
  }

  lemma NormalIsRefill(lines: seq<string>)
    ensures Refilled(lines, NormalLines(lines))
  {
    hide Rewritten, AssignmentSpan, Splice;
    forall i | 0 <= i < |lines|
      ensures RefilledAt(lines, NormalLines(lines), i)
    {
      assert NormalLines(lines)[i] == NormalLine(lines, i);
      assert NoneOf(PLAIN, '"') && NoBreaks(PLAIN);
    }
  }

  lemma RefilledLineIsLine(a: seq<string>, b: seq<string>, i: nat)
    requires i < |a| == |b| && IsLine(a[i]) && RefilledAt(a, b, i)
    ensures IsLine(b[i]) && b[i][0] == a[i][0] && b[i][|b[i]| - 1] == a[i][|a[i]| - 1]
  {
    hide Rewritten, Splice, IsLine;
    if b[i] != a[i] {
      var v :| NoneOf(v, '"') && NoBreaks(v) && b[i] == Splice(a[i], AssignmentSpan(a[i]).value, v);
      RewrittenIsLine(a[i], AssignmentSpan(a[i]).value, v);
    }
  }

  lemma RefilledAreLines(a: seq<string>, b: seq<string>)
    requires AreLines(a) && Refilled(a, b)
    ensures AreLines(b)
  {
    hide RefilledAt, LineEnd;
    LinesAre(a);
    forall i | 0 <= i < |a|
      ensures IsLine(b[i]) && b[i][0] == a[i][0] && b[i][|b[i]| - 1] == a[i][|a[i]| - 1]
    {
      RefilledLineIsLine(a, b, i);
    }
    LinesAre(b);
  }

  lemma NormalizeKeepsTheRest(text: string)
    ensures var lines := SplitLines(text);
            var normal := SplitLines(Normalize(text));
            |normal| == |lines| && Refilled(lines, normal) && normal == NormalLines(lines)
  {
    hide NormalLines, Refilled, SplitLines, Join, AreLines;
    var lines := SplitLines(text);
    SplitIsLines(text);
    NormalIsRefill(lines);
    RefilledAreLines(lines, NormalLines(lines));
    SplitJoin(NormalLines(lines));
  }

  lemma NormalizeIdempotent(text: string)
    ensures Normalize(Normalize(text)) == Normalize(text)
  {
    hide NormalLines, Refilled, SplitLines, Join;
    NormalizeKeepsTheRest(text);
    NormalIsRefill(SplitLines(text));
    LinesBlind(SplitLines(text), NormalLines(SplitLines(text)));
  }

  // Two lock files that differ only in versions of workspace packages normalize to the same text.
  lemma NormalizeBlind(a: string, b: string)
    requires Refilled(SplitLines(a), SplitLines(b))
    ensures Normalize(a) == Normalize(b)
  {
    hide NormalLines, Refilled, SplitLines, Join;
    LinesBlind(SplitLines(a), SplitLines(b));
  }
}
