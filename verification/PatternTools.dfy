/** Reading the splitters' own patterns: top-level alternatives and bracketed character classes. */
module PatternTools {
  import opened Wrappers

  // --- alternatives -----------------------------------------------------------

  // How many characters one step takes: an escape keeps the character behind it.
  function StepLength(p: string): (n: nat)
    requires p != ""
    ensures 1 <= n <= |p|
  {
    if p[0] == '\\' && |p| > 1 then 2 else 1
  }

  // Whether the scan is inside a bracketed class after the step.
  function After(p: string, inClass: bool): bool
    requires p != ""
  {
    if p[0] == '[' then true else if p[0] == ']' then false else inClass
  }

  predicate Bar(p: string, inClass: bool) { p != "" && p[0] == '|' && !inClass }

  function Prepend(x: string, pieces: seq<string>): (r: seq<string>)
    requires pieces != []
    ensures |r| == |pieces|
  {
    [x + pieces[0]] + pieces[1..]
  }

  function Split(p: string, inClass: bool): (r: seq<string>)
    ensures r != []
    decreases |p|
  {
    if p == "" then [""]
    else if Bar(p, inClass) then [""] + Split(p[1..], inClass)
    else Prepend(p[..StepLength(p)], Split(p[StepLength(p)..], After(p, inClass)))
  }

  function Join(pieces: seq<string>): string
    requires pieces != []
  {
    if |pieces| == 1 then pieces[0] else pieces[0] + "|" + Join(pieces[1..])
  }

  method SplitTopAlternatives(pattern: string) returns (alternatives: seq<string>)
    ensures alternatives == Split(pattern, false)
  {
    hide Split;
    alternatives := [];
    var buffer := "";
    var index := 0;
    var inClass := false;
    assert pattern[0..] == pattern;
    PrependNothing(Split(pattern, false));
    while index < |pattern|
      invariant index <= |pattern|
      invariant alternatives + Prepend(buffer, Split(pattern[index..], inClass)) == Split(pattern, false)
    {
      var rest := pattern[index..];
      SplitStep(rest, inClass);
      ghost var later := Split(rest[StepLength(rest)..], After(rest, inClass));
      var c := pattern[index];
      if c == '\\' {
        var stop := if index + 2 <= |pattern| then index + 2 else |pattern|;
        assert pattern[stop..] == rest[StepLength(rest)..];
        assert pattern[index..stop] == rest[..StepLength(rest)];
        PrependTwice(buffer, pattern[index..stop], later);
        buffer := buffer + pattern[index..stop];
        index := stop;
        continue;
      }
      assert pattern[index + 1..] == rest[1..];
      if c == '[' && !inClass {
        inClass := true;
      } else if c == ']' && inClass {
        inClass := false;
      } else if c == '|' && !inClass {
        ghost var next := Split(rest[1..], false);
        assert Prepend(buffer, [""] + next) == [buffer] + next by { assert buffer + "" == buffer; }
        assert alternatives + ([buffer] + next) == (alternatives + [buffer]) + next;
        PrependNothing(next);
        alternatives := alternatives + [buffer];
        buffer := "";
        index := index + 1;
        continue;
      }
      PrependTwice(buffer, [c], later);
      assert rest[..1] == [c];
      buffer := buffer + [c];
      index := index + 1;
    }
    assert pattern[|pattern|..] == "";
    SplitNothing(inClass);
    assert buffer + "" == buffer;
    alternatives := alternatives + [buffer];
  }

  lemma SplitNothing(inClass: bool)
    ensures Split("", inClass) == [""]
  {
  }

  lemma SplitStep(p: string, inClass: bool)
    requires p != ""
    ensures Bar(p, inClass) ==> Split(p, inClass) == [""] + Split(p[1..], inClass)
    ensures !Bar(p, inClass) ==>
              Split(p, inClass) == Prepend(p[..StepLength(p)], Split(p[StepLength(p)..], After(p, inClass)))
  {
  }

  lemma PrependNothing(pieces: seq<string>)
    requires pieces != []
    ensures Prepend("", pieces) == pieces
  {
    assert "" + pieces[0] == pieces[0];
  }

  lemma PrependTwice(x: string, y: string, pieces: seq<string>)
    requires pieces != []
    ensures Prepend(x, Prepend(y, pieces)) == Prepend(x + y, pieces)
  {
    assert x + (y + pieces[0]) == (x + y) + pieces[0];
  }

  lemma JoinPrepend(x: string, pieces: seq<string>)
    requires pieces != []
    ensures Join(Prepend(x, pieces)) == x + Join(pieces)
  {
    if |pieces| > 1 {
      assert Prepend(x, pieces)[1..] == pieces[1..];
      assert x + pieces[0] + "|" + Join(pieces[1..]) == x + (pieces[0] + "|" + Join(pieces[1..]));
    }
  }

  // Joining the alternatives again returns the pattern, whatever the pattern is.
  lemma {:induction false} JoinSplit(p: string, inClass: bool)
    ensures Join(Split(p, inClass)) == p
    decreases |p|
  {
    hide Split, Join;
    if p == "" {
      SplitNothing(inClass);
      assert Join([""]) == "" by { JoinOne(""); }
    } else {
      SplitStep(p, inClass);
      if Bar(p, inClass) {
        JoinSplit(p[1..], inClass);
        JoinBar("", Split(p[1..], inClass));
        assert p == "|" + p[1..];
      } else {
        var n := StepLength(p);
        JoinSplit(p[n..], After(p, inClass));
        JoinPrepend(p[..n], Split(p[n..], After(p, inClass)));
        assert p == p[..n] + p[n..];
      }
    }
  }

  lemma JoinOne(x: string)
    ensures Join([x]) == x
  {
  }

  lemma JoinBar(x: string, pieces: seq<string>)
    requires pieces != []
    ensures Join([x] + pieces) == x + "|" + Join(pieces)
  {
    assert ([x] + pieces)[1..] == pieces;
  }

  // --- a list of alternatives that survives joining ---------------------------

  // Where the scan of a text ends, when the text holds no top-level bar and its last escape is
  // complete; `None` otherwise.
  function Ends(p: string, inClass: bool): Option<bool>
    decreases |p|
  {
    if p == "" then Some(inClass)
    else if Bar(p, inClass) || p == "\\" then None
    else Ends(p[StepLength(p)..], After(p, inClass))
  }

  predicate Closed(p: string) { Ends(p, false) == Some(false) }

  predicate Single(p: string) { Split(p, false) == [p] }

  // Scanning past a text without a top-level bar only carries the state along.
  lemma {:induction false} SplitBehind(x: string, y: string, inClass: bool)
    requires Ends(x, inClass).Some?
    ensures Split(x + y, inClass) == Prepend(x, Split(y, Ends(x, inClass).value))
    decreases |x|
  {
    hide Split;
    if x == "" {
      assert "" + y == y;
      PrependNothing(Split(y, inClass));
    } else {
      var n, s := StepLength(x), x + y;
      assert s[0] == x[0] && StepLength(s) == n;
      assert s[..n] == x[..n] && s[n..] == x[n..] + y;
      SplitStep(s, inClass);
      SplitBehind(x[n..], y, After(x, inClass));
      PrependTwice(x[..n], x[n..], Split(y, Ends(x, inClass).value));
      assert x[..n] + x[n..] == x;
    }
  }

  // The first piece is closed when another one follows, and every later piece starts afresh.
  lemma {:induction false} PiecesAlone(p: string, inClass: bool)
    ensures var r := Split(p, inClass);
            && (|r| > 1 ==> Ends(r[0], inClass) == Some(false))
            && Split(r[0], inClass) == [r[0]]
            && (forall k :: 1 <= k < |r| ==> Single(r[k]))
            && (forall k :: 1 <= k < |r| - 1 ==> Closed(r[k]))
    decreases |p|
  {
    hide Split;
    SplitNothing(inClass);
    if p != "" {
      SplitStep(p, inClass);
      var r := Split(p, inClass);
      if Bar(p, inClass) {
        var later := Split(p[1..], inClass);
        PiecesAlone(p[1..], inClass);
        assert forall k :: 1 <= k < |r| ==> r[k] == later[k - 1];
      } else {
        var n, now := StepLength(p), After(p, inClass);
        var later := Split(p[n..], now);
        PiecesAlone(p[n..], now);
        assert forall k :: 1 <= k < |r| ==> r[k] == later[k];
        FirstGrows(p, later[0], n, inClass);
      }
    }
  }

  lemma FirstGrows(p: string, first: string, n: nat, inClass: bool)
    requires p != "" && !Bar(p, inClass) && n == StepLength(p)
    requires Split(first, After(p, inClass)) == [first]
    requires p == "\\" ==> first == ""
    ensures Split(p[..n] + first, inClass) == [p[..n] + first]
    ensures p != "\\" ==> Ends(p[..n] + first, inClass) == Ends(first, After(p, inClass))
  {
    hide Split;
    var x := p[..n] + first;
    assert x[0] == p[0] && (p != "\\" ==> StepLength(x) == n) && (p == "\\" ==> x == p);
    assert x[..n] == p[..n] && x[n..] == first;
    SplitStep(x, inClass);
  }

  // Every alternative splits to itself, and all but the last are closed.
  lemma EachAlternativeAlone(p: string, k: nat)
    requires k < |Split(p, false)|
    ensures Single(Split(p, false)[k])
    ensures k < |Split(p, false)| - 1 ==> Closed(Split(p, false)[k])
  {
    PiecesAlone(p, false);
  }

  ghost predicate Survives(pieces: seq<string>) {
    && pieces != []
    && (forall k :: 0 <= k < |pieces| ==> Single(pieces[k]))
    && forall k :: 0 <= k < |pieces| - 1 ==> Closed(pieces[k])
  }

  lemma {:induction false} SplitJoined(pieces: seq<string>)
    requires Survives(pieces)
    ensures Split(Join(pieces), false) == pieces
    decreases |pieces|
  {
    hide Split, Join, Ends;
    if |pieces| == 1 {
      JoinOne(pieces[0]);
      assert pieces == [pieces[0]];
    } else {
      var rest := pieces[1..];
      assert forall k :: 0 <= k < |rest| ==> rest[k] == pieces[k + 1];
      SplitJoined(rest);
      assert pieces == [pieces[0]] + rest;
      JoinBar(pieces[0], rest);
      var tail := "|" + Join(rest);
      assert pieces[0] + "|" + Join(rest) == pieces[0] + tail;
      SplitBehind(pieces[0], tail, false);
      SplitStep(tail, false);
      assert tail[1..] == Join(rest);
      assert pieces[0] + "" == pieces[0];
    }
  }

  // Splitting undoes joining exactly on lists of alternatives that stand alone.
  lemma SplitUndoesJoin(pieces: seq<string>)
    requires pieces != []
    ensures Split(Join(pieces), false) == pieces <==> Survives(pieces)
  {
    hide Split, Join, Ends;
    if Survives(pieces) {
      SplitJoined(pieces);
    }
    if Split(Join(pieces), false) == pieces {
      forall k | 0 <= k < |pieces|
        ensures Single(pieces[k]) && (k < |pieces| - 1 ==> Closed(pieces[k]))
      {
        EachAlternativeAlone(Join(pieces), k);
      }
    }
  }
}
