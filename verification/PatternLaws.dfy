/** Where a pattern is cut, said of its positions, and what the printer of classes makes of it. */
module PatternLaws {
  import CharacterClass
  import opened PatternTools
  import opened Wrappers

  // --- positions --------------------------------------------------------------

  // How many backslashes stand right in front of position `i`.
  function Backslashes(p: string, i: nat): (n: nat)
    requires i <= |p|
    ensures n <= i
  {
    if i > 0 && p[i - 1] == '\\' then 1 + Backslashes(p, i - 1) else 0
  }

  predicate Escaped(p: string, i: nat)
    requires i <= |p|
  {
    Backslashes(p, i) % 2 == 1
  }

  predicate Opens(p: string, j: nat)
    requires j < |p|
  {
    p[j] == '[' && !Escaped(p, j)
  }

  predicate Closes(p: string, j: nat)
    requires j < |p|
  {
    p[j] == ']' && !Escaped(p, j)
  }

  // Some unescaped open bracket in front of `i` has not been closed.
  predicate Inside(p: string, i: nat)
    requires i <= |p|
  {
    exists j :: 0 <= j < i && Opens(p, j) && forall k :: j < k < i ==> !Closes(p, k)
  }

  predicate TopBar(p: string, i: nat)
    requires i < |p|
  {
    p[i] == '|' && !Escaped(p, i) && !Inside(p, i)
  }

  function TopBars(p: string, i: nat): nat
    requires i <= |p|
  {
    if i == 0 then 0 else TopBars(p, i - 1) + if TopBar(p, i - 1) then 1 else 0
  }

  // What stands from `i` on, cut at every top bar.
  function Cut(p: string, i: nat): (r: seq<string>)
    requires i <= |p|
    ensures r != []
    decreases |p| - i
  {
    if i == |p| then [""]
    else if TopBar(p, i) then [""] + Cut(p, i + 1)
    else Prepend([p[i]], Cut(p, i + 1))
  }

  // --- one step of the scan ---------------------------------------------------

  lemma InsideNext(p: string, i: nat)
    requires i < |p|
    ensures Inside(p, i + 1) <==> Opens(p, i) || (Inside(p, i) && !Closes(p, i))
  {
    hide Opens, Closes;
    if Inside(p, i) && !Closes(p, i) {
      var j :| 0 <= j < i && Opens(p, j) && forall k :: j < k < i ==> !Closes(p, k);
      assert forall k :: j < k < i + 1 ==> !Closes(p, k);
    }
    if Inside(p, i + 1) && !Opens(p, i) {
      var j :| 0 <= j < i + 1 && Opens(p, j) && forall k :: j < k < i + 1 ==> !Closes(p, k);
      assert j < i;
    }
  }

  lemma EscapedNext(p: string, i: nat)
    requires i < |p|
    ensures Escaped(p, i + 1) <==> p[i] == '\\' && !Escaped(p, i)
  {
  }

  // The scan from an unescaped position cuts where the positions say.
  lemma {:induction false} SplitIsCut(p: string, i: nat)
    requires i <= |p| && !Escaped(p, i)
    ensures Split(p[i..], Inside(p, i)) == Cut(p, i)
    decreases |p| - i
  {
    hide Split, Inside, Escaped, Cut;
    if i == |p| {
      assert p[i..] == "";
      SplitNothing(Inside(p, i));
      CutEnd(p);
    } else {
      var rest := p[i..];
      assert rest[0] == p[i];
      EscapedNext(p, i);
      InsideNext(p, i);
      SplitStep(rest, Inside(p, i));
      CutStep(p, i);
      assert rest[1..] == p[i + 1..];
      if p[i] != '\\' {
        SplitIsCut(p, i + 1);
        assert rest[..1] == [p[i]];
        assert Bar(rest, Inside(p, i)) ==> !Inside(p, i + 1);
      } else if i + 1 == |p| {
        CutEnd(p);
        SplitNothing(Inside(p, i));
        assert rest[..1] == [p[i]] && rest[1..] == "";
      } else {
        EscapedNext(p, i + 1);
        InsideNext(p, i + 1);
        CutStep(p, i + 1);
        SplitIsCut(p, i + 2);
        assert rest[2..] == p[i + 2..];
        assert rest[..2] == [p[i]] + [p[i + 1]];
        PrependTwice([p[i]], [p[i + 1]], Cut(p, i + 2));
      }
    }
  }

  lemma CutEnd(p: string)
    ensures Cut(p, |p|) == [""]
  {
  }

  lemma CutStep(p: string, i: nat)
    requires i < |p|
    ensures TopBar(p, i) ==> Cut(p, i) == [""] + Cut(p, i + 1)
    ensures !TopBar(p, i) ==> Cut(p, i) == Prepend([p[i]], Cut(p, i + 1))
  {
    hide TopBar;
  }

  // --- the laws ---------------------------------------------------------------

  // A pattern is cut at its bars that are neither escaped nor inside a class.
  lemma SplitAtTopBars(p: string)
    ensures Split(p, false) == Cut(p, 0)
  {
    hide Split, Cut;
    SplitIsCut(p, 0);
    assert p[0..] == p;
  }

  lemma {:induction false} CutCounts(p: string, i: nat)
    requires i <= |p|
    ensures |Cut(p, i)| - 1 == TopBars(p, |p|) - TopBars(p, i)
    decreases |p| - i
  {
    hide TopBar;
    if i < |p| {
      CutCounts(p, i + 1);
    }
  }

  // One alternative more than there are such bars.
  lemma AlternativesCount(p: string)
    ensures |Split(p, false)| == TopBars(p, |p|) + 1
  {
    hide Split, Cut;
    SplitAtTopBars(p);
    CutCounts(p, 0);
  }

  // An escaped character never splits.
  lemma EscapeAlone(c: char)
    ensures Split(['\\', c], false) == [['\\', c]]
  {
    hide Split;
    var p := ['\\', c];
    SplitStep(p, false);
    SplitNothing(false);
    assert p[2..] == "" && p[..2] == p && p + "" == p;
  }

  // --- a printed class --------------------------------------------------------

  lemma {:induction false} EndsAppend(x: string, y: string, inClass: bool)
    requires Ends(x, inClass).Some?
    ensures Ends(x + y, inClass) == Ends(y, Ends(x, inClass).value)
    decreases |x|
  {
    if x == "" {
      assert "" + y == y;
    } else {
      var n, s := StepLength(x), x + y;
      assert s[0] == x[0] && StepLength(s) == n && s[n..] == x[n..] + y;
      EndsAppend(x[n..], y, After(x, inClass));
    }
  }

  // One printed code leaves the scan inside the class, whatever the code is.
  lemma CodeStays(c: char)
    ensures Ends(CharacterClass.PrintCode(c), true) == Some(true)
  {
    var p := CharacterClass.PrintCode(c);
    assert CharacterClass.SPECIAL == ['\\', '-', '[', ']', '^'];
    assert p[StepLength(p)..] == "";
  }

  lemma ItemStays(item: CharacterClass.Item)
    ensures Ends(CharacterClass.PrintItem(item), true) == Some(true)
  {
    hide CharacterClass.PrintCode;
    match item
    case Single(c) => CodeStays(c);
    case Range(low, high) =>
      var a, b := CharacterClass.PrintCode(low), CharacterClass.PrintCode(high);
      CodeStays(low);
      CodeStays(high);
      assert "-"[1..] == "" && Ends("-", true) == Some(true);
      EndsAppend(a, "-", true);
      EndsAppend(a + "-", b, true);
  }

  lemma {:induction false} ItemsStay(items: seq<CharacterClass.Item>)
    ensures Ends(CharacterClass.PrintItems(items), true) == Some(true)
  {
    hide CharacterClass.PrintItem;
    if items != [] {
      ItemStays(items[0]);
      ItemsStay(items[1..]);
      EndsAppend(CharacterClass.PrintItem(items[0]), CharacterClass.PrintItems(items[1..]), true);
    }
  }

  // A printed class is one alternative and leaves no class open, bars included.
  lemma PrintedAlone(items: seq<CharacterClass.Item>)
    ensures Single(CharacterClass.Print(items)) && Closed(CharacterClass.Print(items))
  {
    hide CharacterClass.PrintItems, Split;
    var body := CharacterClass.PrintItems(items);
    ItemsStay(items);
    assert "]"[1..] == "" && Ends("]", true) == Some(false);
    EndsAppend(body, "]", true);
    var p := "[" + (body + "]");
    assert p[1..] == body + "]" && p == CharacterClass.Print(items);
    SplitBehind(p, "", false);
    assert p + "" == p;
    SplitNothing(false);
  }
}
