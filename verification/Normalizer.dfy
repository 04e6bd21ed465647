/** The reference normalizer the quick-check table is probed from.

  `generate_class_tables.py` calls an external package's NFC and NFD. Here both are written out
  over abstract character data, following sections 3.11 (canonical ordering, composition) of the
  Unicode Standard; the data itself stays a parameter, and `Ucd.Valid` lists what is assumed of it.
 */
module Normalizer {
  import opened Wrappers

  const CODEPOINT_COUNT := 0x110000
  const SURROGATE_START := 0xD800
  const SURROGATE_STOP := 0xE000

  // A codepoint that can stand in a text: surrogates are excluded, as everywhere in the tool.
  predicate IsScalar(c: int) {
    0 <= c < CODEPOINT_COUNT && !(SURROGATE_START <= c < SURROGATE_STOP)
  }

  type Cp = int
  type Text = seq<Cp>

  // The composition algorithm's state: what is already emitted, and the open segment, which is
  // empty before the first starter and otherwise holds the starter followed by its unattached marks.
  datatype ComposeState = ComposeState(done: Text, open: Text) {
    function Flush(): Text { done + open }
  }

  const START := ComposeState([], [])

  /** Character data: combining class, full canonical decomposition, primary composites. */
  datatype Ucd = Ucd(ccc: Cp -> nat, full: Cp -> Text, primary: (Cp, Cp) -> Option<Cp>) {

    // --- canonical ordering -------------------------------------------------

    // Moves one character left past every mark of a greater combining class.
    function Insert(y: Text, c: Cp): (r: Text)
      ensures |r| == |y| + 1
    {
      if y == [] || ccc(c) == 0 || ccc(y[|y| - 1]) <= ccc(c) then y + [c]
      else Insert(y[..|y| - 1], c) + [y[|y| - 1]]
    }

    function OrderOnto(y: Text, b: Text): (r: Text)
      ensures |r| == |y| + |b|
    {
      if b == [] then y else Insert(OrderOnto(y, b[..|b| - 1]), b[|b| - 1])
    }

    ghost predicate Ordered(s: Text) {
      forall i, j :: 0 <= i < |s| && j == i + 1 < |s| ==> ccc(s[j]) == 0 || ccc(s[i]) <= ccc(s[j])
    }

    // --- decomposition ------------------------------------------------------

    function Decompose(s: Text): Text {
      if s == [] then [] else Decompose(s[..|s| - 1]) + full(s[|s| - 1])
    }

    function Nfd(s: Text): Text { OrderOnto([], Decompose(s)) }

    // --- composition --------------------------------------------------------

    // A character reaches the open starter unless a mark of the same or a greater class stands between.
    predicate Reaches(open: Text, c: Cp) {
      |open| == 1 || (|open| > 1 && ccc(open[|open| - 1]) < ccc(c))
    }

    predicate Attaches(open: Text, c: Cp) {
      Reaches(open, c) && primary(open[0], c).Some?
    }

    function Step(st: ComposeState, c: Cp): ComposeState {
      if Attaches(st.open, c) then
        ComposeState(st.done, [primary(st.open[0], c).value] + st.open[1..])
      else if ccc(c) == 0 then ComposeState(st.Flush(), [c])
      else if st.open == [] then ComposeState(st.done + [c], [])
      else ComposeState(st.done, st.open + [c])
    }

    function Run(st: ComposeState, x: Text): ComposeState {
      if x == [] then st else Step(Run(st, x[..|x| - 1]), x[|x| - 1])
    }

    function Nfc(s: Text): Text { Run(START, Nfd(s)).Flush() }

    // --- what is assumed of the data ----------------------------------------

    // A full decomposition is not empty, cannot be decomposed further and is in canonical order.
    ghost predicate ValidDecomposition(c: Cp) {
      && |full(c)| >= 1
      && Ordered(full(c))
      && forall x :: x in full(c) ==> full(x) == [x]
    }

    // A primary composite is a starter built on a starter, and its second element, which never
    // decomposes (a Unicode stability guarantee), ends its full decomposition.
    ghost predicate ValidPair(a: Cp, b: Cp) {
      primary(a, b).Some? ==>
        && ccc(a) == 0
        && ccc(primary(a, b).value) == 0
        && full(primary(a, b).value) == full(a) + [b]
    }

    ghost predicate Valid() {
      && (forall c: Cp {:trigger full(c)} :: ValidDecomposition(c))
      && (forall a: Cp, b: Cp {:trigger primary(a, b)} :: ValidPair(a, b))
    }
  }

  // --- laws of canonical ordering ---------------------------------------------

  lemma OrderOntoAppend(u: Ucd, y: Text, a: Text, b: Text)
    ensures u.OrderOnto(y, a + b) == u.OrderOnto(u.OrderOnto(y, a), b)
  {
    if b == [] {
      assert a + b == a;
    } else {
      var n := |b| - 1;
      assert (a + b)[..|a + b| - 1] == a + b[..n];
      OrderOntoAppend(u, y, a, b[..n]);
    }
  }

  lemma InsertStays(u: Ucd, y: Text, c: Cp)
    requires y != [] ==> u.ccc(c) == 0 || u.ccc(y[|y| - 1]) <= u.ccc(c)
    ensures u.Insert(y, c) == y + [c]
  {
  }

  lemma OrderOntoOne(u: Ucd, y: Text, c: Cp)
    ensures u.OrderOnto(y, [c]) == u.Insert(y, c)
  {
    assert [c][..0] == [];
  }

  // Nothing moves past a starter.
  lemma InsertBarrier(u: Ucd, y: Text, z: Text, c: Cp)
    requires z != [] && u.ccc(z[0]) == 0
    ensures u.Insert(y + z, c) == y + u.Insert(z, c)
    ensures u.Insert(z, c)[0] == z[0]
  {
    var n := |z| - 1;
    assert (y + z)[|y + z| - 1] == z[n];
    if u.ccc(c) == 0 || u.ccc(z[n]) <= u.ccc(c) {
      assert y + z + [c] == y + (z + [c]);
    } else {
      assert (y + z)[..|y + z| - 1] == y + z[..n];
      InsertBarrier(u, y, z[..n], c);
      assert y + u.Insert(z[..n], c) + [z[n]] == y + (u.Insert(z[..n], c) + [z[n]]);
    }
  }

  lemma OrderOntoBarrier(u: Ucd, y: Text, z: Text, b: Text)
    requires z != [] && u.ccc(z[0]) == 0
    ensures u.OrderOnto(y + z, b) == y + u.OrderOnto(z, b)
    ensures u.OrderOnto(z, b)[0] == z[0]
  {
    if b != [] {
      OrderOntoBarrier(u, y, z, b[..|b| - 1]);
      InsertBarrier(u, y, u.OrderOnto(z, b[..|b| - 1]), b[|b| - 1]);
    }
  }

  lemma OrderOntoStarter(u: Ucd, y: Text, b: Text)
    requires b != [] && u.ccc(b[0]) == 0
    ensures u.OrderOnto(y, b) == y + u.OrderOnto([], b)
    ensures u.OrderOnto([], b)[0] == b[0]
  {
    assert b == [b[0]] + b[1..];
    OrderOntoAppend(u, y, [b[0]], b[1..]);
    OrderOntoAppend(u, [], [b[0]], b[1..]);
    OrderOntoOne(u, y, b[0]);
    OrderOntoOne(u, [], b[0]);
    assert [] + [b[0]] == [b[0]];
    OrderOntoBarrier(u, y, [b[0]], b[1..]);
    OrderOntoBarrier(u, [], [b[0]], b[1..]);
  }

  lemma OrderedFixed(u: Ucd, y: Text, b: Text)
    requires u.Ordered(y + b)
    ensures u.OrderOnto(y, b) == y + b
  {
    if b == [] {
      assert y + b == y;
    } else {
      var n := |b| - 1;
      var z := y + b[..n];
      assert y + b == z + [b[n]];
      assert forall i :: 0 <= i < |z| ==> z[i] == (y + b)[i];
      OrderedFixed(u, y, b[..n]);
      if z != [] {
        assert (y + b)[|z|] == b[n] && (y + b)[|z| - 1] == z[|z| - 1];
      }
    }
  }

  lemma InsertOrders(u: Ucd, y: Text, c: Cp)
    requires u.Ordered(y)
    ensures u.Ordered(u.Insert(y, c))
    ensures var r := u.Insert(y, c)[|y|];
            r == c || (y != [] && r == y[|y| - 1] && u.ccc(r) > u.ccc(c))
  {
    if y == [] || u.ccc(c) == 0 || u.ccc(y[|y| - 1]) <= u.ccc(c) {
      InsertStays(u, y, c);
      OrderedSnoc(u, y, c);
    } else {
      var n := |y| - 1;
      assert y == y[..n] + [y[n]];
      InsertOrders(u, y[..n], c);
      OrderedSnoc(u, u.Insert(y[..n], c), y[n]);
    }
  }

  lemma OrderedSnoc(u: Ucd, y: Text, c: Cp)
    requires u.Ordered(y) && (y != [] ==> u.ccc(c) == 0 || u.ccc(y[|y| - 1]) <= u.ccc(c))
    ensures u.Ordered(y + [c])
  {
  }

  lemma InsertElements(u: Ucd, y: Text, c: Cp)
    ensures multiset(u.Insert(y, c)) == multiset(y) + multiset{c}
  {
    if y == [] || u.ccc(c) == 0 || u.ccc(y[|y| - 1]) <= u.ccc(c) {
    } else {
      var n := |y| - 1;
      assert y == y[..n] + [y[n]];
      InsertElements(u, y[..n], c);
    }
  }

  lemma OrderOntoOrders(u: Ucd, y: Text, b: Text)
    requires u.Ordered(y)
    ensures u.Ordered(u.OrderOnto(y, b))
    ensures multiset(u.OrderOnto(y, b)) == multiset(y) + multiset(b)
  {
    if b == [] {
    } else {
      var n := |b| - 1;
      assert b == b[..n] + [b[n]];
      OrderOntoOrders(u, y, b[..n]);
      InsertOrders(u, u.OrderOnto(y, b[..n]), b[n]);
      InsertElements(u, u.OrderOnto(y, b[..n]), b[n]);
    }
  }

  // A mark settles in front of the trailing marks of greater class.
  lemma InsertBefore(u: Ucd, y: Text, x: Cp, c: Cp)
    requires 0 < u.ccc(c) < u.ccc(x)
    ensures u.Insert(y + [x], c) == u.Insert(y, c) + [x]
  {
    assert (y + [x])[..|y|] == y;
  }

  // --- laws of decomposition --------------------------------------------------

  lemma DecomposeAppend(u: Ucd, a: Text, b: Text)
    ensures u.Decompose(a + b) == u.Decompose(a) + u.Decompose(b)
  {
    if b == [] {
      assert a + b == a;
    } else {
      var n := |b| - 1;
      assert (a + b)[..|a + b| - 1] == a + b[..n];
      DecomposeAppend(u, a, b[..n]);
      assert u.Decompose(a) + u.Decompose(b[..n]) + u.full(b[n])
          == u.Decompose(a) + (u.Decompose(b[..n]) + u.full(b[n]));
    }
  }

  lemma DecomposeOne(u: Ucd, c: Cp)
    ensures u.Decompose([c]) == u.full(c)
  {
    assert [c][..0] == [];
    assert [] + u.full(c) == u.full(c);
  }

  lemma DecomposePair(u: Ucd, a: Cp, b: Cp)
    ensures u.Decompose([a, b]) == u.full(a) + u.full(b)
  {
    assert [a] + [b] == [a, b];
    DecomposeAppend(u, [a], [b]);
    DecomposeOne(u, a);
    DecomposeOne(u, b);
  }

  lemma DecomposeClosed(u: Ucd, s: Text)
    requires u.Valid()
    ensures forall x :: x in u.Decompose(s) ==> u.full(x) == [x]
  {
    if s != [] {
      DecomposeClosed(u, s[..|s| - 1]);
      assert u.ValidDecomposition(s[|s| - 1]);
    }
  }

  lemma DecomposeMarks(u: Ucd, s: Text)
    requires forall i :: 0 <= i < |s| ==> u.full(s[i]) == [s[i]]
    ensures u.Decompose(s) == s
  {
    if s != [] {
      DecomposeMarks(u, s[..|s| - 1]);
      assert s == s[..|s| - 1] + [s[|s| - 1]];
    }
  }

  // What NFD returns: decomposed, in canonical order.
  lemma NfdShape(u: Ucd, s: Text)
    requires u.Valid()
    ensures u.Ordered(u.Nfd(s))
    ensures forall x :: x in u.Nfd(s) ==> u.full(x) == [x]
  {
    OrderOntoOrders(u, [], u.Decompose(s));
    DecomposeClosed(u, s);
    forall x | x in u.Nfd(s)
      ensures u.full(x) == [x]
    {
      assert x in multiset(u.Nfd(s));
      assert x in multiset(u.Decompose(s));
    }
  }

  lemma NfdOne(u: Ucd, c: Cp)
    requires u.Valid()
    ensures u.Nfd([c]) == u.full(c)
  {
    DecomposeOne(u, c);
    assert u.ValidDecomposition(c);
    assert [] + u.full(c) == u.full(c);
    OrderedFixed(u, [], u.full(c));
  }

  // --- laws of composition ----------------------------------------------------

  lemma RunAppend(u: Ucd, st: ComposeState, a: Text, b: Text)
    ensures u.Run(st, a + b) == u.Run(u.Run(st, a), b)
  {
    if b == [] {
      assert a + b == a;
    } else {
      var n := |b| - 1;
      assert (a + b)[..|a + b| - 1] == a + b[..n];
      RunAppend(u, st, a, b[..n]);
    }
  }

  lemma RunOne(u: Ucd, st: ComposeState, c: Cp)
    ensures u.Run(st, [c]) == u.Step(st, c)
  {
    assert [c][..0] == [];
  }

  lemma RunSnoc(u: Ucd, st: ComposeState, x: Text, c: Cp)
    ensures u.Run(st, x + [c]) == u.Step(u.Run(st, x), c)
  {
    RunAppend(u, st, x, [c]);
    RunOne(u, u.Run(st, x), c);
  }

  lemma RunCons(u: Ucd, st: ComposeState, x: Text)
    requires x != []
    ensures u.Run(st, x) == u.Run(u.Step(st, x[0]), x[1..])
  {
    assert x == [x[0]] + x[1..];
    RunAppend(u, st, [x[0]], x[1..]);
    RunOne(u, st, x[0]);
  }

  // One step either replaces the open starter by a composite or appends the character.
  lemma StepFlush(u: Ucd, st: ComposeState, c: Cp)
    ensures u.Attaches(st.open, c) ==>
              u.Step(st, c).Flush() == st.Flush()[|st.done| := u.primary(st.open[0], c).value]
    ensures !u.Attaches(st.open, c) ==> u.Step(st, c).Flush() == st.Flush() + [c]
  {
  }

  // What is already emitted is never looked at again.
  lemma RunPrefix(u: Ucd, d: Text, st: ComposeState, x: Text)
    ensures u.Run(ComposeState(d + st.done, st.open), x)
         == ComposeState(d + u.Run(st, x).done, u.Run(st, x).open)
  {
    hide Ucd.Step;
    if x != [] {
      RunPrefix(u, d, st, x[..|x| - 1]);
      StepPrefix(u, d, u.Run(st, x[..|x| - 1]), x[|x| - 1]);
    }
  }

  lemma StepPrefix(u: Ucd, d: Text, st: ComposeState, c: Cp)
    ensures u.Step(ComposeState(d + st.done, st.open), c) == ComposeState(d + u.Step(st, c).done, u.Step(st, c).open)
  {
    hide Ucd.Attaches;
    assert d + st.done + st.open == d + (st.done + st.open);
    assert d + st.done + [c] == d + (st.done + [c]);
  }

  // The open segment is empty until the first starter, then a starter followed by marks.
  ghost predicate Segmented(u: Ucd, st: ComposeState) {
    && (st.open == [] ==> forall i :: 0 <= i < |st.done| ==> u.ccc(st.done[i]) != 0)
    && (st.open != [] ==> u.ccc(st.open[0]) == 0)
    && (forall i :: 0 < i < |st.open| ==> u.ccc(st.open[i]) != 0)
  }

  lemma StepSegmented(u: Ucd, st: ComposeState, c: Cp)
    requires u.Valid() && Segmented(u, st)
    ensures Segmented(u, u.Step(st, c))
    ensures |st.Flush()| <= |u.Step(st, c).Flush()|
  {
    if u.Attaches(st.open, c) {
      assert u.ValidPair(st.open[0], c);
    }
  }

  lemma RunSegmented(u: Ucd, st: ComposeState, x: Text)
    requires u.Valid() && Segmented(u, st)
    ensures Segmented(u, u.Run(st, x))
    ensures |st.Flush()| <= |u.Run(st, x).Flush()|
  {
    if x != [] {
      RunSegmented(u, st, x[..|x| - 1]);
      StepSegmented(u, u.Run(st, x[..|x| - 1]), x[|x| - 1]);
    }
  }

  // The flushed text tells where the open segment begins.
  lemma SplitIsForced(u: Ucd, st: ComposeState, d: Text, o: Text)
    requires Segmented(u, st) && Segmented(u, ComposeState(d, o))
    requires st.Flush() == d + o
    ensures st == ComposeState(d, o)
  {
    var s := d + o;
    assert forall i :: 0 <= i < |d| ==> s[i] == d[i];
    assert forall i :: |d| <= i < |s| ==> s[i] == o[i - |d|];
    assert forall i :: 0 <= i < |st.done| ==> s[i] == st.done[i];
    assert forall i :: |st.done| <= i < |s| ==> s[i] == st.open[i - |st.done|];
    assert o != [] ==> u.ccc(s[|d|]) == 0;
    assert st.open != [] ==> u.ccc(s[|st.done|]) == 0;
    assert |st.done| == |d|;
    assert st.done == s[..|d|] == d;
    assert st.open == s[|d|..] == o;
  }

  // A text that is its own NFC leaves the machine at its last starter.
  lemma StateOf(u: Ucd, x: Text, d: Text, o: Text)
    requires u.Valid() && u.Run(START, x).Flush() == d + o
    requires Segmented(u, ComposeState(d, o))
    ensures u.Run(START, x) == ComposeState(d, o)
  {
    RunSegmented(u, START, x);
    SplitIsForced(u, u.Run(START, x), d, o);
  }
}
