/** Stable characters and stable pairs: how a character that decomposes is put together again, and
  when two characters leave each other alone. */
module StablePairs {
  import opened Normalizer
  import opened Wrappers

  ghost predicate Stable(u: Ucd, s: Text) { u.Nfc(s) == s }

  // Section 3.11, D115: only marks of smaller class stand between the starter and the character.
  ghost predicate Unblocked(u: Ucd, s: Text, i: int, j: int) {
    && 0 <= i < j < |s|
    && u.ccc(s[i]) == 0
    && forall m :: i < m < j ==> 0 < u.ccc(s[m]) < u.ccc(s[j])
  }

  ghost predicate PairStable(u: Ucd, a: Cp, b: Cp) { Stable(u, [a, b]) }

  ghost predicate PairsStable(u: Ucd, s: Text) {
    forall i, j :: Unblocked(u, s, i, j) ==> PairStable(u, s[i], s[j])
  }

  ghost predicate SinglesStable(u: Ucd, s: Text) {
    forall i :: 0 <= i < |s| ==> Stable(u, [s[i]])
  }

  ghost predicate WellFormed(u: Ucd, s: Text) {
    SinglesStable(u, s) && u.Ordered(s) && PairsStable(u, s)
  }

  // --- single characters ------------------------------------------------------

  lemma StableSingle(u: Ucd, c: Cp)
    requires u.Valid()
    ensures Stable(u, [c]) <==> u.Run(START, u.full(c)).Flush() == [c]
  {
    NfdOne(u, c);
  }

  lemma SelfDecomposed(u: Ucd, c: Cp)
    requires u.Valid() && u.full(c) == [c]
    ensures Stable(u, [c])
    ensures u.ccc(c) == 0 ==> u.Run(START, [c]) == ComposeState([], [c])
    ensures u.ccc(c) != 0 ==> u.Run(START, [c]) == ComposeState([c], [])
  {
    StableSingle(u, c);
    RunOne(u, START, c);
  }

  lemma LastAttach(u: Ucd, st: ComposeState, x: Cp, c: Cp) returns (k: Cp)
    requires u.Valid() && Segmented(u, st) && st.Flush() != [] && u.Step(st, x).Flush() == [c]
    ensures st == ComposeState([], [k]) && u.primary(k, x) == Some(c) && u.ccc(k) == 0 && u.ccc(c) == 0
    ensures u.full(c) == u.full(k) + [x] && u.Step(st, x) == ComposeState([], [c])
  {
    StepFlush(u, st, x);
    assert |st.Flush()| == 1 && u.Attaches(st.open, x);
    k := st.open[0];
    assert u.ValidPair(k, x);
    assert u.Step(st, x).Flush()[0] == u.primary(k, x).value;
  }

  // A stable character that decomposes is put together again one character at a time.
  lemma LastStep(u: Ucd, c: Cp) returns (k: Cp, x: Cp)
    requires u.Valid() && Stable(u, [c]) && u.full(c) != [c]
    ensures u.primary(k, x) == Some(c)
    ensures u.full(c) == u.full(k) + [x] && u.full(x) == [x]
    ensures Stable(u, [k]) && u.ccc(k) == 0 && u.ccc(c) == 0
    ensures u.Run(START, u.full(k)) == ComposeState([], [k])
    ensures u.Run(START, u.full(c)) == ComposeState([], [c])
  {
    hide Ucd.Run, Ucd.Nfd, Ucd.Step, Ucd.Ordered;
    StableSingle(u, c);
    var y := u.full(c);
    assert u.ValidDecomposition(c);
    var n := |y| - 1;
    x := y[n];
    assert y == y[..n] + [x];
    var st := u.Run(START, y[..n]);
    RunSegmented(u, START, y[..n]);
    RunSnoc(u, START, y[..n], x);
    assert n == 0 ==> y == [x];
    RunOne(u, START, x);
    StepFlush(u, START, x);
    if n == 0 {
      assert false;
    }
    NonEmptyRun(u, y[..n]);
    k := LastAttach(u, st, x, c);
    assert u.full(k) == y[..n] by {
      assert u.full(c) == u.full(k) + [x];
      assert (u.full(k) + [x])[..n] == u.full(k);
    }
    StableSingle(u, k);
  }

  lemma NonEmptyRun(u: Ucd, x: Text)
    requires u.Valid() && x != []
    ensures |u.Run(START, x).Flush()| >= 1
  {
    assert x == [x[0]] + x[1..];
    RunAppend(u, START, [x[0]], x[1..]);
    RunOne(u, START, x[0]);
    RunSegmented(u, START, [x[0]]);
    RunSegmented(u, u.Run(START, [x[0]]), x[1..]);
  }

  lemma StableMark(u: Ucd, c: Cp)
    requires u.Valid() && Stable(u, [c]) && u.ccc(c) != 0
    ensures u.full(c) == [c]
  {
    if u.full(c) != [c] {
      var _, _ := LastStep(u, c);
    }
  }

  lemma StableStarter(u: Ucd, c: Cp)
    requires u.Valid() && Stable(u, [c]) && u.ccc(c) == 0
    ensures u.Run(START, u.full(c)) == ComposeState([], [c])
    ensures u.full(c) != [] && u.ccc(u.full(c)[0]) == 0
    decreases |u.full(c)|
  {
    if u.full(c) == [c] {
      SelfDecomposed(u, c);
    } else {
      var k, x := LastStep(u, c);
      StableStarter(u, k);
    }
  }

  // A composite keeps being stable as it grows.
  lemma GrownStable(u: Ucd, k: Cp, x: Cp)
    requires u.Valid() && Stable(u, [k]) && u.primary(k, x).Some?
    ensures Stable(u, [u.primary(k, x).value])
  {
    assert u.ValidPair(k, x);
    StableStarter(u, k);
    var c := u.primary(k, x).value;
    RunAppend(u, START, u.full(k), [x]);
    RunOne(u, ComposeState([], [k]), x);
    StableSingle(u, c);
  }

  // --- pairs ------------------------------------------------------------------

  lemma NfdPair(u: Ucd, a: Cp, b: Cp)
    requires u.Valid()
    ensures u.Nfd([a, b]) == u.OrderOnto(u.full(a), u.full(b))
  {
    DecomposePair(u, a, b);
    OrderOntoAppend(u, [], u.full(a), u.full(b));
    assert u.ValidDecomposition(a);
    assert [] + u.full(a) == u.full(a);
    OrderedFixed(u, [], u.full(a));
  }

  // The first character never shrinks again.
  lemma FirstGrows(u: Ucd, g: Cp, x: Text)
    requires u.Valid() && u.ccc(g) == 0
    ensures var s := u.Run(ComposeState([], [g]), x).Flush(); s != [] && |u.full(s[0])| >= |u.full(g)|
  {
    if x != [] {
      FirstGrows(u, g, x[..|x| - 1]);
      var st := u.Run(ComposeState([], [g]), x[..|x| - 1]);
      var c := x[|x| - 1];
      if u.Attaches(st.open, c) {
        assert u.ValidPair(st.open[0], c);
      }
    }
  }

  // Two starters: the pair is stable iff the first does not take the head of the second.
  lemma StarterPair(u: Ucd, a: Cp, c: Cp)
    requires u.Valid() && Stable(u, [a]) && Stable(u, [c]) && u.ccc(a) == 0 && u.ccc(c) == 0
    ensures u.full(c) != [] && u.ccc(u.full(c)[0]) == 0
    ensures PairStable(u, a, c) <==> u.primary(a, u.full(c)[0]).None?
  {
    hide Ucd.Run, Ucd.OrderOnto, Ucd.Insert, Ucd.Decompose;
    StableStarter(u, a);
    StableStarter(u, c);
    NfdStarterPair(u, a, c);
    var y, st := u.full(c), ComposeState([], [a]);
    RunAppend(u, START, u.full(a), y);
    RunCons(u, st, y);
    RunCons(u, START, y);
    if u.primary(a, y[0]).Some? {
      var g := u.primary(a, y[0]).value;
      assert u.ValidPair(a, y[0]);
      assert u.Step(st, y[0]) == ComposeState([], [g]);
      FirstGrows(u, g, y[1..]);
    } else {
      AfterStarter(u, st, y);
    }
  }

  lemma NfdStarterPair(u: Ucd, a: Cp, c: Cp)
    requires u.Valid() && u.full(c) != [] && u.ccc(u.full(c)[0]) == 0
    ensures u.Nfd([a, c]) == u.full(a) + u.full(c)
  {
    hide Ucd.Run, Ucd.Insert, Ucd.Decompose;
    NfdPair(u, a, c);
    OrderOntoStarter(u, u.full(a), u.full(c));
    assert u.ValidDecomposition(c);
    assert [] + u.full(c) == u.full(c);
    OrderedFixed(u, [], u.full(c));
  }

  // A starter nothing attaches closes the segment; the rest runs as if it stood alone.
  lemma AfterStarter(u: Ucd, st: ComposeState, y: Text)
    requires y != [] && u.ccc(y[0]) == 0 && !u.Attaches(st.open, y[0])
    ensures u.Run(st, y) == ComposeState(st.Flush() + u.Run(START, y).done, u.Run(START, y).open)
  {
    hide Ucd.Run;
    RunCons(u, st, y);
    RunCons(u, START, y);
    var h := ComposeState([], [y[0]]);
    assert u.Step(START, y[0]) == h;
    RunPrefix(u, st.Flush(), h, y[1..]);
    assert st.Flush() + [] == st.Flush();
  }

  // A starter and a mark that belongs behind everything the starter decomposes to.
  lemma MarkPairBehind(u: Ucd, k: Cp, m: Cp)
    requires u.Valid() && Stable(u, [k]) && u.ccc(k) == 0 && u.ccc(m) != 0 && u.full(m) == [m]
    requires u.full(k) != [] ==> u.ccc(u.full(k)[|u.full(k)| - 1]) <= u.ccc(m)
    ensures PairStable(u, k, m) <==> u.primary(k, m).None?
  {
    hide Ucd.Run, Ucd.OrderOnto, Ucd.Insert, Ucd.Decompose;
    StableStarter(u, k);
    NfdPair(u, k, m);
    OrderOntoOne(u, u.full(k), m);
    InsertStays(u, u.full(k), m);
    RunSnoc(u, START, u.full(k), m);
    StepFlush(u, ComposeState([], [k]), m);
    assert [k] + [m] == [k, m];
  }

  lemma MarkPairState(u: Ucd, k: Cp, m: Cp)
    requires u.Valid() && u.ccc(k) == 0 && u.ccc(m) != 0 && u.full(m) == [m]
    ensures u.Nfd([k, m]) == u.Insert(u.full(k), m)
    ensures PairStable(u, k, m) <==> u.Run(START, u.Insert(u.full(k), m)) == ComposeState([], [k, m])
  {
    hide Ucd.Run, Ucd.OrderOnto, Ucd.Insert, Ucd.Decompose;
    NfdPair(u, k, m);
    OrderOntoOne(u, u.full(k), m);
    if PairStable(u, k, m) {
      StateOf(u, u.Nfd([k, m]), [], [k, m]);
    }
  }

  // One character of greater class behind the mark: the two runs differ by one step.
  lemma MarkPairStep(u: Ucd, k: Cp, x: Cp, m: Cp)
    requires u.Valid() && u.primary(k, x).Some? && 0 < u.ccc(m) < u.ccc(x)
    ensures var g := u.primary(k, x).value;
            u.Run(START, u.Insert(u.full(g), m)) == u.Step(u.Run(START, u.Insert(u.full(k), m)), x)
  {
    hide Ucd.Run, Ucd.OrderOnto, Ucd.Insert, Ucd.Decompose;
    assert u.ValidPair(k, x);
    InsertBefore(u, u.full(k), x, m);
    RunSnoc(u, START, u.Insert(u.full(k), m), x);
  }

  // The starter takes a later character of greater class: the mark in between does not mind.
  lemma MarkPairGrown(u: Ucd, k: Cp, x: Cp, m: Cp)
    requires u.Valid() && u.ccc(k) == 0 && u.ccc(m) != 0 && u.full(m) == [m]
    requires u.primary(k, x).Some? && u.ccc(m) < u.ccc(x)
    requires PairStable(u, k, m)
    ensures PairStable(u, u.primary(k, x).value, m)
  {
    hide Ucd.Run, Ucd.OrderOnto, Ucd.Insert, Ucd.Decompose, Ucd.Nfd;
    var g := u.primary(k, x).value;
    assert u.ValidPair(k, x);
    MarkPairState(u, k, m);
    MarkPairState(u, g, m);
    MarkPairStep(u, k, x, m);
    assert u.Step(ComposeState([], [k, m]), x) == ComposeState([], [g, m]);
  }

  // And back: what the grown starter tolerates, the starter before its last step tolerated too.
  lemma MarkPairShrunk(u: Ucd, k: Cp, x: Cp, m: Cp)
    requires u.Valid() && Stable(u, [k]) && u.ccc(k) == 0 && u.ccc(m) != 0 && u.full(m) == [m]
    requires u.primary(k, x).Some? && u.ccc(m) < u.ccc(x)
    requires PairStable(u, u.primary(k, x).value, m)
    ensures PairStable(u, k, m)
  {
    hide Ucd.Run, Ucd.OrderOnto, Ucd.Insert, Ucd.Decompose, Ucd.Nfd;
    var c := u.primary(k, x).value;
    assert u.ValidPair(k, x);
    MarkPairState(u, c, m);
    MarkPairState(u, k, m);
    MarkPairStep(u, k, x, m);
    var y := u.Insert(u.full(k), m);
    var st := u.Run(START, y);
    RunSegmented(u, START, y);
    StepFlush(u, st, x);
    var t := StepBack(u, st, x, c, m);
    assert u.ValidPair(t, x);
    assert u.full(t) == u.full(k) by {
      assert u.full(c) == u.full(t) + [x];
      assert u.full(c) == u.full(k) + [x];
      assert u.full(t) == u.full(c)[..|u.full(c)| - 1] == u.full(k);
    }
    InsertClosed(u, k, m);
    OutputsStable(u, y);
    assert Stable(u, [st.Flush()[0]]);
    StableStarter(u, t);
    StableStarter(u, k);
  }

  lemma CompositeFacts(u: Ucd, k: Cp, c: Cp)
    requires u.Valid() && u.primary(k, c).Some?
    ensures var g := u.primary(k, c).value; u.ccc(k) == 0 && u.ccc(g) == 0 && u.full(g) == u.full(k) + [c]
  {
    assert u.ValidPair(k, c);
  }

  lemma StepBack(u: Ucd, st: ComposeState, x: Cp, c: Cp, m: Cp) returns (t: Cp)
    requires u.Valid() && Segmented(u, st) && u.ccc(c) == 0 && 0 < u.ccc(m) < u.ccc(x)
    requires u.Step(st, x) == ComposeState([], [c, m])
    ensures st == ComposeState([], [t, m]) && u.primary(t, x) == Some(c) && u.ccc(t) == 0
  {
    hide Ucd.Valid;
    StepFlush(u, st, x);
    var f := u.Step(st, x).Flush();
    assert f == [c, m];
    assert (st.Flush() + [x])[|st.Flush()|] == x;
    assert u.Attaches(st.open, x);
    t := st.open[0];
    var g := u.primary(t, x).value;
    CompositeFacts(u, t, x);
    assert f[|st.done|] == g;
    assert st.done == [] && f[1] == st.open[1] == m;
  }

  lemma InsertClosed(u: Ucd, k: Cp, m: Cp)
    requires u.Valid() && u.full(m) == [m]
    ensures forall x :: x in u.Insert(u.full(k), m) ==> u.full(x) == [x]
  {
    hide Ucd.Insert;
    assert u.ValidDecomposition(k);
    InsertElements(u, u.full(k), m);
    forall x | x in u.Insert(u.full(k), m)
      ensures u.full(x) == [x]
    {
      assert x in multiset(u.Insert(u.full(k), m));
    }
  }

  lemma OutputsStable(u: Ucd, x: Text)
    requires u.Valid()
    requires forall c :: c in x ==> u.full(c) == [c]
    ensures SinglesStable(u, u.Run(START, x).Flush())
  {
    if x != [] {
      var n := |x| - 1;
      OutputsStable(u, x[..n]);
      SelfDecomposed(u, x[n]);
      StepStable(u, u.Run(START, x[..n]), x[n]);
    }
  }

  lemma StepStable(u: Ucd, st: ComposeState, c: Cp)
    requires u.Valid() && SinglesStable(u, st.Flush()) && Stable(u, [c])
    ensures SinglesStable(u, u.Step(st, c).Flush())
  {
    hide Ucd.Run, Ucd.Nfd;
    StepFlush(u, st, c);
    if u.Attaches(st.open, c) {
      assert st.Flush()[|st.done|] == st.open[0];
      GrownStable(u, st.open[0], c);
    }
  }
}
