/** Whatever composition returns is in the normal form. */
module ComposedTexts {
  import opened Normalizer
  import opened StablePairs

  lemma UnblockedPrefix(u: Ucd, s: Text, t: Text, i: int, j: int)
    requires 0 <= j < |s| && j < |t| && s[..j + 1] == t[..j + 1]
    ensures Unblocked(u, s, i, j) ==> Unblocked(u, t, i, j)
  {
    assert forall m :: 0 <= m <= j ==> s[m] == s[..j + 1][m] == t[..j + 1][m] == t[m];
  }

  // The character `c` follows; the open starter and `c` are a stable pair unless blocked.
  lemma PairsSnoc(u: Ucd, s: Text, p: int, c: Cp)
    requires PairsStable(u, s) && 0 <= p <= |s|
    requires p < |s| ==> u.ccc(s[p]) == 0
    requires forall i :: p < i < |s| ==> u.ccc(s[i]) != 0
    requires p == |s| ==> forall i :: 0 <= i < |s| ==> u.ccc(s[i]) != 0
    requires p < |s| && Unblocked(u, s + [c], p, |s|) ==> PairStable(u, s[p], c)
    ensures PairsStable(u, s + [c])
  {
    var t := s + [c];
    forall i, j | Unblocked(u, t, i, j)
      ensures PairStable(u, t[i], t[j])
    {
      if j < |s| {
        assert s[..j + 1] == t[..j + 1];
        UnblockedPrefix(u, t, s, i, j);
      } else if p < |s| {
        assert t[p] == s[p];
        assert i == p;
      }
    }
  }

  // Composing replaces the open starter; the pairs before it and behind it stay stable.
  lemma PairsReplaced(u: Ucd, s: Text, p: int, g: Cp)
    requires PairsStable(u, s) && 0 <= p < |s| && u.ccc(s[p]) == 0 && u.ccc(g) == 0
    requires forall i :: Unblocked(u, s, i, p) ==> PairStable(u, s[i], g)
    requires forall j :: Unblocked(u, s, p, j) ==> PairStable(u, g, s[j])
    ensures PairsStable(u, s[p := g])
  {
    var t := s[p := g];
    forall i, j | Unblocked(u, t, i, j)
      ensures PairStable(u, t[i], t[j])
    {
      assert Unblocked(u, s, i, j) by {
        forall m | i < m < j ensures 0 < u.ccc(s[m]) < u.ccc(s[j]) { assert t[m] == s[m]; }
      }
    }
  }

  lemma Ascending(u: Ucd, s: Text, i: int, j: int)
    requires u.Ordered(s) && 0 <= i <= j < |s| && forall m :: i < m <= j ==> u.ccc(s[m]) != 0
    ensures u.ccc(s[i]) <= u.ccc(s[j])
    decreases j - i
  {
    if i < j { Ascending(u, s, i, j - 1); }
  }

  function Last(s: Text): Cp requires s != [] { s[|s| - 1] }

  // Invariant of composing an ordered text whose last character has class `at`.
  ghost predicate Composed(u: Ucd, st: ComposeState, at: nat) {
    && Segmented(u, st)
    && WellFormed(u, st.Flush())
    && (st.open != [] ==> u.full(st.open[0]) != [] && u.ccc(Last(u.full(st.open[0]))) <= at)
    && (st.Flush() != [] ==> u.ccc(Last(st.Flush())) <= at)
  }

  lemma SinglesSnoc(u: Ucd, s: Text, c: Cp)
    requires SinglesStable(u, s) && Stable(u, [c])
    ensures SinglesStable(u, s + [c])
  {
  }

  // The composite takes the place of the starter in every pair.
  lemma AttachPairs(u: Ucd, s: Text, p: int, c: Cp)
    requires u.Valid() && WellFormed(u, s) && 0 <= p < |s| && u.primary(s[p], c).Some?
    requires forall i :: p < i < |s| ==> u.ccc(s[i]) != 0
    requires p + 1 < |s| ==> u.ccc(Last(s)) < u.ccc(c)
    ensures PairsStable(u, s[p := u.primary(s[p], c).value])
  {
    hide Ucd.Valid, Ucd.Nfc, Stable, PairStable;
    var k := s[p];
    var g := u.primary(k, c).value;
    CompositeFacts(u, k, c);
    GrownStable(u, k, c);
    forall i | Unblocked(u, s, i, p)
      ensures PairStable(u, s[i], g)
    {
      StarterPair(u, s[i], k);
      StarterPair(u, s[i], g);
    }
    forall j | Unblocked(u, s, p, j)
      ensures PairStable(u, g, s[j])
    {
      Ascending(u, s, j, |s| - 1);
      StableMark(u, s[j]);
      MarkPairGrown(u, k, c, s[j]);
    }
    PairsReplaced(u, s, p, g);
  }

  lemma OpenSegment(u: Ucd, st: ComposeState)
    requires Segmented(u, st) && st.open != []
    ensures var s, p := st.Flush(), |st.done|;
            && p < |s| && s[p] == st.open[0] && u.ccc(s[p]) == 0
            && (forall i :: p < i < |s| ==> s[i] == st.open[i - p])
            && (forall i :: p < i < |s| ==> u.ccc(s[i]) != 0)
            && Last(s) == Last(st.open)
  {
  }

  lemma ComposedAttach(u: Ucd, st: ComposeState, at: nat, c: Cp)
    requires u.Valid() && Composed(u, st, at) && u.full(c) == [c] && u.Attaches(st.open, c)
    requires u.ccc(c) == 0 || at <= u.ccc(c)
    ensures Composed(u, u.Step(st, c), u.ccc(c))
  {
    hide Ucd.Valid, Ucd.Nfc, Stable, PairStable, PairsStable;
    var s, p, k := st.Flush(), |st.done|, st.open[0];
    OpenSegment(u, st);
    CompositeFacts(u, k, c);
    StepFlush(u, st, c);
    StepSegmented(u, st, c);
    GrownStable(u, k, c);
    AttachPairs(u, s, p, c);
  }

  lemma StarterFollows(u: Ucd, s: Text, p: int, c: Cp)
    requires u.Valid() && WellFormed(u, s) && 0 <= p < |s| && u.ccc(s[p]) == 0
    requires forall i :: p < i < |s| ==> u.ccc(s[i]) != 0
    requires u.full(c) == [c] && u.ccc(c) == 0 && (p + 1 == |s| ==> u.primary(s[p], c).None?)
    ensures PairsStable(u, s + [c])
  {
    hide Ucd.Valid, Ucd.Nfc, Stable, PairStable;
    SelfDecomposed(u, c);
    StarterPair(u, s[p], c);
    assert Unblocked(u, s + [c], p, |s|) ==> p + 1 == |s| by {
      if p + 1 < |s| { assert (s + [c])[p + 1] == s[p + 1]; }
    }
    PairsSnoc(u, s, p, c);
  }

  lemma ComposedStarter(u: Ucd, st: ComposeState, at: nat, c: Cp)
    requires u.Valid() && Composed(u, st, at) && u.full(c) == [c] && !u.Attaches(st.open, c)
    requires u.ccc(c) == 0
    ensures Composed(u, u.Step(st, c), u.ccc(c))
  {
    hide Ucd.Valid, Ucd.Nfc, Stable, PairStable, PairsStable;
    var s := st.Flush();
    StepFlush(u, st, c);
    StepSegmented(u, st, c);
    SelfDecomposed(u, c);
    SinglesSnoc(u, s, c);
    OrderedSnoc(u, s, c);
    if st.open != [] {
      OpenSegment(u, st);
      StarterFollows(u, s, |st.done|, c);
    } else {
      assert s == st.done;
      PairsSnoc(u, s, |s|, c);
    }
  }

  lemma MarkFollows(u: Ucd, s: Text, p: int, c: Cp)
    requires u.Valid() && WellFormed(u, s) && 0 <= p < |s| && u.ccc(s[p]) == 0
    requires forall i :: p < i < |s| ==> u.ccc(s[i]) != 0
    requires u.full(c) == [c] && u.ccc(c) != 0
    requires u.full(s[p]) != [] ==> u.ccc(Last(u.full(s[p]))) <= u.ccc(c)
    requires (p + 1 < |s| ==> u.ccc(Last(s)) < u.ccc(c)) ==> u.primary(s[p], c).None?
    ensures PairsStable(u, s + [c])
  {
    hide Ucd.Valid, Ucd.Nfc, Stable, PairStable;
    SelfDecomposed(u, c);
    MarkPairBehind(u, s[p], c);
    assert Unblocked(u, s + [c], p, |s|) ==> (p + 1 < |s| ==> u.ccc(Last(s)) < u.ccc(c)) by {
      if p + 1 < |s| { assert (s + [c])[|s| - 1] == Last(s); }
    }
    PairsSnoc(u, s, p, c);
  }

  lemma ComposedMark(u: Ucd, st: ComposeState, at: nat, c: Cp)
    requires u.Valid() && Composed(u, st, at) && u.full(c) == [c] && !u.Attaches(st.open, c)
    requires u.ccc(c) != 0 && at <= u.ccc(c)
    ensures Composed(u, u.Step(st, c), u.ccc(c))
  {
    hide Ucd.Valid, Ucd.Nfc, Stable, PairStable, PairsStable;
    var s := st.Flush();
    StepFlush(u, st, c);
    StepSegmented(u, st, c);
    SelfDecomposed(u, c);
    SinglesSnoc(u, s, c);
    OrderedSnoc(u, s, c);
    if st.open != [] {
      OpenSegment(u, st);
      MarkFollows(u, s, |st.done|, c);
    } else {
      assert s == st.done;
      PairsSnoc(u, s, |s|, c);
    }
  }

  lemma ComposedStart(u: Ucd)
    ensures Composed(u, START, 0)
  {
    assert START.Flush() == [];
  }

  lemma ComposedRun(u: Ucd, x: Text)
    requires u.Valid() && u.Ordered(x) && forall c :: c in x ==> u.full(c) == [c]
    ensures Composed(u, u.Run(START, x), if x == [] then 0 else u.ccc(Last(x)))
  {
    hide Ucd.Nfd, Ucd.Step, Ucd.Valid, Ucd.Attaches, Composed;
    if x == [] {
      ComposedStart(u);
    } else {
      var n := |x| - 1;
      var y, c := x[..n], x[n];
      ComposedRun(u, y);
      var st := u.Run(START, y);
      var at := if y == [] then 0 else u.ccc(Last(y));
      if u.Attaches(st.open, c) {
        ComposedAttach(u, st, at, c);
      } else if u.ccc(c) == 0 {
        ComposedStarter(u, st, at, c);
      } else {
        ComposedMark(u, st, at, c);
      }
    }
  }

  // Whatever NFC returns is in the normal form.
  lemma NfcIsWellFormed(u: Ucd, s: Text)
    requires u.Valid()
    ensures WellFormed(u, u.Nfc(s))
  {
    hide Ucd.Valid, Ucd.Nfd, WellFormed;
    NfdShape(u, s);
    ComposedRun(u, u.Nfd(s));
  }
}
