/** When a text is its own NFC.

  The quick check looks at single characters and at pairs. `Characterization` says that this is
  all there is: a text is unchanged by NFC exactly when every character is, its marks stand in
  order, and every starter together with each character it is not blocked from is unchanged as a
  two-character text. Idempotence and closure under substring follow.
 */
module NormalForm {
  import opened ComposedTexts
  import opened Normalizer
  import opened StablePairs

  // --- the normal form is left alone ------------------------------------------

  lemma WellFormedSubstring(u: Ucd, s: Text, lo: nat, hi: nat)
    requires WellFormed(u, s) && lo <= hi <= |s|
    ensures WellFormed(u, s[lo..hi])
  {
    hide Ucd.Nfc, Stable, PairStable;
    var t := s[lo..hi];
    assert forall i :: 0 <= i < |t| ==> t[i] == s[lo + i];
    forall i, j | Unblocked(u, t, i, j)
      ensures PairStable(u, t[i], t[j])
    {
      assert Unblocked(u, s, lo + i, lo + j) by {
        forall m | lo + i < m < lo + j ensures 0 < u.ccc(s[m]) < u.ccc(s[lo + j]) { assert t[m - lo] == s[m]; }
      }
    }
  }

  ghost predicate Marks(u: Ucd, m: Text) {
    u.Ordered(m) && forall i :: 0 <= i < |m| ==> u.ccc(m[i]) != 0 && u.full(m[i]) == [m[i]]
  }

  // Every mark that reaches the starter `c` makes a stable pair with it.
  ghost predicate Tolerates(u: Ucd, c: Cp, m: Text) {
    forall j {:trigger m[j]} :: 0 <= j < |m| && u.Reaches([c] + m[..j], m[j]) ==> PairStable(u, c, m[j])
  }

  lemma MarksSplit(u: Ucd, m: Text, q: nat)
    requires Marks(u, m) && q <= |m|
    ensures Marks(u, m[..q])
    ensures forall i, j :: 0 <= i <= j < |m| ==> u.ccc(m[i]) <= u.ccc(m[j])
  {
    forall i, j | 0 <= i <= j < |m|
      ensures u.ccc(m[i]) <= u.ccc(m[j])
    {
      Ascending(u, m, i, j);
    }
  }

  // Marks behind all of the starter's own decomposition are appended one by one.
  lemma AppendMarks(u: Ucd, c: Cp, m: Text, q: nat, n: nat)
    requires u.Valid() && Stable(u, [c]) && u.ccc(c) == 0 && Marks(u, m) && Tolerates(u, c, m)
    requires q <= n <= |m|
    requires u.full(c) != [] && forall i :: q <= i < |m| ==> u.ccc(Last(u.full(c))) <= u.ccc(m[i])
    ensures u.Run(ComposeState([], [c] + m[..q]), m[q..n]) == ComposeState([], [c] + m[..n])
    decreases n
  {
    hide Ucd.Valid, Ucd.Nfc, Ucd.Run, Ucd.Step, Stable, PairStable, Marks, Tolerates;
    if q == n {
      assert m[q..n] == [];
      RunEmpty(u, ComposeState([], [c] + m[..q]));
    } else {
      AppendMarks(u, c, m, q, n - 1);
      assert m[q..n] == m[q..n - 1] + [m[n - 1]];
      RunSnoc(u, ComposeState([], [c] + m[..q]), m[q..n - 1], m[n - 1]);
      AppendMark(u, c, m, n - 1);
    }
  }

  lemma AppendMark(u: Ucd, c: Cp, m: Text, i: nat)
    requires u.Valid() && Stable(u, [c]) && u.ccc(c) == 0 && Marks(u, m) && Tolerates(u, c, m) && i < |m|
    requires u.full(c) != [] && u.ccc(Last(u.full(c))) <= u.ccc(m[i])
    ensures u.Step(ComposeState([], [c] + m[..i]), m[i]) == ComposeState([], [c] + m[..i + 1])
  {
    hide Ucd.Valid, Ucd.Nfc, Ucd.Run, Stable, PairStable, Ucd.Ordered;
    MarkPairBehind(u, c, m[i]);
    assert [c] + m[..i + 1] == ([c] + m[..i]) + [m[i]];
    assert ([c] + m[..i])[0] == c;
  }

  lemma RunEmpty(u: Ucd, st: ComposeState)
    ensures u.Run(st, []) == st
  {
  }

  // Marks of smaller class settle in front of the last character of the starter's decomposition.
  lemma OrderOntoBefore(u: Ucd, y: Text, x: Cp, m: Text)
    requires forall i :: 0 <= i < |m| ==> 0 < u.ccc(m[i]) < u.ccc(x)
    ensures u.OrderOnto(y + [x], m) == u.OrderOnto(y, m) + [x]
  {
    if m != [] {
      OrderOntoBefore(u, y, x, m[..|m| - 1]);
      InsertBefore(u, u.OrderOnto(y, m[..|m| - 1]), x, m[|m| - 1]);
    }
  }

  lemma OrderedJoin(u: Ucd, y: Text, m: Text)
    requires u.Ordered(y) && u.Ordered(m) && (y != [] && m != [] ==> u.ccc(m[0]) == 0 || u.ccc(Last(y)) <= u.ccc(m[0]))
    ensures u.Ordered(y + m)
  {
  }

  // The number of leading marks of a class below `at`.
  function Below(u: Ucd, m: Text, at: nat): (q: nat)
    ensures q <= |m|
    ensures forall i :: 0 <= i < q ==> u.ccc(m[i]) < at
    ensures q < |m| ==> at <= u.ccc(m[q])
  {
    if m == [] || at <= u.ccc(m[0]) then 0 else 1 + Below(u, m[1..], at)
  }

  // How the decomposition of a stable starter and the marks behind it interleave.
  lemma SegmentOrder(u: Ucd, k: Cp, x: Cp, m: Text, q: nat)
    requires u.Valid() && Marks(u, m) && q <= |m| && u.Ordered(u.full(k) + [x])
    requires forall i :: 0 <= i < q ==> u.ccc(m[i]) < u.ccc(x)
    requires q < |m| ==> u.ccc(x) <= u.ccc(m[q])
    ensures u.OrderOnto([], u.full(k) + [x] + m) == u.OrderOnto([], u.full(k) + m[..q]) + [x] + m[q..]
  {
    hide Ucd.Valid, Ucd.OrderOnto, Ucd.Insert, Ucd.Ordered;
    var f, m1, m2 := u.full(k), m[..q], m[q..];
    MarksSplit(u, m, q);
    OrderedFull(u, k);
    assert [] + f == f;
    OrderedFixed(u, [], f);
    OrderOntoAppend(u, [], f, m1);
    assert [] + (f + [x]) == f + [x];
    OrderedFixed(u, [], f + [x]);
    assert f + [x] + m == (f + [x]) + (m1 + m2);
    OrderOntoAppend(u, [], f + [x], m1 + m2);
    OrderOntoAppend(u, f + [x], m1, m2);
    OrderOntoBefore(u, f, x, m1);
    OrderOntoOrders(u, f + [x], m1);
    var y := u.OrderOnto(f, m1) + [x];
    OrderedJoin(u, y, m2);
    OrderedFixed(u, y, m2);
  }

  lemma OrderedFull(u: Ucd, k: Cp)
    requires u.Valid()
    ensures u.Ordered(u.full(k)) && u.full(k) != []
  {
    assert u.ValidDecomposition(k);
  }

  lemma SegmentRunAlone(u: Ucd, c: Cp, m: Text)
    requires u.Valid() && Stable(u, [c]) && u.ccc(c) == 0 && Marks(u, m) && Tolerates(u, c, m) && u.full(c) == [c]
    ensures u.Run(START, u.OrderOnto([], u.full(c) + m)) == ComposeState([], [c] + m)
  {
    hide Ucd.Valid, Ucd.Nfc, Ucd.Run, Ucd.OrderOnto, Ucd.Insert, Stable, PairStable;
    SelfDecomposed(u, c);
    OrderedJoin(u, [c], m);
    assert [] + ([c] + m) == [c] + m;
    OrderedFixed(u, [], [c] + m);
    RunAppend(u, START, [c], m);
    assert [c] + m[..0] == [c] && m[0..|m|] == m && m[..|m|] == m;
    AppendMarks(u, c, m, 0, |m|);
  }

  // Marks of a smaller class do not keep `x` from the starter it composes with.
  lemma StepTogether(u: Ucd, k: Cp, x: Cp, m: Text)
    requires u.primary(k, x).Some? && forall i :: 0 <= i < |m| ==> u.ccc(m[i]) < u.ccc(x)
    ensures u.Step(ComposeState([], [k] + m), x) == ComposeState([], [u.primary(k, x).value] + m)
  {
    var open := [k] + m;
    assert open[1..] == m;
    assert m != [] ==> open[|open| - 1] == m[|m| - 1];
  }

  // A stable starter, decomposed and reordered among its marks, is put together again.
  lemma SegmentRun(u: Ucd, c: Cp, m: Text)
    requires u.Valid() && Stable(u, [c]) && u.ccc(c) == 0 && Marks(u, m) && Tolerates(u, c, m)
    ensures u.Run(START, u.OrderOnto([], u.full(c) + m)) == ComposeState([], [c] + m)
    decreases |u.full(c)|
  {
    hide Ucd.Valid, Ucd.Nfc, Ucd.Run, Ucd.OrderOnto, Ucd.Insert, Ucd.Ordered, Ucd.Attaches, Stable, PairStable,
         Tolerates, Marks;
    OrderedFull(u, c);
    if u.full(c) == [c] {
      SegmentRunAlone(u, c, m);
    } else {
      var k, x := LastStep(u, c);
      var q := Below(u, m, u.ccc(x));
      SegmentOrder(u, k, x, m, q);
      MarksSplit(u, m, q);
      ToleratesShrunk(u, k, x, m, q);
      SegmentRun(u, k, m[..q]);
      var y := u.OrderOnto([], u.full(k) + m[..q]);
      RunAppend(u, START, y + [x], m[q..]);
      RunSnoc(u, START, y, x);
      StepTogether(u, k, x, m[..q]);
      assert m[q..|m|] == m[q..] && m[..|m|] == m;
      AppendMarks(u, c, m, q, |m|);
    }
  }

  lemma ToleratesShrunk(u: Ucd, k: Cp, x: Cp, m: Text, q: nat)
    requires u.Valid() && Stable(u, [k]) && u.ccc(k) == 0 && u.primary(k, x).Some? && Marks(u, m)
    requires q <= |m| && Tolerates(u, u.primary(k, x).value, m)
    requires forall i :: 0 <= i < q ==> u.ccc(m[i]) < u.ccc(x)
    ensures Tolerates(u, k, m[..q])
  {
    hide Ucd.Valid, Ucd.Nfc, Stable, PairStable;
    var c := u.primary(k, x).value;
    var n := m[..q];
    forall j | 0 <= j < |n| && u.Reaches([k] + n[..j], n[j])
      ensures PairStable(u, k, n[j])
    {
      assert n[..j] == m[..j] && n[j] == m[j];
      assert j > 0 ==> ([k] + n[..j])[j] == m[j - 1] == ([c] + m[..j])[j];
      assert u.Reaches([c] + m[..j], m[j]);
      MarkPairShrunk(u, k, x, m[j]);
    }
  }

  lemma AllMarks(u: Ucd, s: Text)
    requires forall i :: 0 <= i < |s| ==> u.ccc(s[i]) != 0
    ensures u.Run(START, s) == ComposeState(s, [])
  {
    if s != [] {
      AllMarks(u, s[..|s| - 1]);
      assert s == s[..|s| - 1] + [s[|s| - 1]];
    }
  }

  function LastStarter(u: Ucd, s: Text): (p: int)
    ensures -1 <= p < |s| && (p >= 0 ==> u.ccc(s[p]) == 0)
    ensures forall i :: p < i < |s| ==> u.ccc(s[i]) != 0
  {
    if s == [] then -1 else if u.ccc(s[|s| - 1]) == 0 then |s| - 1 else LastStarter(u, s[..|s| - 1])
  }

  lemma WellFormedMarks(u: Ucd, s: Text, p: nat)
    requires u.Valid() && WellFormed(u, s) && p <= |s| && forall i :: p <= i < |s| ==> u.ccc(s[i]) != 0
    ensures Marks(u, s[p..])
  {
    hide Ucd.Valid, Ucd.Nfc, Stable, PairStable;
    forall i | p <= i < |s|
      ensures u.full(s[i]) == [s[i]]
    {
      StableMark(u, s[i]);
    }
  }

  lemma WellFormedTolerates(u: Ucd, s: Text, p: nat)
    requires u.Valid() && WellFormed(u, s) && p < |s| && u.ccc(s[p]) == 0
    requires Marks(u, s[p + 1..])
    ensures Tolerates(u, s[p], s[p + 1..])
  {
    hide Ucd.Valid, Ucd.Nfc, Stable, PairStable;
    var m := s[p + 1..];
    MarksSplit(u, m, 0);
    forall j | 0 <= j < |m| && u.Reaches([s[p]] + m[..j], m[j])
      ensures PairStable(u, s[p], m[j])
    {
      assert j > 0 ==> ([s[p]] + m[..j])[j] == m[j - 1];
      assert Unblocked(u, s, p, p + 1 + j) by {
        forall i | p < i < p + 1 + j ensures 0 < u.ccc(s[i]) < u.ccc(s[p + 1 + j]) {
          assert s[i] == m[i - p - 1] && s[p + 1 + j] == m[j];
        }
      }
    }
  }

  lemma MarksAreStable(u: Ucd, s: Text)
    requires u.Valid() && Marks(u, s)
    ensures Stable(u, s)
  {
    hide Ucd.Valid, Ucd.Run, Ucd.OrderOnto, Ucd.Decompose;
    DecomposeMarks(u, s);
    assert [] + s == s;
    OrderedFixed(u, [], s);
    AllMarks(u, s);
  }

  lemma WellFormedIsStable(u: Ucd, s: Text)
    requires u.Valid() && WellFormed(u, s)
    ensures Stable(u, s)
  {
    hide Ucd.Valid, Ucd.Nfc, Ucd.Nfd, Stable, WellFormed, PairStable, Ucd.Attaches, Ucd.Ordered, Marks;
    var p := LastStarter(u, s);
    WellFormedMarks(u, s, p + 1);
    if p < 0 {
      assert s[p + 1..] == s;
      MarksAreStable(u, s);
    } else {
      assert s[0..p] == s[..p];
      WellFormedSubstring(u, s, 0, p);
      WellFormedIsStable(u, s[..p]);
      SegmentBehindStable(u, s, p);
    }
  }

  // A stable text stays stable when a well-formed segment follows.
  lemma SegmentBehindStable(u: Ucd, s: Text, p: nat)
    requires u.Valid() && WellFormed(u, s) && p < |s| && u.ccc(s[p]) == 0
    requires Marks(u, s[p + 1..]) && Stable(u, s[..p])
    ensures Stable(u, s)
  {
    hide Ucd.Valid, Ucd.Run, Ucd.Nfd, Ucd.OrderOnto, WellFormed, Ucd.Attaches, Ucd.Ordered, Marks;
    var a, c, m := s[..p], s[p], s[p + 1..];
    WellFormedSegment(u, s, p);
    var y := u.OrderOnto([], u.full(c) + m);
    RunAppend(u, START, u.Nfd(a), y);
    AfterStarter(u, u.Run(START, u.Nfd(a)), y);
    assert s == a + ([c] + m);
  }

  // The last segment of a well-formed text, seen from the machine that has read what stands before.
  lemma WellFormedSegment(u: Ucd, s: Text, p: nat)
    requires u.Valid() && WellFormed(u, s) && p < |s| && u.ccc(s[p]) == 0
    requires Marks(u, s[p + 1..]) && Stable(u, s[..p])
    ensures var y := u.OrderOnto([], u.full(s[p]) + s[p + 1..]);
            && u.Nfd(s) == u.Nfd(s[..p]) + y
            && u.Run(START, y) == ComposeState([], [s[p]] + s[p + 1..])
            && y != [] && u.ccc(y[0]) == 0 && !u.Attaches(u.Run(START, u.Nfd(s[..p])).open, y[0])
  {
    hide Ucd.Valid, Ucd.Run, Ucd.OrderOnto, Ucd.Insert, Ucd.Decompose, PairStable, Ucd.Ordered, Tolerates;
    var a, c, m := s[..p], s[p], s[p + 1..];
    var f := u.full(c);
    StableStarter(u, c);
    WellFormedTolerates(u, s, p);
    SegmentRun(u, c, m);
    assert s == a + ([c] + m);
    DecomposeAppend(u, a, [c] + m);
    DecomposeAppend(u, [c], m);
    DecomposeOne(u, c);
    DecomposeMarks(u, m);
    OrderOntoAppend(u, [], u.Decompose(a), f + m);
    OrderOntoStarter(u, u.Nfd(a), f + m);
    var st := u.Run(START, u.Nfd(a));
    RunSegmented(u, START, u.Nfd(a));
    if st.open != [] {
      OpenSegment(u, st);
      if |st.open| == 1 {
        assert a[|a| - 1] == s[p - 1] == st.open[0];
        assert Unblocked(u, s, p - 1, p);
        StarterPair(u, s[p - 1], c);
      }
    }
  }

  // --- NFC keeps the canonical decomposition ----------------------------------

  lemma LastGrows(u: Ucd, y: Text, m: Text)
    requires y != [] && forall i :: 0 <= i < |m| ==> u.ccc(m[i]) != 0
    ensures u.ccc(Last(u.OrderOnto(y, m))) >= u.ccc(Last(y))
  {
    if m != [] {
      LastGrows(u, y, m[..|m| - 1]);
    }
  }

  lemma NfdSnoc(u: Ucd, s: Text, c: Cp)
    ensures u.Nfd(s + [c]) == u.OrderOnto(u.Nfd(s), u.full(c))
  {
    DecomposeAppend(u, s, [c]);
    DecomposeOne(u, c);
    OrderOntoAppend(u, [], u.Decompose(s), u.full(c));
  }

  lemma NfdMarks(u: Ucd, s: Text, m: Text)
    requires forall i :: 0 <= i < |m| ==> u.full(m[i]) == [m[i]]
    ensures u.Nfd(s + m) == u.OrderOnto(u.Nfd(s), m)
  {
    DecomposeAppend(u, s, m);
    DecomposeMarks(u, m);
    OrderOntoAppend(u, [], u.Decompose(s), m);
  }

  // A composite decomposes to what the starter and the attached character did.
  lemma AttachKeeps(u: Ucd, a: Text, k: Cp, m: Text, c: Cp)
    requires u.Valid() && u.primary(k, c).Some? && u.full(c) == [c] && Marks(u, m)
    requires m != [] ==> u.ccc(Last(m)) < u.ccc(c)
    requires u.Ordered(u.Nfd(a + [k] + m) + [c])
    ensures u.Nfd(a + [u.primary(k, c).value] + m) == u.Nfd(a + [k] + m) + [c]
  {
    hide Ucd.Valid, Ucd.Nfd, Ucd.Insert, Ucd.OrderOnto;
    var g := u.primary(k, c).value;
    CompositeFacts(u, k, c);
    var y := u.Nfd(a + [k]);
    NfdSnoc(u, a, k);
    NfdSnoc(u, a, g);
    OrderOntoAppend(u, u.Nfd(a), u.full(k), [c]);
    OrderOntoOne(u, y, c);
    NfdMarks(u, a + [k], m);
    NfdMarks(u, a + [g], m);
    if y != [] {
      LastGrows(u, y, m);
      var z := u.Nfd(a + [k] + m);
      assert (z + [c])[|z| - 1] == Last(z) && (z + [c])[|z|] == c;
    }
    InsertStays(u, y, c);
    forall i | 0 <= i < |m|
      ensures u.ccc(m[i]) < u.ccc(c)
    {
      Ascending(u, m, i, |m| - 1);
    }
    OrderOntoBefore(u, y, c, m);
  }

  lemma KeepsDecomposition(u: Ucd, x: Text)
    requires u.Valid() && u.Ordered(x) && forall c :: c in x ==> u.full(c) == [c]
    ensures u.Nfd(u.Run(START, x).Flush()) == x
  {
    hide Ucd.Valid, Ucd.Nfd, Ucd.Insert, Ucd.OrderOnto, Ucd.Step, WellFormed;
    if x == [] {
      NfdNothing(u);
      RunEmpty(u, START);
      assert START.Flush() == [];
    } else {
      var n := |x| - 1;
      var y, c := x[..n], x[n];
      assert x == y + [c];
      KeepsDecomposition(u, y);
      ComposedRun(u, y);
      var st := u.Run(START, y);
      StepFlush(u, st, c);
      if u.Attaches(st.open, c) {
        StepKeeps(u, st, y, c);
      } else {
        NfdSnoc(u, st.Flush(), c);
        OrderOntoOne(u, y, c);
        InsertStays(u, y, c);
      }
    }
  }

  lemma StepKeeps(u: Ucd, st: ComposeState, y: Text, c: Cp)
    requires u.Valid() && Segmented(u, st) && WellFormed(u, st.Flush()) && u.full(c) == [c]
    requires u.Attaches(st.open, c) && u.Nfd(st.Flush()) == y && u.Ordered(y + [c])
    ensures u.Nfd(u.Step(st, c).Flush()) == y + [c]
  {
    hide Ucd.Valid, Ucd.Nfd, WellFormed;
    var a, k, m := st.done, st.open[0], st.open[1..];
    OpenMarks(u, st);
    StepFlush(u, st, c);
    assert st.Flush() == a + [k] + m;
    assert st.Flush()[|a| := u.primary(k, c).value] == a + [u.primary(k, c).value] + m;
    AttachKeeps(u, a, k, m, c);
  }

  lemma NfdNothing(u: Ucd)
    ensures u.Nfd([]) == []
  {
  }

  lemma OpenMarks(u: Ucd, st: ComposeState)
    requires u.Valid() && Segmented(u, st) && WellFormed(u, st.Flush()) && st.open != []
    ensures Marks(u, st.open[1..])
  {
    hide Ucd.Valid, WellFormed, Marks;
    OpenSegment(u, st);
    var s, p := st.Flush(), |st.done|;
    WellFormedMarks(u, s, p + 1);
    assert s[p + 1..] == st.open[1..];
  }

  // The composed form is canonically equivalent to the text.
  lemma NfcEquivalent(u: Ucd, s: Text)
    requires u.Valid()
    ensures u.Nfd(u.Nfc(s)) == u.Nfd(s)
  {
    NfdShape(u, s);
    KeepsDecomposition(u, u.Nfd(s));
  }

  // --- the main results -------------------------------------------------------

  lemma Characterization(u: Ucd, s: Text)
    requires u.Valid()
    ensures Stable(u, s) <==> WellFormed(u, s)
  {
    NfcIsWellFormed(u, s);
    if WellFormed(u, s) {
      WellFormedIsStable(u, s);
    }
  }

  lemma NfcIdempotent(u: Ucd, s: Text)
    requires u.Valid()
    ensures u.Nfc(u.Nfc(s)) == u.Nfc(s)
  {
    NfcIsWellFormed(u, s);
    WellFormedIsStable(u, u.Nfc(s));
  }

  // Normal forms are closed under substring.
  lemma SubstringStable(u: Ucd, s: Text, lo: nat, hi: nat)
    requires u.Valid() && Stable(u, s) && lo <= hi <= |s|
    ensures Stable(u, s[lo..hi])
  {
    Characterization(u, s);
    WellFormedSubstring(u, s, lo, hi);
    Characterization(u, s[lo..hi]);
  }
}
