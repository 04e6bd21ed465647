/** A small instance of the character data, so that the assumptions are seen to be satisfiable.

  It holds a letter with an acute, a two- and a three-part Hangul syllable, a composition exclusion
  (U+0958) and the marks the probes use.
 */
module NfcSample {
  import opened NfcProbes
  import opened NfcTable
  import opened NormalForm
  import opened Normalizer
  import opened StablePairs
  import opened Wrappers

  const LETTER_E: Cp := 0x65
  const ACUTE: Cp := 0x301
  const E_ACUTE: Cp := 0xE9
  const KA: Cp := 0x915
  const NUKTA: Cp := 0x93C
  const QA: Cp := 0x958
  const JAMO_L: Cp := 0x1100
  const JAMO_V: Cp := 0x1161
  const JAMO_T: Cp := 0x11A8
  const HANGUL_LV: Cp := 0xAC00
  const HANGUL_LVT: Cp := 0xAC01

  function Class(c: Cp): nat {
    if c == ACUTE then 230 else if c == NUKTA then 7 else if c == TILDE_OVERLAY then 1
    else if c == YPOGEGRAMMENI then 240 else 0
  }

  function Full(c: Cp): Text {
    if c == E_ACUTE then [LETTER_E, ACUTE]
    else if c == QA then [KA, NUKTA]
    else if c == HANGUL_LV then [JAMO_L, JAMO_V]
    else if c == HANGUL_LVT then [JAMO_L, JAMO_V, JAMO_T]
    else [c]
  }

  function Pair(a: Cp, b: Cp): Option<Cp> {
    if a == LETTER_E && b == ACUTE then Some(E_ACUTE)
    else if a == JAMO_L && b == JAMO_V then Some(HANGUL_LV)
    else if a == HANGUL_LV && b == JAMO_T then Some(HANGUL_LVT)
    else None
  }

  function Sample(): Ucd {
    Ucd(c => Class(c), c => Full(c), (a, b) => Pair(a, b))
  }

  lemma SampleIsValid()
    ensures Sample().Valid()
  {
    var u := Sample();
    forall c: Cp
      ensures u.ValidDecomposition(c)
    {
      FullIsOrdered(c);
      assert u.full(c) == Full(c);
      assert forall x :: x in Full(c) ==> Full(x) == [x];
    }
    forall a: Cp, b: Cp
      ensures u.ValidPair(a, b)
    {
      assert u.primary(a, b) == Pair(a, b);
    }
  }

  lemma FullIsOrdered(c: Cp)
    ensures Sample().Ordered(Full(c))
  {
  }

  // Every assumption made of the data holds of the sample. Only one three-part Hangul syllable is
  // composed in it; the others stand for themselves.
  lemma SampleSatisfiesAssumptions()
    ensures ToolData(Sample())
  {
    SampleIsValid();
    hide Ucd.Valid;
  }

  // A recomposable letter around an interleaved mark is left alone; an exclusion is not, and
  // neither is a letter followed by its accent.
  lemma SampleForms()
    ensures Sample().Nfd([E_ACUTE, TILDE_OVERLAY]) == [LETTER_E, TILDE_OVERLAY, ACUTE]
    ensures Sample().Nfc([E_ACUTE, TILDE_OVERLAY]) == [E_ACUTE, TILDE_OVERLAY]
    ensures Sample().Nfc([QA]) == [KA, NUKTA]
    ensures Sample().Nfc([LETTER_E, ACUTE]) == [E_ACUTE]
    ensures Sample().Nfc([JAMO_L, JAMO_V]) == [HANGUL_LV]
    ensures Sample().Nfc([JAMO_L, JAMO_V, JAMO_T]) == Sample().Nfc([HANGUL_LV, JAMO_T]) == [HANGUL_LVT]
  {
    hide *;
    Reordered();
    LatinForms();
    HangulForms();
  }

  lemma Reordered()
    ensures Sample().Nfd([E_ACUTE, TILDE_OVERLAY]) == [LETTER_E, TILDE_OVERLAY, ACUTE]
    ensures Sample().Nfc([E_ACUTE, TILDE_OVERLAY]) == [E_ACUTE, TILDE_OVERLAY]
  {
    var u := Sample();
    SampleIsValid();
    hide Ucd.Run, Ucd.OrderOnto, Ucd.Insert, Ucd.Decompose, Ucd.Valid;
    NfdPair(u, E_ACUTE, TILDE_OVERLAY);
    OrderOntoOne(u, u.full(E_ACUTE), TILDE_OVERLAY);
    assert [LETTER_E] + [ACUTE] == [LETTER_E, ACUTE];
    InsertBefore(u, [LETTER_E], ACUTE, TILDE_OVERLAY);
    InsertStays(u, [LETTER_E], TILDE_OVERLAY);
    Runs(u, [LETTER_E, TILDE_OVERLAY, ACUTE]);
  }

  lemma LatinForms()
    ensures Sample().Nfc([QA]) == [KA, NUKTA]
    ensures Sample().Nfc([LETTER_E, ACUTE]) == [E_ACUTE]
  {
    var u := Sample();
    SampleIsValid();
    hide Ucd.Run, Ucd.OrderOnto, Ucd.Insert, Ucd.Decompose, Ucd.Valid;
    assert [LETTER_E] + [ACUTE] == [LETTER_E, ACUTE];
    NfdOne(u, QA);
    RunTwo(u, KA, NUKTA);
    NfdPair(u, LETTER_E, ACUTE);
    OrderOntoOne(u, [LETTER_E], ACUTE);
    InsertStays(u, [LETTER_E], ACUTE);
    RunTwo(u, LETTER_E, ACUTE);
  }

  // A Hangul syllable is put together in two steps, from its jamo or from its first two.
  lemma HangulForms()
    ensures Sample().Nfc([JAMO_L, JAMO_V]) == [HANGUL_LV]
    ensures Sample().Nfc([JAMO_L, JAMO_V, JAMO_T]) == [HANGUL_LVT]
    ensures Sample().Nfc([HANGUL_LV, JAMO_T]) == [HANGUL_LVT]
  {
    var u := Sample();
    hide Ucd.Run, Ucd.OrderOnto, Ucd.Insert, Ucd.Decompose, Ucd.Nfd;
    HangulDecomposed();
    RunTwo(u, JAMO_L, JAMO_V);
    Runs(u, [JAMO_L, JAMO_V, JAMO_T]);
  }

  lemma HangulDecomposed()
    ensures Sample().Nfd([JAMO_L, JAMO_V]) == [JAMO_L, JAMO_V]
    ensures Sample().Nfd([JAMO_L, JAMO_V, JAMO_T]) == Sample().Nfd([HANGUL_LV, JAMO_T]) == [JAMO_L, JAMO_V, JAMO_T]
  {
    var u := Sample();
    SampleIsValid();
    hide Ucd.OrderOnto, Ucd.Insert, Ucd.Decompose, Ucd.Valid, Ucd.Nfd;
    var lv := [JAMO_L, JAMO_V];
    assert [JAMO_L] + [JAMO_V] == lv && lv + [JAMO_T] == [JAMO_L, JAMO_V, JAMO_T];
    assert u.full(JAMO_L) == [JAMO_L] && u.full(JAMO_V) == [JAMO_V] && u.full(JAMO_T) == [JAMO_T]
        && u.full(HANGUL_LV) == lv;
    NfdPair(u, JAMO_L, JAMO_V);
    OrderOntoOne(u, [JAMO_L], JAMO_V);
    InsertStays(u, [JAMO_L], JAMO_V);
    OrderOntoOne(u, lv, JAMO_T);
    InsertStays(u, lv, JAMO_T);
    NfdPair(u, HANGUL_LV, JAMO_T);
    NfdSnoc(u, lv, JAMO_T);
  }

  lemma Runs(u: Ucd, x: Text)
    requires |x| == 3
    ensures u.Run(START, x) == u.Step(u.Step(u.Step(START, x[0]), x[1]), x[2])
  {
    assert x == [x[0], x[1]] + [x[2]];
    RunSnoc(u, START, [x[0], x[1]], x[2]);
    RunTwo(u, x[0], x[1]);
  }

  lemma RunTwo(u: Ucd, a: Cp, b: Cp)
    ensures u.Run(START, [a, b]) == u.Step(u.Step(START, a), b)
  {
    assert [a] + [b] == [a, b];
    RunSnoc(u, START, [a], b);
    RunOne(u, START, a);
  }
}
