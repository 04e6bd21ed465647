/** Character data on which an interleaved probe changes although no candidate in it composes.

  It chains two composites: the first element of one is the second element of the other. Unicode has
  no such chain among its first elements, but nothing the tool checks of the data rules one out.
 */
module NfcProbeExample {
  import opened NfcProbes
  import opened NfcScan
  import opened NfcTable
  import opened Normalizer
  import opened StablePairs
  import opened Wrappers

  const X: Cp := 0x78
  const Y: Cp := 0x79
  const Z: Cp := 0x7A
  const XY: Cp := 0xE000
  const YZ: Cp := 0xE001

  function Class(c: Cp): nat { if c == TILDE_OVERLAY then 1 else if c == YPOGEGRAMMENI then 240 else 0 }

  function Full(c: Cp): Text { if c == XY then [X, Y] else if c == YZ then [Y, Z] else [c] }

  function Pair(a: Cp, b: Cp): Option<Cp> {
    if a == X && b == Y then Some(XY) else if a == Y && b == Z then Some(YZ) else None
  }

  function Chained(): Ucd { Ucd(c => Class(c), c => Full(c), (a, b) => Pair(a, b)) }

  lemma FullIsValid(c: Cp)
    ensures Chained().ValidDecomposition(c)
  {
    assert forall x :: x in Full(c) ==> Full(x) == [x];
  }

  lemma PairIsValid(a: Cp, b: Cp)
    ensures Chained().ValidPair(a, b)
  {
  }

  lemma ChainedIsValid()
    ensures Chained().Valid()
  {
    hide Ucd.ValidDecomposition, Ucd.ValidPair, Chained;
    forall c: Cp ensures Chained().ValidDecomposition(c) { FullIsValid(c); }
    forall a: Cp, b: Cp ensures Chained().ValidPair(a, b) { PairIsValid(a, b); }
  }

  lemma ChainedData()
    ensures ToolData(Chained())
  {
    hide Ucd.Valid;
    ChainedIsValid();
  }

  // `Y` is scanned as a first element, `X` and the letter a are candidates behind it, and neither
  // composes with it; their probe changes, because `X` composes with the second `Y`.
  lemma ProbeOvershoots(nfcChanged: map<Cp, Text>, nfdChanged: map<Cp, Text>, nonstarters: set<Cp>)
    requires Scanned(Chained(), nfcChanged, nfdChanged, nonstarters)
    ensures ToolData(Chained()) && Y in FirstElements(nfcChanged, nfdChanged, nonstarters)
    ensures X !in nfcChanged && LETTER_A !in nfcChanged
    ensures Composing(Chained(), Y, [X, LETTER_A]) == []
    ensures !Stable(Chained(), Interleave(Y, [X, LETTER_A]))
  {
    hide *;
    var u := Chained();
    ChainedData();
    Letters(u);
    LettersStand(u);
    NothingComposes(u);
    StandsInTheWay(u);
    UnchangedProbe(u, Y, [X, LETTER_A]);
    HeadIsScanned(u, nfcChanged, nfdChanged, nonstarters, Y, Z);
    NotChanged(u, nfcChanged, nfdChanged, nonstarters);
  }

  lemma Letters(u: Ucd)
    requires u == Chained() && ToolData(u)
    ensures u.Valid() && u.ccc(Y) == 0 && Plain(u, Y) && u.primary(Y, Z).Some?
  {
  }

  lemma StandsInTheWay(u: Ucd)
    requires !PairStable(u, X, Y)
    ensures !StandsBefore(u, Y, [X, LETTER_A])
  {
    var seconds := [X, LETTER_A];
    assert seconds[0] == X;
  }

  lemma NotChanged(u: Ucd, nfcChanged: map<Cp, Text>, nfdChanged: map<Cp, Text>, nonstarters: set<Cp>)
    requires Scanned(u, nfcChanged, nfdChanged, nonstarters) && Stable(u, [X]) && Stable(u, [LETTER_A])
    ensures X !in nfcChanged && LETTER_A !in nfcChanged
  {
  }

  lemma LettersStand(u: Ucd)
    requires u == Chained() && ToolData(u)
    ensures Stable(u, [X]) && Stable(u, [Y]) && Stable(u, [LETTER_A]) && StableStarters(u, Y)
    ensures PairStable(u, Y, X) && PairStable(u, Y, LETTER_A) && !PairStable(u, X, Y)
  {
    hide Stable, PairStable, Ucd.Valid;
    SelfDecomposed(u, X);
    SelfDecomposed(u, Y);
    SelfDecomposed(u, LETTER_A);
    StarterPair(u, Y, X);
    StarterPair(u, Y, LETTER_A);
    StarterPair(u, X, Y);
  }

  lemma NothingComposes(u: Ucd)
    requires PairStable(u, Y, X) && PairStable(u, Y, LETTER_A)
    ensures Composing(u, Y, [X, LETTER_A]) == []
  {
    hide Ucd.Nfc;
    assert [X, LETTER_A][1..] == [LETTER_A];
    ComposingOne(u, Y, LETTER_A);
  }
}
