/** The NFC quick-check table: how it is assembled, and what passing it means. */
module NfcTable {
  import opened ComposedTexts
  import opened NfcProbes
  import opened NfcScan
  import opened NormalForm
  import opened Normalizer
  import opened StablePairs
  import opened Wrappers

  const NFC_UNSAFE: nat := 255
  const MAX_RANKS: nat := 254
  const HANGUL_START := 0xAC00
  const HANGUL_END := 0xD7A3

  predicate IsLvt(c: int) {
    HANGUL_START <= c <= HANGUL_END && (c - HANGUL_START) % 28 != 0
  }

  // A three-part Hangul syllable starts no composite, and nothing moves inside it.
  ghost predicate LvtData(u: Ucd) {
    forall c: Cp :: IsLvt(c) ==>
      (forall x: Cp :: u.primary(c, x).None?) && u.full(c) != [] && u.ccc(Last(u.full(c))) == 0
  }

  ghost predicate ToolData(u: Ucd) {
    && u.Valid()
    && ProbeLetters(u)
    && LvtData(u)
    && (forall a: Cp, b: Cp {:trigger u.primary(a, b)} :: u.primary(a, b).Some? ==> IsScalar(u.primary(a, b).value))
  }

  // --- the predicate ----------------------------------------------------------

  ghost predicate IsText(s: Text) { forall i :: 0 <= i < |s| ==> IsScalar(s[i]) }

  predicate QuickCheckPasses(s: Text, table: seq<nat>)
    requires forall i :: 0 <= i < |s| ==> 0 <= s[i] < |table|
  {
    if s == [] then true
    else if exists i :: 0 <= i < |s| && table[s[i]] == NFC_UNSAFE then false
    else if |s| < 2 then true
    else !exists i, j :: 0 <= i < |s| && j == i + 1 < |s| && table[s[i]] > table[s[j]] && table[s[j]] != 0
  }

  // --- what the table holds ---------------------------------------------------

  // Every starter that NFC leaves alone: the first elements a composition could have.
  ghost predicate StableStarters(u: Ucd, f: Cp) {
    IsScalar(f) && Stable(u, [f]) && u.ccc(f) == 0
  }

  ghost predicate IsSecond(u: Ucd, c: Cp) {
    exists f :: StableStarters(u, f) && !PairStable(u, f, c)
  }

  // `combining` stands for the standard library's non-zero combining classes, which may only add
  // refusals: no agreement with `u` is assumed.
  ghost predicate Unsafe(u: Ucd, combining: set<Cp>, c: Cp) {
    || !Stable(u, [c])
    || (c in combining && (!Plain(u, c) || u.ccc(c) == 0))
    || IsSecond(u, c)
  }

  predicate IsRank(v: nat) { v != 0 && v != NFC_UNSAFE }

  // The combining classes of the marks that stand for themselves, and those of them up to `k`.
  ghost function MarkClasses(u: Ucd): set<nat> {
    set c: Cp | 0 <= c < CODEPOINT_COUNT && IsScalar(c) && u.full(c) == [c] && u.ccc(c) != 0 :: u.ccc(c)
  }

  ghost function ClassesUpTo(u: Ucd, k: nat): set<nat> { set v | v in MarkClasses(u) && v <= k }

  ghost predicate TableOf(u: Ucd, combining: set<Cp>, table: seq<nat>) {
    && |table| == CODEPOINT_COUNT
    && (forall c :: 0 <= c < |table| && !IsScalar(c) ==> table[c] == NFC_UNSAFE)
    && (forall c :: 0 <= c < |table| && IsScalar(c) ==> (table[c] == NFC_UNSAFE <==> Unsafe(u, combining, c)))
    && (forall c :: 0 <= c < |table| && table[c] != NFC_UNSAFE ==> (table[c] == 0 <==> u.ccc(c) == 0))
    && (forall c, d :: 0 <= c < |table| && 0 <= d < |table| && IsRank(table[c]) && IsRank(table[d]) ==>
          (table[c] < table[d] <==> u.ccc(c) < u.ccc(d)))
    && (forall c :: 0 <= c < |table| && IsRank(table[c]) ==> table[c] == |ClassesUpTo(u, u.ccc(c))|)
  }

  lemma ClassesWithin(u: Ucd, k: nat)
    ensures |ClassesUpTo(u, k)| <= |MarkClasses(u)|
  {
    hide MarkClasses;
    SubsetSize(ClassesUpTo(u, k), MarkClasses(u));
  }

  lemma {:induction false} SubsetSize(a: set<nat>, b: set<nat>)
    requires a <= b
    ensures |a| <= |b|
  {
    if x :| x in a {
      SubsetSize(a - {x}, b - {x});
    }
  }

  // There is one entry a codepoint, each fits a byte, and 255 is kept for what is refused.
  lemma EntriesAreBytes(u: Ucd, combining: set<Cp>, table: seq<nat>, c: int)
    requires TableOf(u, combining, table) && |MarkClasses(u)| <= 254 && 0 <= c < 0x110000
    ensures |table| == 0x110000 && table[c] <= 255
    ensures table[c] == 255 <==> !IsScalar(c) || Unsafe(u, combining, c)
    ensures table[c] == 0 <==> IsScalar(c) && !Unsafe(u, combining, c) && u.ccc(c) == 0
  {
    hide MarkClasses, ClassesUpTo, Unsafe;
    if IsRank(table[c]) { ClassesWithin(u, u.ccc(c)); }
  }

  // A Hangul syllable has three parts exactly when it has a trailing consonant (section 3.12 of the
  // Unicode Standard): 19 leading consonants, 21 vowels, 27 trailing consonants or none.
  lemma LvtIs(c: int)
    ensures IsLvt(c) <==>
              exists l: nat, v: nat, t: nat ::
                l < 19 && v < 21 && 1 <= t < 28 && c == 0xAC00 + SyllableIndex(l, v, t)
  {
    if IsLvt(c) {
      var i := c - 0xAC00;
      assert c == 0xAC00 + SyllableIndex(i / 28 / 21, i / 28 % 21, i % 28);
    }
  }

  function SyllableIndex(l: nat, v: nat, t: nat): nat { (l * 21 + v) * 28 + t }

  // --- the theorem about the predicate ----------------------------------------

  lemma SafePairs(u: Ucd, combining: set<Cp>, table: seq<nat>, s: Text)
    requires ToolData(u) && TableOf(u, combining, table) && IsText(s)
    requires forall i :: 0 <= i < |s| ==> table[s[i]] != NFC_UNSAFE
    ensures SinglesStable(u, s) && PairsStable(u, s)
  {
    hide ToolData, Stable, PairStable;
    forall i, j | Unblocked(u, s, i, j)
      ensures PairStable(u, s[i], s[j])
    {
      var f, c := s[i], s[j];
      assert !Unsafe(u, combining, f) && !Unsafe(u, combining, c);
      assert StableStarters(u, f);
    }
    forall i | 0 <= i < |s|
      ensures Stable(u, [s[i]])
    {
      var c := s[i];
      assert !Unsafe(u, combining, c);
    }
  }

  lemma PassesIffOrdered(u: Ucd, combining: set<Cp>, table: seq<nat>, s: Text)
    requires TableOf(u, combining, table) && IsText(s)
    requires forall i :: 0 <= i < |s| ==> table[s[i]] != NFC_UNSAFE
    ensures QuickCheckPasses(s, table) <==> u.Ordered(s)
  {
    hide Unsafe;
    forall i, j | 0 <= i < |s| && j == i + 1 < |s|
      ensures !(table[s[i]] > table[s[j]] && table[s[j]] != 0) <==> (u.ccc(s[j]) == 0 || u.ccc(s[i]) <= u.ccc(s[j]))
    {
      var a, b := s[i], s[j];
      assert table[a] == 0 <==> u.ccc(a) == 0;
      assert table[b] == 0 <==> u.ccc(b) == 0;
      if u.ccc(a) != 0 && u.ccc(b) != 0 {
        assert table[b] < table[a] <==> u.ccc(b) < u.ccc(a);
      }
    }
  }

  // Among texts without an unsafe character the check is exact.
  lemma QuickCheckExact(u: Ucd, combining: set<Cp>, table: seq<nat>, s: Text)
    requires ToolData(u) && TableOf(u, combining, table) && IsText(s)
    requires forall i :: 0 <= i < |s| ==> table[s[i]] != NFC_UNSAFE
    ensures QuickCheckPasses(s, table) <==> u.Nfc(s) == s
  {
    hide QuickCheckPasses, TableOf;
    SafePairs(u, combining, table, s);
    PassesIffOrdered(u, combining, table, s);
    Characterization(u, s);
  }

  // The tool's claim: whatever passes is unchanged by NFC.
  lemma QuickCheckSound(u: Ucd, combining: set<Cp>, table: seq<nat>, s: Text)
    requires ToolData(u) && TableOf(u, combining, table) && IsText(s)
    requires QuickCheckPasses(s, table)
    ensures u.Nfc(s) == s
  {
    assert forall i :: 0 <= i < |s| ==> table[s[i]] != NFC_UNSAFE;
    QuickCheckExact(u, combining, table, s);
  }

  // A character refused without the standard library's doing is refused for a text of length one
  // or two that NFC really changes.
  lemma RefusalIsReal(u: Ucd, table: seq<nat>, c: Cp)
    requires TableOf(u, {}, table) && IsScalar(c) && table[c] == NFC_UNSAFE
    ensures u.Nfc([c]) != [c] || exists f: Cp :: IsScalar(f) && u.Nfc([f, c]) != [f, c]
  {
    assert Unsafe(u, {}, c);
    if Stable(u, [c]) {
      var f :| StableStarters(u, f) && !PairStable(u, f, c);
      assert u.Nfc([f, c]) != [f, c];
    }
  }

  // --- step 3: the first-element set ------------------------------------------

  function FirstElements(nfcChanged: map<Cp, Text>, nfdChanged: map<Cp, Text>, nonstarters: set<Cp>): set<Cp>
  {
    var firsts := set c | c in nfdChanged && |nfdChanged[c]| >= 2 :: nfdChanged[c][0];
    var composites := set c | c in nfdChanged && c !in nfcChanged && |nfdChanged[c]| >= 2 && !IsLvt(c);
    set c | c in firsts + composites && c !in nfcChanged && c !in nonstarters && IsScalar(c)
  }

  lemma FirstElementsScalar(nfcChanged: map<Cp, Text>, nfdChanged: map<Cp, Text>, nonstarters: set<Cp>)
    ensures forall c :: c in FirstElements(nfcChanged, nfdChanged, nonstarters) ==> IsScalar(c)
  {
  }

  // What steps 1 and 2 established.
  ghost predicate Scanned(u: Ucd, nfcChanged: map<Cp, Text>, nfdChanged: map<Cp, Text>, nonstarters: set<Cp>) {
    && (forall c :: c in nfcChanged <==> IsScalar(c) && !Stable(u, [c]))
    && (forall c :: c in nfdChanged <==> IsScalar(c) && !Plain(u, c))
    && (forall c :: c in nfdChanged ==> nfdChanged[c] == u.full(c))
    && (forall c :: c in nonstarters <==> IsScalar(c) && Plain(u, c) && u.ccc(c) != 0)
  }

  lemma FirstElementsSound(u: Ucd, nfcChanged: map<Cp, Text>, nfdChanged: map<Cp, Text>, nonstarters: set<Cp>, f: Cp)
    requires ToolData(u) && Scanned(u, nfcChanged, nfdChanged, nonstarters)
    requires f in FirstElements(nfcChanged, nfdChanged, nonstarters)
    ensures StableStarters(u, f)
  {
    hide ToolData, Stable, Plain;
    if u.ccc(f) != 0 {
      ScannedMark(u, f);
    }
  }

  lemma ScannedMark(u: Ucd, f: Cp)
    requires ToolData(u) && Stable(u, [f]) && u.ccc(f) != 0
    ensures Plain(u, f)
  {
    StableMark(u, f);
  }

  // The head of a two-character decomposition is scanned.
  lemma HeadIsScanned(u: Ucd, nfcChanged: map<Cp, Text>, nfdChanged: map<Cp, Text>, nonstarters: set<Cp>, f: Cp, x: Cp)
    requires ToolData(u) && Scanned(u, nfcChanged, nfdChanged, nonstarters)
    requires StableStarters(u, f) && Plain(u, f) && u.primary(f, x).Some?
    ensures f in FirstElements(nfcChanged, nfdChanged, nonstarters)
  {
    hide Stable, Ucd.Nfc;
    var g := u.primary(f, x).value;
    CompositeFacts(u, f, x);
    assert IsScalar(g) && u.full(g) == [f, x];
    assert nfdChanged[g][0] == f;
  }

  // A recomposable composite is scanned, unless it is a three-part Hangul syllable.
  lemma CompositeIsScanned(u: Ucd, nfcChanged: map<Cp, Text>, nfdChanged: map<Cp, Text>, nonstarters: set<Cp>, f: Cp)
    requires ToolData(u) && Scanned(u, nfcChanged, nfdChanged, nonstarters)
    requires StableStarters(u, f) && !Plain(u, f) && !IsLvt(f)
    ensures f in FirstElements(nfcChanged, nfdChanged, nonstarters)
  {
    hide Stable, Ucd.Nfc;
    var k, y := LastStep(u, f);
    OrderedFull(u, k);
    assert |nfdChanged[f]| >= 2;
  }

  // A stable starter the scan leaves out starts no composite at all.
  lemma LeftOutFirst(u: Ucd, nfcChanged: map<Cp, Text>, nfdChanged: map<Cp, Text>, nonstarters: set<Cp>, f: Cp, x: Cp)
    requires ToolData(u) && Scanned(u, nfcChanged, nfdChanged, nonstarters)
    requires StableStarters(u, f) && f !in FirstElements(nfcChanged, nfdChanged, nonstarters)
    ensures u.primary(f, x).None? && u.full(f) != [] && u.ccc(Last(u.full(f))) == 0
  {
    hide Stable, Ucd.Nfc, FirstElements, Scanned, Ucd.Valid;
    if Plain(u, f) {
      if u.primary(f, x).Some? {
        HeadIsScanned(u, nfcChanged, nfdChanged, nonstarters, f, x);
      }
    } else if !IsLvt(f) {
      CompositeIsScanned(u, nfcChanged, nfdChanged, nonstarters, f);
    }
  }

  // Restricting the scan to the first-element set loses no second element.
  lemma FirstElementsComplete(u: Ucd, nfcChanged: map<Cp, Text>, nfdChanged: map<Cp, Text>, nonstarters: set<Cp>,
                              f: Cp, c: Cp)
    requires ToolData(u) && Scanned(u, nfcChanged, nfdChanged, nonstarters)
    requires StableStarters(u, f) && Stable(u, [c]) && !PairStable(u, f, c)
    ensures f in FirstElements(nfcChanged, nfdChanged, nonstarters)
  {
    hide Stable, Ucd.Nfc, PairStable, Scanned, FirstElements;
    if f !in FirstElements(nfcChanged, nfdChanged, nonstarters) {
      if u.ccc(c) == 0 {
        StarterPair(u, f, c);
        LeftOutFirst(u, nfcChanged, nfdChanged, nonstarters, f, u.full(c)[0]);
      } else {
        LeftOutFirst(u, nfcChanged, nfdChanged, nonstarters, f, c);
        StableMark(u, c);
        MarkPairBehind(u, f, c);
      }
    }
  }

  lemma SecondsFound(u: Ucd, nfcChanged: map<Cp, Text>, nfdChanged: map<Cp, Text>, nonstarters: set<Cp>, c: Cp)
    requires ToolData(u) && Scanned(u, nfcChanged, nfdChanged, nonstarters) && Stable(u, [c])
    ensures IsSecond(u, c) <==>
              exists f :: f in FirstElements(nfcChanged, nfdChanged, nonstarters) && !PairStable(u, f, c)
  {
    hide Stable, Ucd.Nfc, PairStable, Scanned, FirstElements, ToolData;
    forall f
      ensures StableStarters(u, f) && !PairStable(u, f, c) <==>
              f in FirstElements(nfcChanged, nfdChanged, nonstarters) && !PairStable(u, f, c)
    {
      if StableStarters(u, f) && !PairStable(u, f, c) {
        FirstElementsComplete(u, nfcChanged, nfdChanged, nonstarters, f, c);
      }
      if f in FirstElements(nfcChanged, nfdChanged, nonstarters) {
        FirstElementsSound(u, nfcChanged, nfdChanged, nonstarters, f);
      }
    }
  }

  // --- steps 1 to 6 -----------------------------------------------------------

  // The tool's `for code in codes: table[code] = value`, here in ascending order.
  method WriteEach(table: array<nat>, codes: set<Cp>, value: nat)
    requires forall c :: c in codes ==> 0 <= c < table.Length
    modifies table
    ensures forall c :: 0 <= c < table.Length ==> table[c] == if c in codes then value else old(table[c])
  {
    for code := 0 to table.Length
      invariant forall c :: 0 <= c < table.Length ==>
                  table[c] == if c in codes && c < code then value else old(table[c])
    {
      if code in codes {
        table[code] := value;
      }
    }
  }

  method WriteRanks(table: array<nat>, ranks: map<Cp, nat>)
    requires forall c :: c in ranks ==> 0 <= c < table.Length
    modifies table
    ensures forall c :: 0 <= c < table.Length ==> table[c] == if c in ranks then ranks[c] else old(table[c])
  {
    for code := 0 to table.Length
      invariant forall c :: 0 <= c < table.Length ==>
                  table[c] == if c in ranks && c < code then ranks[c] else old(table[c])
    {
      if code in ranks {
        table[code] := ranks[code];
      }
    }
  }

  method WriteSurrogates(table: array<nat>)
    requires table.Length == CODEPOINT_COUNT
    modifies table
    ensures forall c :: 0 <= c < table.Length ==> table[c] == if IsScalar(c) then old(table[c]) else NFC_UNSAFE
  {
    for code := SURROGATE_START to SURROGATE_STOP
      invariant forall c :: 0 <= c < table.Length ==>
                  table[c] == if SURROGATE_START <= c < code then NFC_UNSAFE else old(table[c])
    {
      table[code] := NFC_UNSAFE;
    }
  }

  // What the standard library calls a mark and the table calls a safe starter is forced unsafe.
  method ForceUnsafe(table: array<nat>, combining: set<Cp>)
    requires table.Length == CODEPOINT_COUNT
    modifies table
    ensures forall c :: 0 <= c < table.Length ==>
              table[c] == if IsScalar(c) && old(table[c]) == 0 && c in combining then NFC_UNSAFE else old(table[c])
  {
    var codes := AllCodepoints();
    var forced := set c | c in codes && table[c] == 0 && c in combining;
    WriteEach(table, forced, NFC_UNSAFE);
  }

  // The values the steps leave behind, before they are written.
  ghost predicate Assembled(u: Ucd, combining: set<Cp>, unsafe: set<Cp>, ranks: map<Cp, nat>) {
    && (forall c :: c in unsafe ==> IsScalar(c))
    && (forall c :: IsScalar(c) ==>
          (c in unsafe <==> !Stable(u, [c]) || (c in combining && !Plain(u, c)) || IsSecond(u, c)))
    && (forall c :: c in ranks <==> IsScalar(c) && Plain(u, c) && u.ccc(c) != 0)
    && (forall c :: c in ranks ==> 1 <= ranks[c] <= MAX_RANKS)
    && (forall c, d :: c in ranks && d in ranks ==> (ranks[c] < ranks[d] <==> u.ccc(c) < u.ccc(d)))
    && (forall c :: c in ranks ==> ranks[c] == |ClassesUpTo(u, u.ccc(c))|)
  }

  method Assemble(ghost u: Ucd, combining: set<Cp>, unsafe: set<Cp>, ranks: map<Cp, nat>) returns (table: array<nat>)
    requires ToolData(u) && Assembled(u, combining, unsafe, ranks)
    ensures fresh(table) && TableOf(u, combining, table[..])
  {
    hide Stable, IsSecond, Plain, ToolData;
    table := new nat[CODEPOINT_COUNT](_ => 0);
    WriteRanks(table, ranks);
    WriteEach(table, unsafe, NFC_UNSAFE);
    WriteSurrogates(table);
    assert forall c :: 0 <= c < table.Length ==> table[c] == Written(unsafe, ranks, c);
    ForceUnsafe(table, combining);
    assert forall c :: 0 <= c < table.Length ==>
      table[c] == if Written(unsafe, ranks, c) == 0 && c in combining then NFC_UNSAFE else Written(unsafe, ranks, c);
    AssembledIsTable(u, combining, unsafe, ranks, table[..]);
  }

  function Written(unsafe: set<Cp>, ranks: map<Cp, nat>, c: Cp): nat {
    if !IsScalar(c) || c in unsafe then NFC_UNSAFE else if c in ranks then ranks[c] else 0
  }

  lemma AssembledIsTable(u: Ucd, combining: set<Cp>, unsafe: set<Cp>, ranks: map<Cp, nat>, table: seq<nat>)
    requires ToolData(u) && Assembled(u, combining, unsafe, ranks)
    requires |table| == CODEPOINT_COUNT
    requires forall c :: 0 <= c < |table| ==>
      table[c] == if Written(unsafe, ranks, c) == 0 && c in combining then NFC_UNSAFE else Written(unsafe, ranks, c)
    ensures TableOf(u, combining, table)
  {
    hide Stable, IsSecond, ToolData, Plain;
    forall c | IsScalar(c) && c !in unsafe && u.ccc(c) != 0
      ensures Plain(u, c) && c in ranks
    {
      ScannedMark(u, c);
    }
  }

  // Steps 1 and 2: single characters and non-starters.
  method ScanSingles(u: Ucd)
    returns (nfcChanged: map<Cp, Text>, nfdChanged: map<Cp, Text>, candidates: seq<Cp>, nonstarters: set<Cp>)
    requires ToolData(u)
    ensures Scanned(u, nfcChanged, nfdChanged, nonstarters)
    ensures forall c :: c in nfcChanged ==> nfcChanged[c] == u.Nfc([c])
    ensures forall c :: c in candidates <==> IsScalar(c) && Plain(u, c)
  {
    hide Ucd.Nfc, Ucd.Nfd, Ucd.Valid, ProbeLetters, LvtData;
    nfcChanged := SingletonScan(u, NFC);
    nfdChanged := SingletonScan(u, NFD);
    PlainIffNfd(u);
    var all := AllCodepoints();
    candidates := NotIn(all, nfdChanged.Keys);
    var detected := DetectNonstarters(u, candidates);
    nonstarters := if detected.Some? then detected.value else {};
  }

  method BuildNfcTable(u: Ucd, combining: set<Cp>) returns (r: Option<array<nat>>)
    requires ToolData(u)
    ensures r.Some? ==> fresh(r.value) && TableOf(u, combining, r.value[..])
    ensures r.None? <==> |MarkClasses(u)| > MAX_RANKS
    ensures r.None? ==> exists c: Cp :: u.ccc(c) > MAX_RANKS
  {
    hide Stable, IsSecond, PairStable, ClassesAscend, FirstElements, TableOf, Plain, Ucd.Valid, ProbeLetters, LvtData,
         RanksOf, MarkClasses, ClassesUpTo;
    var nfcChanged, nfdChanged, candidates, nonstarters := ScanSingles(u);
    var all := AllCodepoints();
    var violations := set c | c in nfdChanged && c !in nfcChanged && c in combining;
    var unsafe := nfcChanged.Keys + violations;
    var firsts := In(all, FirstElements(nfcChanged, nfdChanged, nonstarters));
    FirstElementsScalar(nfcChanged, nfdChanged, nonstarters);
    var seconds := SecondElementScan(u, firsts, unsafe);
    forall c | IsScalar(c) && c !in unsafe
      ensures c in seconds <==> IsSecond(u, c)
    {
      SecondsFound(u, nfcChanged, nfdChanged, nonstarters, c);
    }
    unsafe := unsafe + seconds;
    var marks := In(candidates, nonstarters);
    var ranks, classes := RankNonstarters(u, marks);
    ClassesCounted(u, classes);
    RanksCount(u, classes, ranks);
    if |classes| > MAX_RANKS {
      return None;
    }
    var table := Assemble(u, combining, unsafe, ranks);
    r := Some(table);
  }

  lemma PlainIffNfd(u: Ucd)
    requires u.Valid()
    ensures forall c: Cp {:trigger u.full(c)} :: u.Nfd([c]) == u.full(c)
  {
    forall c: Cp
      ensures u.Nfd([c]) == u.full(c)
    {
      NfdOne(u, c);
    }
  }

  function In(codes: seq<Cp>, wanted: set<Cp>): (r: seq<Cp>)
    ensures forall c :: c in r <==> c in codes && c in wanted
  {
    if codes == [] then []
    else if codes[0] in wanted then [codes[0]] + In(codes[1..], wanted)
    else In(codes[1..], wanted)
  }

  lemma ClassesCounted(u: Ucd, classes: seq<seq<Cp>>)
    requires ClassesAscend(u, classes)
    ensures |classes| > MAX_RANKS ==> exists c: Cp :: u.ccc(c) > MAX_RANKS
  {
    if |classes| > MAX_RANKS {
      ClassAtLeast(u, classes, MAX_RANKS);
      var c := classes[MAX_RANKS][0];
      assert u.ccc(c) > MAX_RANKS;
    }
  }

  // The combining classes of the first `n` classes.
  ghost function FirstClasses(u: Ucd, classes: seq<seq<Cp>>, n: nat): (r: set<nat>)
    requires n <= |classes| && forall k :: 0 <= k < |classes| ==> classes[k] != []
    ensures forall v :: v in r <==> exists k :: 0 <= k < n && u.ccc(classes[k][0]) == v
  {
    set k | 0 <= k < n :: u.ccc(classes[k][0])
  }

  lemma {:induction false} FirstClassesCount(u: Ucd, classes: seq<seq<Cp>>, n: nat)
    requires ClassesAscend(u, classes) && n <= |classes|
    ensures forall k :: 0 <= k < |classes| ==> classes[k] != []
    ensures |FirstClasses(u, classes, n)| == n
  {
    hide ClassesAscend, FirstClasses;
    NoneEmpty(u, classes);
    if n > 0 {
      FirstClassesCount(u, classes, n - 1);
      OneMoreClass(u, classes, n);
    } else {
      assert FirstClasses(u, classes, 0) == {};
    }
  }

  lemma NoneEmpty(u: Ucd, classes: seq<seq<Cp>>)
    requires ClassesAscend(u, classes)
    ensures forall k :: 0 <= k < |classes| ==> classes[k] != []
  {
    hide PlainMark;
  }

  lemma OneMoreClass(u: Ucd, classes: seq<seq<Cp>>, n: nat)
    requires ClassesAscend(u, classes) && 0 < n <= |classes|
    ensures forall k :: 0 <= k < |classes| ==> classes[k] != []
    ensures var v := u.ccc(classes[n - 1][0]);
            && FirstClasses(u, classes, n) == FirstClasses(u, classes, n - 1) + {v}
            && v !in FirstClasses(u, classes, n - 1)
  {
    hide PlainMark;
    var all, front, v := FirstClasses(u, classes, n), FirstClasses(u, classes, n - 1), u.ccc(classes[n - 1][0]);
    forall w
      ensures w in all <==> w in front || w == v
    {
      if w in all {
        var k :| 0 <= k < n && u.ccc(classes[k][0]) == w;
        assert k == n - 1 || k < n - 1;
      }
    }
  }

  // A rank counts the combining classes up to its own.
  lemma RanksCount(u: Ucd, classes: seq<seq<Cp>>, ranks: map<Cp, nat>)
    requires ClassesAscend(u, classes) && RanksOf(classes, ranks)
    requires forall c :: c in ranks <==> IsScalar(c) && Plain(u, c) && u.ccc(c) != 0
    ensures |MarkClasses(u)| == |classes|
    ensures forall c :: c in ranks ==> ranks[c] == |ClassesUpTo(u, u.ccc(c))|
  {
    var all := FirstClasses(u, classes, |classes|);
    forall v
      ensures v in MarkClasses(u) <==> v in all
    {
      ClassValue(u, classes, ranks, v);
    }
    assert MarkClasses(u) == all;
    FirstClassesCount(u, classes, |classes|);
    forall c | c in ranks
      ensures ranks[c] == |ClassesUpTo(u, u.ccc(c))|
    {
      RankCounts(u, classes, ranks, c);
    }
  }

  lemma ClassValue(u: Ucd, classes: seq<seq<Cp>>, ranks: map<Cp, nat>, v: nat)
    requires ClassesAscend(u, classes) && RanksOf(classes, ranks)
    requires forall c :: c in ranks <==> IsScalar(c) && Plain(u, c) && u.ccc(c) != 0
    ensures v in MarkClasses(u) <==> v in FirstClasses(u, classes, |classes|)
  {
    if v in MarkClasses(u) {
      var c: Cp :| IsScalar(c) && u.full(c) == [c] && u.ccc(c) != 0 && u.ccc(c) == v;
      assert c in ranks;
      var k :| 0 <= k < |classes| && c in classes[k];
      assert u.ccc(classes[k][0]) == v;
    }
    if v in FirstClasses(u, classes, |classes|) {
      var k :| 0 <= k < |classes| && u.ccc(classes[k][0]) == v;
      var c := classes[k][0];
      assert c in classes[k] && c in ranks;
    }
  }

  lemma RankCounts(u: Ucd, classes: seq<seq<Cp>>, ranks: map<Cp, nat>, c: Cp)
    requires ClassesAscend(u, classes) && RanksOf(classes, ranks) && c in ranks
    requires MarkClasses(u) == FirstClasses(u, classes, |classes|)
    ensures ranks[c] == |ClassesUpTo(u, u.ccc(c))|
  {
    hide ClassesAscend, FirstClasses, ClassesUpTo;
    var k :| 0 <= k < |classes| && c in classes[k];
    RankIsPlace(u, classes, ranks, k, c);
    forall v
      ensures v in ClassesUpTo(u, u.ccc(c)) <==> v in FirstClasses(u, classes, k + 1)
    {
      UpToItsOwn(u, classes, k, v);
    }
    assert ClassesUpTo(u, u.ccc(c)) == FirstClasses(u, classes, k + 1);
    FirstClassesCount(u, classes, k + 1);
  }

  lemma RankIsPlace(u: Ucd, classes: seq<seq<Cp>>, ranks: map<Cp, nat>, k: nat, c: Cp)
    requires ClassesAscend(u, classes) && RanksOf(classes, ranks) && k < |classes| && c in classes[k]
    ensures (forall j :: 0 <= j < |classes| ==> classes[j] != []) && c in ranks && ranks[c] == k + 1
    ensures u.ccc(c) == u.ccc(classes[k][0])
  {
    hide PlainMark;
  }

  lemma UpToItsOwn(u: Ucd, classes: seq<seq<Cp>>, k: nat, v: nat)
    requires ClassesAscend(u, classes) && k < |classes| && MarkClasses(u) == FirstClasses(u, classes, |classes|)
    ensures v in ClassesUpTo(u, u.ccc(classes[k][0])) <==> v in FirstClasses(u, classes, k + 1)
  {
    hide PlainMark, MarkClasses;
    if v in ClassesUpTo(u, u.ccc(classes[k][0])) {
      var j :| 0 <= j < |classes| && u.ccc(classes[j][0]) == v;
      assert j <= k;
    }
    if v in FirstClasses(u, classes, k + 1) {
      var j :| 0 <= j < k + 1 && u.ccc(classes[j][0]) == v;
      assert v in FirstClasses(u, classes, |classes|);
    }
  }

  lemma ClassAtLeast(u: Ucd, classes: seq<seq<Cp>>, k: nat)
    requires ClassesAscend(u, classes) && k < |classes|
    ensures u.ccc(classes[k][0]) > k
  {
    var c := classes[k][0];
    assert c in classes[k] && PlainMark(u, c);
    if k > 0 {
      var below := k - 1;
      ClassAtLeast(u, classes, below);
      assert u.ccc(classes[below][0]) < u.ccc(classes[k][0]);
    }
  }

  // The tool's promise, end to end.
  method BuildSoundTable(u: Ucd, combining: set<Cp>) returns (r: Option<array<nat>>)
    requires ToolData(u)
    ensures r.Some? ==> r.value.Length == CODEPOINT_COUNT
    ensures r.Some? ==> forall s: Text {:trigger QuickCheckPasses(s, r.value[..])} ::
              IsText(s) && QuickCheckPasses(s, r.value[..]) ==> u.Nfc(s) == s
    ensures r.None? <==> |MarkClasses(u)| > MAX_RANKS
  {
    r := BuildNfcTable(u, combining);
    if r.Some? {
      forall s: Text | IsText(s) && QuickCheckPasses(s, r.value[..])
        ensures u.Nfc(s) == s
      {
        QuickCheckSound(u, combining, r.value[..], s);
      }
    }
  }
}
