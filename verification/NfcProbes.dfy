/** Reading facts about single characters out of batched normalizer probes.

  `singleton_scan` and `detect_nonstarters` send many characters through the normalizer at once and
  read the answers back by position. Both are proved to find what one probe per character would.
 */
module NfcProbes {
  import opened Normalizer
  import opened Wrappers

  const SPACE: Cp := 0x20
  const LETTER_A: Cp := 0x61
  const TILDE_OVERLAY: Cp := 0x334
  const YPOGEGRAMMENI: Cp := 0x345

  const SCAN_BATCH := 20000
  const PROBE_BATCH := 8000

  datatype Form = NFC | NFD

  function Normalize(u: Ucd, form: Form, s: Text): Text {
    match form case NFC => u.Nfc(s) case NFD => u.Nfd(s)
  }

  ghost predicate Plain(u: Ucd, c: Cp) { u.full(c) == [c] }

  // The characters the probes are built from (their roles are stated in the tool's own comments).
  ghost predicate ProbeLetters(u: Ucd) {
    && Plain(u, SPACE) && u.ccc(SPACE) == 0
    && (forall x: Cp {:trigger u.primary(SPACE, x)} :: u.primary(SPACE, x).None?)
    && (forall x: Cp {:trigger u.primary(x, SPACE)} :: u.primary(x, SPACE).None?)
    && Plain(u, LETTER_A) && u.ccc(LETTER_A) == 0
    && Plain(u, TILDE_OVERLAY) && u.ccc(TILDE_OVERLAY) == 1
    && Plain(u, YPOGEGRAMMENI) && u.ccc(YPOGEGRAMMENI) == 240
  }

  ghost predicate Ascends(codes: seq<Cp>) {
    forall i, j :: 0 <= i < j < |codes| ==> codes[i] < codes[j]
  }

  method AllCodepoints() returns (codes: seq<Cp>)
    ensures Ascends(codes)
    ensures forall c :: c in codes <==> IsScalar(c)
  {
    codes := [];
    var code := 0;
    while code < CODEPOINT_COUNT
      invariant 0 <= code <= CODEPOINT_COUNT
      invariant Ascends(codes) && forall i :: 0 <= i < |codes| ==> codes[i] < code
      invariant forall c :: c in codes <==> IsScalar(c) && c < code
    {
      if !(SURROGATE_START <= code < SURROGATE_STOP) {
        codes := codes + [code];
      }
      code := code + 1;
    }
  }

  // --- joining and splitting at the separator ---------------------------------

  // `" ".join(map(chr, block))`
  function Join(block: seq<Cp>): Text {
    if |block| <= 1 then block else Join(block[..|block| - 1]) + [SPACE, block[|block| - 1]]
  }

  // `text.split(" ")`
  function Split(s: Text): (r: seq<Text>)
    ensures r != []
  {
    if s == [] then [[]]
    else
      var r := Split(s[1..]);
      if s[0] == SPACE then [[]] + r else [[s[0]] + r[0]] + r[1..]
  }

  lemma SplitCons(c: Cp, s: Text)
    ensures Split([c] + s) == if c == SPACE then [[]] + Split(s) else [[c] + Split(s)[0]] + Split(s)[1..]
  {
    assert ([c] + s)[1..] == s;
  }

  lemma SplitAt(a: Text, b: Text)
    ensures Split(a + [SPACE] + b) == Split(a) + Split(b)
  {
    hide Split;
    if a == [] {
      assert a + [SPACE] + b == [SPACE] + b;
      SplitCons(SPACE, b);
      SplitNothing();
    } else {
      var c, rest := a[0], a[1..];
      var x, y := Split(rest), Split(b);
      SplitAt(rest, b);
      SplitCons(c, rest + [SPACE] + b);
      SplitCons(c, rest);
      assert a == [c] + rest && a + [SPACE] + b == [c] + (rest + [SPACE] + b);
      Regroup([c], x, y);
    }
  }

  lemma Regroup(h: Text, x: seq<Text>, y: seq<Text>)
    requires x != []
    ensures [h + (x + y)[0]] + (x + y)[1..] == [h + x[0]] + x[1..] + y
    ensures [[]] + (x + y) == [[]] + x + y
  {
    assert (x + y)[1..] == x[1..] + y;
  }

  lemma SplitNothing()
    ensures Split([]) == [[]]
  {
  }

  lemma SplitWhole(a: Text)
    ensures |Split(a)| == 1 ==> Split(a) == [a]
  {
    if a != [] {
      SplitWhole(a[1..]);
      assert a == [a[0]] + a[1..];
    }
  }

  // --- a space keeps its two sides apart --------------------------------------

  lemma OrderOntoBehind(u: Ucd, s: Cp, z: Text, b: Text)
    requires u.ccc(s) == 0
    ensures u.OrderOnto([s] + z, b) == [s] + u.OrderOnto(z, b)
  {
    if b != [] {
      OrderOntoBehind(u, s, z, b[..|b| - 1]);
      InsertBehind(u, s, u.OrderOnto(z, b[..|b| - 1]), b[|b| - 1]);
    }
  }

  lemma InsertBehind(u: Ucd, s: Cp, z: Text, c: Cp)
    requires u.ccc(s) == 0
    ensures u.Insert([s] + z, c) == [s] + u.Insert(z, c)
  {
    if z != [] {
      assert ([s] + z)[|z|] == z[|z| - 1];
      assert ([s] + z)[..|z|] == [s] + z[..|z| - 1];
      InsertBehind(u, s, z[..|z| - 1], c);
    }
  }

  lemma NfdAcrossSpace(u: Ucd, a: Text, b: Text)
    requires ProbeLetters(u)
    ensures u.Nfd(a + [SPACE] + b) == u.Nfd(a) + [SPACE] + u.Nfd(b)
  {
    hide Ucd.Insert, Ucd.OrderOnto, Ucd.Decompose;
    var db := u.Decompose(b);
    DecomposeAppend(u, a + [SPACE], b);
    DecomposeAppend(u, a, [SPACE]);
    DecomposeOne(u, SPACE);
    assert u.Decompose(a) + [SPACE] + db == u.Decompose(a) + ([SPACE] + db);
    OrderOntoAppend(u, [], u.Decompose(a), [SPACE] + db);
    OrderOntoStarter(u, u.Nfd(a), [SPACE] + db);
    OrderOntoAppend(u, [], [SPACE], db);
    OrderOntoOne(u, [], SPACE);
    assert u.Insert([], SPACE) == [SPACE] == [SPACE] + [] by { InsertStays(u, [], SPACE); }
    OrderOntoBehind(u, SPACE, [], db);
  }

  // Behind a space the machine runs as at the start of the text.
  ghost predicate AsAtStart(st: ComposeState, alone: ComposeState) {
    if alone.open == [] then st == ComposeState([], [SPACE] + alone.done)
    else st == ComposeState([SPACE] + alone.done, alone.open)
  }

  lemma RunBehindSpace(u: Ucd, x: Text)
    requires ProbeLetters(u)
    ensures AsAtStart(u.Run(ComposeState([], [SPACE]), x), u.Run(START, x))
  {
    if x == [] {
      assert [SPACE] + [] == [SPACE];
    } else {
      RunBehindSpace(u, x[..|x| - 1]);
      StepBehindSpace(u, u.Run(ComposeState([], [SPACE]), x[..|x| - 1]), u.Run(START, x[..|x| - 1]), x[|x| - 1]);
    }
  }

  lemma StepBehindSpace(u: Ucd, st: ComposeState, alone: ComposeState, c: Cp)
    requires ProbeLetters(u) && AsAtStart(st, alone)
    ensures AsAtStart(u.Step(st, c), u.Step(alone, c))
  {
    if alone.open == [] {
      assert [SPACE] + alone.done + [c] == [SPACE] + (alone.done + [c]);
      assert st.Flush() == [SPACE] + alone.done;
      assert alone.Flush() == alone.done;
    } else {
      assert [SPACE] + alone.done + alone.open == [SPACE] + (alone.done + alone.open);
    }
  }

  lemma NfcAcrossSpace(u: Ucd, a: Text, b: Text)
    requires ProbeLetters(u)
    ensures u.Nfc(a + [SPACE] + b) == u.Nfc(a) + [SPACE] + u.Nfc(b)
  {
    hide Ucd.Run, Ucd.Nfd;
    NfdAcrossSpace(u, a, b);
    var st := u.Run(START, u.Nfd(a));
    RunAppend(u, START, u.Nfd(a) + [SPACE], u.Nfd(b));
    RunSnoc(u, START, u.Nfd(a), SPACE);
    var sp := ComposeState([], [SPACE]);
    if st.open != [] {
      var k := st.open[0];
      assert u.primary(k, SPACE).None?;
    }
    assert u.Step(st, SPACE) == ComposeState(st.Flush() + [], [SPACE]) by { assert st.Flush() + [] == st.Flush(); }
    RunPrefix(u, st.Flush(), sp, u.Nfd(b));
    RunBehindSpace(u, u.Nfd(b));
    var r, alone := u.Run(sp, u.Nfd(b)), u.Run(START, u.Nfd(b));
    assert r.Flush() == [SPACE] + alone.Flush();
    assert (st.Flush() + r.done) + r.open == st.Flush() + (r.done + r.open);
    assert st.Flush() + [SPACE] + alone.Flush() == st.Flush() + ([SPACE] + alone.Flush());
  }

  lemma NormalizeAcrossSpace(u: Ucd, form: Form, a: Text, b: Text)
    requires ProbeLetters(u)
    ensures Normalize(u, form, a + [SPACE] + b) == Normalize(u, form, a) + [SPACE] + Normalize(u, form, b)
  {
    match form
    case NFC => NfcAcrossSpace(u, a, b);
    case NFD => NfdAcrossSpace(u, a, b);
  }

  // The pieces of one batch: at least one for each character, and exactly one for each only when
  // no answer holds a separator; then the pieces are the answers.
  lemma BatchPieces(u: Ucd, form: Form, block: seq<Cp>)
    requires ProbeLetters(u) && block != []
    ensures var pieces := Split(Normalize(u, form, Join(block)));
            && |pieces| >= |block|
            && (|pieces| == |block| ==> forall i :: 0 <= i < |block| ==> pieces[i] == Normalize(u, form, [block[i]]))
  {
    hide Normalize, Split;
    var n := |block| - 1;
    var answer := Normalize(u, form, [block[n]]);
    SplitWhole(answer);
    if n == 0 {
      assert Join(block) == block == [block[0]];
    } else {
      var front := block[..n];
      BatchPieces(u, form, front);
      assert Join(block) == Join(front) + [SPACE] + [block[n]];
      NormalizeAcrossSpace(u, form, Join(front), [block[n]]);
      SplitAt(Normalize(u, form, Join(front)), answer);
      assert forall i :: 0 <= i < n ==> front[i] == block[i];
    }
  }

  // --- singleton_scan ---------------------------------------------------------

  // `changed` holds exactly the characters of `codes` that the form changes, with their images.
  ghost predicate ChangedAmong(u: Ucd, form: Form, codes: seq<Cp>, changed: map<Cp, Text>) {
    && (forall c :: c in changed <==> c in codes && Normalize(u, form, [c]) != [c])
    && (forall c :: c in changed ==> changed[c] == Normalize(u, form, [c]))
  }

  lemma NoneChanged(u: Ucd, form: Form)
    ensures ChangedAmong(u, form, [], map[])
  {
  }

  lemma OneMoreChanged(u: Ucd, form: Form, codes: seq<Cp>, changed: map<Cp, Text>, c: Cp)
    requires ChangedAmong(u, form, codes, changed)
    ensures var answer := Normalize(u, form, [c]);
            ChangedAmong(u, form, codes + [c], if answer != [c] then changed[c := answer] else changed)
  {
    hide Normalize;
  }

  method ScanBatch(u: Ucd, form: Form, block: seq<Cp>) returns (changed: map<Cp, Text>)
    requires ProbeLetters(u) && block != []
    ensures ChangedAmong(u, form, block, changed)
  {
    hide Normalize, ChangedAmong, Split, Join;
    changed := map[];
    NoneChanged(u, form);
    var pieces := Split(Normalize(u, form, Join(block)));
    if |pieces| == |block| {
      BatchPieces(u, form, block);
      for i := 0 to |block|
        invariant ChangedAmong(u, form, block[..i], changed)
      {
        assert block[..i + 1] == block[..i] + [block[i]];
        OneMoreChanged(u, form, block[..i], changed, block[i]);
        if pieces[i] != [block[i]] {
          changed := changed[block[i] := pieces[i]];
        }
      }
    } else {
      for i := 0 to |block|
        invariant ChangedAmong(u, form, block[..i], changed)
      {
        assert block[..i + 1] == block[..i] + [block[i]];
        OneMoreChanged(u, form, block[..i], changed, block[i]);
        var piece := Normalize(u, form, [block[i]]);
        if piece != [block[i]] {
          changed := changed[block[i] := piece];
        }
      }
    }
    assert block[..|block|] == block;
  }

  method SingletonScan(u: Ucd, form: Form) returns (changed: map<Cp, Text>)
    requires ProbeLetters(u)
    ensures forall c :: c in changed <==> IsScalar(c) && Normalize(u, form, [c]) != [c]
    ensures forall c :: c in changed ==> changed[c] == Normalize(u, form, [c])
  {
    var all := AllCodepoints();
    var codes := Without(all, SPACE);
    changed := map[];
    var start := 0;
    while start < |codes|
      invariant 0 <= start <= |codes|
      invariant ChangedAmong(u, form, codes[..start], changed)
    {
      var stop := if start + SCAN_BATCH < |codes| then start + SCAN_BATCH else |codes|;
      var found := ScanBatch(u, form, codes[start..stop]);
      assert codes[..stop] == codes[..start] + codes[start..stop];
      changed := changed + found;
      start := stop;
    }
    assert codes[..|codes|] == codes;
    var piece := Normalize(u, form, [SPACE]);
    if piece != [SPACE] {
      changed := changed[SPACE := piece];
    }
  }

  function Without(codes: seq<Cp>, x: Cp): (r: seq<Cp>)
    ensures forall c :: c in r <==> c in codes && c != x
  {
    if codes == [] then []
    else if codes[0] == x then Without(codes[1..], x)
    else [codes[0]] + Without(codes[1..], x)
  }

  // --- detect_nonstarters -----------------------------------------------------

  datatype Probe = ProbeA | ProbeB

  // A letter, the candidate, and a mark of class 1 behind it or of class 240 in front of it.
  function Triple(p: Probe, c: Cp): Text {
    match p
    case ProbeA => [LETTER_A, c, TILDE_OVERLAY]
    case ProbeB => [LETTER_A, YPOGEGRAMMENI, c]
  }

  function Triples(p: Probe, block: seq<Cp>): Text {
    if block == [] then [] else Triples(p, block[..|block| - 1]) + Triple(p, block[|block| - 1])
  }

  lemma OrderPair(u: Ucd, a: Cp, x: Cp, y: Cp)
    requires u.Valid() && Plain(u, a) && Plain(u, x) && Plain(u, y) && u.ccc(a) == 0
    ensures u.Nfd([a, x, y]) == if u.ccc(x) > u.ccc(y) > 0 then [a, y, x] else [a, x, y]
  {
    hide Ucd.Insert, Ucd.OrderOnto, Ucd.Decompose;
    assert [a, x, y] == [a, x] + [y];
    DecomposeMarks(u, [a, x, y]);
    OrderOntoAppend(u, [], [a, x], [y]);
    assert [] + [a, x] == [a, x];
    OrderedFixed(u, [], [a, x]);
    OrderOntoOne(u, [a, x], y);
    if u.ccc(x) > u.ccc(y) > 0 {
      assert [a] + [x] == [a, x];
      InsertBefore(u, [a], x, y);
      InsertStays(u, [a], y);
      assert [a] + [y] + [x] == [a, y, x];
    } else {
      InsertStays(u, [a, x], y);
    }
  }

  // The text and its image, read three characters at a time.
  ghost predicate ByThrees(u: Ucd, p: Probe, block: seq<Cp>, text: Text, image: Text) {
    && |text| == |image| == 3 * |block|
    && forall i :: 0 <= i < |block| ==>
         text[3 * i..3 * i + 3] == Triple(p, block[i]) && image[3 * i..3 * i + 3] == u.Nfd(Triple(p, block[i]))
  }

  lemma ByThreesSnoc(u: Ucd, p: Probe, block: seq<Cp>, text: Text, image: Text, c: Cp)
    requires ByThrees(u, p, block, text, image) && |Triple(p, c)| == |u.Nfd(Triple(p, c))| == 3
    ensures ByThrees(u, p, block + [c], text + Triple(p, c), image + u.Nfd(Triple(p, c)))
  {
    hide Ucd.Nfd, Triple;
    ThreesSnoc(text, Triple(p, c), |block|);
    ThreesSnoc(image, u.Nfd(Triple(p, c)), |block|);
  }

  // Each triple starts with a starter, so the batch is normalized triple by triple.
  lemma TripleBatch(u: Ucd, p: Probe, block: seq<Cp>)
    requires u.Valid() && ProbeLetters(u)
    requires forall i :: 0 <= i < |block| ==> Plain(u, block[i])
    ensures ByThrees(u, p, block, Triples(p, block), u.Nfd(Triples(p, block)))
  {
    hide Ucd.Nfd, Ucd.Valid, ProbeLetters, Triple, Plain, ByThrees;
    if block == [] {
      NfdEmpty(u);
      NoThrees(u, p);
    } else {
      var n := |block| - 1;
      var front := block[..n];
      assert block == front + [block[n]];
      TripleBatch(u, p, front);
      TripleImage(u, p, block[n]);
      NfdTriplesSnoc(u, p, Triples(p, front), block[n]);
      ByThreesSnoc(u, p, front, Triples(p, front), u.Nfd(Triples(p, front)), block[n]);
    }
  }

  lemma NoThrees(u: Ucd, p: Probe)
    ensures ByThrees(u, p, [], [], [])
  {
  }

  lemma ThreesSnoc(a: Text, t: Text, n: nat)
    requires |a| == 3 * n && |t| == 3
    ensures (a + t)[3 * n..3 * n + 3] == t
    ensures forall i :: 0 <= i < n ==> (a + t)[3 * i..3 * i + 3] == a[3 * i..3 * i + 3]
  {
  }

  lemma NfdTriplesSnoc(u: Ucd, p: Probe, a: Text, c: Cp)
    requires u.Valid() && ProbeLetters(u) && Plain(u, c)
    ensures u.Nfd(a + Triple(p, c)) == u.Nfd(a) + u.Nfd(Triple(p, c))
  {
    hide Ucd.Insert, Ucd.OrderOnto, Ucd.Decompose;
    var t := Triple(p, c);
    DecomposeAppend(u, a, t);
    DecomposeMarks(u, t);
    OrderOntoAppend(u, [], u.Decompose(a), t);
    OrderOntoStarter(u, u.Nfd(a), t);
  }

  lemma NfdEmpty(u: Ucd)
    ensures u.Nfd([]) == []
  {
  }

  lemma TripleImage(u: Ucd, p: Probe, c: Cp)
    requires u.Valid() && ProbeLetters(u) && Plain(u, c)
    ensures |Triple(p, c)| == |u.Nfd(Triple(p, c))| == 3
    ensures p == ProbeA ==> (u.Nfd(Triple(p, c)) != Triple(p, c) <==> u.ccc(c) > 1)
    ensures p == ProbeB ==> (u.Nfd(Triple(p, c)) != Triple(p, c) <==> 0 < u.ccc(c) < 240)
  {
    hide Ucd.Nfd;
    match p
    case ProbeA => OrderPair(u, LETTER_A, c, TILDE_OVERLAY);
    case ProbeB => OrderPair(u, LETTER_A, YPOGEGRAMMENI, c);
  }

  predicate TripleChanged(u: Ucd, p: Probe, c: Cp) { u.Nfd(Triple(p, c)) != Triple(p, c) }

  ghost predicate AllPlain(u: Ucd, codes: seq<Cp>) { forall i :: 0 <= i < |codes| ==> Plain(u, codes[i]) }

  ghost predicate FoundAmong(u: Ucd, p: Probe, codes: seq<Cp>, found: set<Cp>) {
    forall c :: c in found <==> c in codes && TripleChanged(u, p, c)
  }

  lemma NoneFound(u: Ucd, p: Probe)
    ensures FoundAmong(u, p, [], {})
  {
  }

  lemma OneFound(u: Ucd, p: Probe, codes: seq<Cp>, c: Cp, found: set<Cp>)
    ensures FoundAmong(u, p, codes, found) ==>
              FoundAmong(u, p, codes + [c], if TripleChanged(u, p, c) then found + {c} else found)
  {
    hide TripleChanged;
  }

  // The lengths are kept, and a triple differs exactly when its character changes it.
  lemma PlainBatch(u: Ucd, p: Probe, block: seq<Cp>)
    requires u.Valid() && ProbeLetters(u) && AllPlain(u, block)
    ensures var text := Triples(p, block);
            && |u.Nfd(text)| == |text| == 3 * |block|
            && forall i :: 0 <= i < |block| ==>
                 (u.Nfd(text)[3 * i..3 * i + 3] != text[3 * i..3 * i + 3] <==> TripleChanged(u, p, block[i]))
  {
    hide Ucd.Nfd, Ucd.Valid, ProbeLetters, Triple, Plain;
    TripleBatch(u, p, block);
  }

  // One batch; `None` is the tool's refusal of a probe whose length changed.
  method DetectBatch(u: Ucd, p: Probe, block: seq<Cp>) returns (r: Option<set<Cp>>)
    requires u.Valid() && ProbeLetters(u)
    ensures AllPlain(u, block) ==> r.Some? && FoundAmong(u, p, block, r.value)
  {
    hide Ucd.Nfd, Ucd.Valid, ProbeLetters, Triple, Plain, FoundAmong, AllPlain, TripleChanged, Triples, ByThrees;
    var found: set<Cp> := {};
    var text := Triples(p, block);
    var result := u.Nfd(text);
    if AllPlain(u, block) {
      PlainBatch(u, p, block);
    }
    NoneFound(u, p);
    assert block[..0] == [];
    if |result| != |text| || |text| != 3 * |block| {
      return None;
    }
    for offset := 0 to |block|
      invariant AllPlain(u, block) ==> FoundAmong(u, p, block[..offset], found)
    {
      assert block[..offset + 1] == block[..offset] + [block[offset]];
      OneFound(u, p, block[..offset], block[offset], found);
      if result[3 * offset..3 * offset + 3] != text[3 * offset..3 * offset + 3] {
        found := found + {block[offset]};
      }
    }
    assert block[..|block|] == block;
    r := Some(found);
  }

  // The combining classes a probe kind tells from zero.
  predicate InRange(p: Probe, ccc: nat) { if p == ProbeA then ccc > 1 else 0 < ccc < 240 }

  method DetectPass(u: Ucd, p: Probe, candidates: seq<Cp>) returns (r: Option<set<Cp>>)
    requires u.Valid() && ProbeLetters(u)
    ensures AllPlain(u, candidates) ==> r.Some? && forall c :: c in r.value <==> c in candidates && InRange(p, u.ccc(c))
  {
    hide Ucd.Nfd, Ucd.Valid, ProbeLetters, TripleChanged, Plain;
    var found: set<Cp> := {};
    var start := 0;
    while start < |candidates|
      invariant 0 <= start <= |candidates|
      invariant AllPlain(u, candidates) ==> FoundAmong(u, p, candidates[..start], found)
    {
      var stop := if start + PROBE_BATCH < |candidates| then start + PROBE_BATCH else |candidates|;
      var block := DetectBatch(u, p, candidates[start..stop]);
      if block.None? {
        return None;
      }
      found := found + block.value;
      assert candidates[..stop] == candidates[..start] + candidates[start..stop];
      start := stop;
    }
    assert candidates[..|candidates|] == candidates;
    if AllPlain(u, candidates) {
      forall c | c in candidates ensures TripleChanged(u, p, c) <==> InRange(p, u.ccc(c)) { ChangedInRange(u, p, c); }
    }
    r := Some(found);
  }

  lemma ChangedInRange(u: Ucd, p: Probe, c: Cp)
    requires u.Valid() && ProbeLetters(u) && Plain(u, c)
    ensures TripleChanged(u, p, c) <==> InRange(p, u.ccc(c))
  {
    hide Ucd.Nfd, Triple;
    TripleImage(u, p, c);
  }

  method DetectNonstarters(u: Ucd, candidates: seq<Cp>) returns (r: Option<set<Cp>>)
    requires u.Valid() && ProbeLetters(u)
    ensures AllPlain(u, candidates) ==>
              r.Some? && forall c :: c in r.value <==> c in candidates && u.ccc(c) != 0
  {
    var a := DetectPass(u, ProbeA, candidates);
    if a.None? { return None; }
    var b := DetectPass(u, ProbeB, candidates);
    if b.None? { return None; }
    r := Some(a.value + b.value);
  }
}
