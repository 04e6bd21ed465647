/** Finding second elements by bisection and ordering marks by comparison probes. */
module NfcScan {
  import opened Normalizer
  import opened NormalForm
  import opened StablePairs
  import opened NfcProbes

  const CANDIDATE_BATCH := 4096

  // --- second elements --------------------------------------------------------

  // The candidates that NFC does not leave alone behind `first`, in the order they are tried.
  function Composing(u: Ucd, first: Cp, seconds: seq<Cp>): (hits: seq<Cp>)
    ensures forall c :: c in hits <==> c in seconds && u.Nfc([first, c]) != [first, c]
  {
    if seconds == [] then []
    else
      (if u.Nfc([first, seconds[0]]) != [first, seconds[0]] then [seconds[0]] else [])
      + Composing(u, first, seconds[1..])
  }

  lemma ComposingAppend(u: Ucd, first: Cp, a: seq<Cp>, b: seq<Cp>)
    ensures Composing(u, first, a + b) == Composing(u, first, a) + Composing(u, first, b)
  {
    hide Ucd.Nfc;
    if a == [] {
      assert a + b == b;
    } else {
      assert (a + b)[1..] == a[1..] + b;
      ComposingAppend(u, first, a[1..], b);
    }
  }

  lemma ComposingOne(u: Ucd, first: Cp, second: Cp)
    ensures Composing(u, first, [second]) == if u.Nfc([first, second]) != [first, second] then [second] else []
  {
    assert [second][1..] == [];
  }

  // `first + first.join(seconds)`
  function Interleave(first: Cp, seconds: seq<Cp>): Text {
    if |seconds| <= 1 then [first] + seconds
    else Interleave(first, seconds[..|seconds| - 1]) + [first, seconds[|seconds| - 1]]
  }

  lemma PairInProbe(first: Cp, seconds: seq<Cp>, i: nat)
    requires i < |seconds|
    ensures |Interleave(first, seconds)| == 2 * |seconds|
    ensures Interleave(first, seconds)[2 * i..2 * i + 2] == [first, seconds[i]]
  {
    var n := |seconds| - 1;
    if n == 0 {
      assert [first] + seconds == [first, seconds[0]];
    } else {
      PairInProbe(first, seconds[..n], if i < n then i else 0);
    }
  }

  lemma ProbeAt(first: Cp, seconds: seq<Cp>, i: nat)
    requires i < |seconds|
    ensures |Interleave(first, seconds)| == 2 * |seconds|
    ensures Interleave(first, seconds)[2 * i] == first && Interleave(first, seconds)[2 * i + 1] == seconds[i]
  {
    hide Interleave;
    PairInProbe(first, seconds, i);
    var s := Interleave(first, seconds);
    assert s[2 * i] == s[2 * i..2 * i + 2][0] && s[2 * i + 1] == s[2 * i..2 * i + 2][1];
  }

  // Halved down to one candidate, a probe is the pair itself: the test of the pair that follows asks
  // the same question again, and cannot fail.
  lemma LoneProbe(first: Cp, second: Cp)
    ensures Interleave(first, [second]) == [first, second]
  {
    assert [first] + [second] == [first, second];
  }

  // Every candidate but the last stands still before the next copy of the first element.
  ghost predicate StandsBefore(u: Ucd, first: Cp, seconds: seq<Cp>) {
    forall i :: 0 <= i < |seconds| - 1 ==> PairStable(u, seconds[i], first)
  }

  // A probe that comes back unchanged clears every candidate in it.
  lemma ProbeClears(u: Ucd, first: Cp, seconds: seq<Cp>)
    requires u.Valid() && seconds != [] && Stable(u, Interleave(first, seconds))
    ensures Composing(u, first, seconds) == [] && StandsBefore(u, first, seconds)
  {
    hide Ucd.Valid, Ucd.Nfc, Interleave;
    var s := Interleave(first, seconds);
    if Composing(u, first, seconds) != [] {
      var c := Composing(u, first, seconds)[0];
      assert c in seconds;
      var i :| 0 <= i < |seconds| && seconds[i] == c;
      PairInProbe(first, seconds, i);
      SubstringStable(u, s, 2 * i, 2 * i + 2);
      assert false;
    }
    forall i | 0 <= i < |seconds| - 1
      ensures PairStable(u, seconds[i], first)
    {
      SecondBeforeFirst(u, first, seconds, i);
    }
  }

  lemma SecondBeforeFirst(u: Ucd, first: Cp, seconds: seq<Cp>, i: nat)
    requires u.Valid() && Stable(u, Interleave(first, seconds)) && i < |seconds| - 1
    ensures PairStable(u, seconds[i], first)
  {
    hide Ucd.Valid, Ucd.Nfc, Interleave;
    var s := Interleave(first, seconds);
    ProbeAt(first, seconds, i);
    ProbeAt(first, seconds, i + 1);
    assert s[2 * i + 1..2 * i + 3] == [seconds[i], first];
    SubstringStable(u, s, 2 * i + 1, 2 * i + 3);
  }

  // Which two characters of a probe are not blocked from one another: neighbours alone.
  lemma ProbeNeighbours(u: Ucd, first: Cp, seconds: seq<Cp>, i: nat, j: nat)
    requires u.ccc(first) == 0 && seconds != [] && Unblocked(u, Interleave(first, seconds), i, j)
    ensures j == i + 1
  {
    hide Interleave;
    var s := Interleave(first, seconds);
    ProbeAt(first, seconds, 0);
    ProbeAt(first, seconds, i / 2);
    ProbeAt(first, seconds, j / 2);
    ProbeAt(first, seconds, (i + 1) / 2);
    ProbeAt(first, seconds, if i + 2 < j then (i + 2) / 2 else 0);
  }

  lemma ClearedProbe(u: Ucd, first: Cp, seconds: seq<Cp>)
    requires u.Valid() && u.ccc(first) == 0 && seconds != []
    requires Composing(u, first, seconds) == [] && StandsBefore(u, first, seconds)
    ensures Stable(u, Interleave(first, seconds))
  {
    hide Ucd.Valid, Ucd.Nfc, Interleave, Composing;
    var s := Interleave(first, seconds);
    ProbeAt(first, seconds, 0);
    forall k | 0 <= k < |seconds|
      ensures s[2 * k] == first && s[2 * k + 1] == seconds[k] && Stable(u, [first, seconds[k]])
    {
      ProbeAt(first, seconds, k);
      assert seconds[k] in seconds && seconds[k] !in Composing(u, first, seconds);
    }
    forall i | 0 <= i < |s|
      ensures Stable(u, [s[i]])
    {
      var k := i / 2;
      assert [first, seconds[k]][i - 2 * k..i - 2 * k + 1] == [s[i]];
      SubstringStable(u, [first, seconds[k]], i - 2 * k, i - 2 * k + 1);
    }
    forall i, j | Unblocked(u, s, i, j)
      ensures PairStable(u, s[i], s[j])
    {
      ProbeNeighbours(u, first, seconds, i, j);
      var k := i / 2;
      if i == 2 * k {
        assert s[j] == seconds[k];
      } else {
        assert j == 2 * (k + 1) && k < |seconds| - 1;
        assert PairStable(u, seconds[k], first);
      }
    }
    assert u.Ordered(s) by { ProbeOrdered(u, first, seconds); }
    Characterization(u, s);
  }

  lemma ProbeOrdered(u: Ucd, first: Cp, seconds: seq<Cp>)
    requires u.ccc(first) == 0 && seconds != []
    ensures u.Ordered(Interleave(first, seconds))
  {
    hide Interleave;
    var s := Interleave(first, seconds);
    ProbeAt(first, seconds, 0);
    forall i, j | 0 <= i < |s| && j == i + 1 < |s|
      ensures u.ccc(s[j]) == 0 || u.ccc(s[i]) <= u.ccc(s[j])
    {
      ProbeAt(first, seconds, i / 2);
      ProbeAt(first, seconds, j / 2);
    }
  }

  // Exactly when a probe comes back unchanged. A candidate that composes with the next copy of the
  // first element changes it too (`NfcProbeExample`), which is why a changed batch is halved.
  lemma UnchangedProbe(u: Ucd, first: Cp, seconds: seq<Cp>)
    requires u.Valid() && u.ccc(first) == 0 && seconds != []
    ensures Stable(u, Interleave(first, seconds)) <==>
              Composing(u, first, seconds) == [] && StandsBefore(u, first, seconds)
  {
    hide Ucd.Valid, Ucd.Nfc, Interleave, Composing, StandsBefore;
    if Stable(u, Interleave(first, seconds)) {
      ProbeClears(u, first, seconds);
    } else if Composing(u, first, seconds) == [] && StandsBefore(u, first, seconds) {
      ClearedProbe(u, first, seconds);
    }
  }

  method ScanRecursive(u: Ucd, first: Cp, seconds: seq<Cp>, hits: seq<Cp>) returns (grown: seq<Cp>)
    requires u.Valid() && seconds != []
    ensures grown == hits + Composing(u, first, seconds)
    decreases |seconds|
  {
    hide Ucd.Valid, Ucd.Nfc, Composing, Interleave;
    grown := hits;
    var probe := Interleave(first, seconds);
    if u.Nfc(probe) == probe {
      ProbeClears(u, first, seconds);
      return;
    }
    if |seconds| == 1 {
      assert seconds == [seconds[0]];
      ComposingOne(u, first, seconds[0]);
      LoneProbe(first, seconds[0]);
      var pair := [first, seconds[0]];
      if u.Nfc(pair) != pair {
        grown := grown + [seconds[0]];
      } else {
        assert false;
      }
      return;
    }
    var middle := |seconds| / 2;
    grown := ScanRecursive(u, first, seconds[..middle], grown);
    grown := ScanRecursive(u, first, seconds[middle..], grown);
    ComposingAppend(u, first, seconds[..middle], seconds[middle..]);
    assert seconds == seconds[..middle] + seconds[middle..];
  }

  method ScanFirst(u: Ucd, first: Cp, candidates: seq<Cp>) returns (hits: seq<Cp>)
    requires u.Valid()
    ensures hits == Composing(u, first, candidates)
  {
    hide Ucd.Valid, Ucd.Nfc;
    hits := [];
    var start := 0;
    while start < |candidates|
      invariant 0 <= start <= |candidates|
      invariant hits == Composing(u, first, candidates[..start])
    {
      var stop := if start + CANDIDATE_BATCH < |candidates| then start + CANDIDATE_BATCH else |candidates|;
      hits := ScanRecursive(u, first, candidates[start..stop], hits);
      ComposingAppend(u, first, candidates[..start], candidates[start..stop]);
      assert candidates[..stop] == candidates[..start] + candidates[start..stop];
      start := stop;
    }
    assert candidates[..|candidates|] == candidates;
  }

  // All second elements over all first elements. The workers finish in any order; a set does not tell.
  method SecondElementScan(u: Ucd, firsts: seq<Cp>, unsafe: set<Cp>) returns (seconds: set<Cp>)
    requires u.Valid()
    ensures forall c :: c in seconds <==>
              IsScalar(c) && c !in unsafe && exists f :: f in firsts && !PairStable(u, f, c)
  {
    hide Ucd.Valid, Ucd.Nfc, PairStable, Composing, Ascends;
    var all := AllCodepoints();
    var candidates := NotIn(all, unsafe);
    seconds := {};
    for k := 0 to |firsts|
      invariant forall c :: c in seconds <==> c in candidates && exists f :: f in firsts[..k] && !PairStable(u, f, c)
    {
      var hits := ScanFirst(u, firsts[k], candidates);
      ComposingMeans(u, firsts[k], candidates);
      assert firsts[..k + 1] == firsts[..k] + [firsts[k]];
      seconds := seconds + set c | c in hits;
    }
    assert firsts[..|firsts|] == firsts;
  }

  lemma ComposingMeans(u: Ucd, first: Cp, candidates: seq<Cp>)
    ensures forall c :: c in Composing(u, first, candidates) <==> c in candidates && !PairStable(u, first, c)
  {
    hide Ucd.Nfc, Composing;
  }

  function NotIn(codes: seq<Cp>, unsafe: set<Cp>): (r: seq<Cp>)
    ensures forall c :: c in r <==> c in codes && c !in unsafe
  {
    if codes == [] then []
    else if codes[0] in unsafe then NotIn(codes[1..], unsafe)
    else [codes[0]] + NotIn(codes[1..], unsafe)
  }

  // --- rank_nonstarters -------------------------------------------------------

  ghost predicate PlainMark(u: Ucd, c: Cp) { Plain(u, c) && u.ccc(c) != 0 }

  function ComparisonProbe(left: Cp, right: Cp): Text { [LETTER_A, left, right] }

  // Every remembered answer is the one the normalizer gives.
  ghost predicate CacheAgrees(u: Ucd, cache: map<(Cp, Cp), bool>) {
    forall k :: k in cache ==> cache[k] == (u.Nfd(ComparisonProbe(k.0, k.1)) != ComparisonProbe(k.0, k.1))
  }

  method Greater(u: Ucd, cache: map<(Cp, Cp), bool>, left: Cp, right: Cp)
    returns (answer: bool, grown: map<(Cp, Cp), bool>)
    requires u.Valid() && ProbeLetters(u) && CacheAgrees(u, cache)
    requires PlainMark(u, left) && PlainMark(u, right)
    ensures answer == (u.ccc(left) > u.ccc(right))
    ensures CacheAgrees(u, grown)
  {
    hide Ucd.Nfd;
    grown := cache;
    if (left, right) !in cache {
      var probe := ComparisonProbe(left, right);
      grown := grown[(left, right) := u.Nfd(probe) != probe];
    }
    answer := grown[(left, right)];
    OrderPair(u, LETTER_A, left, right);
  }

  // Classes of marks: each holds marks of one combining class, and the classes ascend.
  ghost predicate ClassesAscend(u: Ucd, classes: seq<seq<Cp>>) {
    && (forall k :: 0 <= k < |classes| ==> classes[k] != [])
    && (forall k :: 0 <= k < |classes| ==> forall c :: c in classes[k] ==>
       PlainMark(u, c) && u.ccc(c) == u.ccc(classes[k][0]))
    && (forall k, l :: 0 <= k < l < |classes| ==> u.ccc(classes[k][0]) < u.ccc(classes[l][0]))
  }

  ghost predicate InClasses(classes: seq<seq<Cp>>, c: Cp) {
    exists k :: 0 <= k < |classes| && c in classes[k]
  }

  lemma JoinClass(u: Ucd, classes: seq<seq<Cp>>, at: nat, c: Cp)
    requires ClassesAscend(u, classes) && at < |classes| && PlainMark(u, c) && u.ccc(c) == u.ccc(classes[at][0])
    ensures var r := classes[at := classes[at] + [c]];
            ClassesAscend(u, r) && forall x :: InClasses(r, x) <==> InClasses(classes, x) || x == c
  {
    hide PlainMark;
    var r := classes[at := classes[at] + [c]];
    forall x
      ensures InClasses(r, x) <==> InClasses(classes, x) || x == c
    {
      if InClasses(classes, x) {
        var k :| 0 <= k < |classes| && x in classes[k];
        assert x in r[k];
      }
      assert c in r[at];
    }
  }

  lemma NewClassAscends(u: Ucd, classes: seq<seq<Cp>>, at: nat, c: Cp)
    requires ClassesAscend(u, classes) && at <= |classes| && PlainMark(u, c)
    requires forall k :: 0 <= k < at ==> u.ccc(classes[k][0]) < u.ccc(c)
    requires forall k :: at <= k < |classes| ==> u.ccc(c) < u.ccc(classes[k][0])
    ensures ClassesAscend(u, classes[..at] + [[c]] + classes[at..])
  {
    hide PlainMark;
    var r := classes[..at] + [[c]] + classes[at..];
    assert forall k :: 0 <= k < at ==> r[k] == classes[k];
    assert r[at] == [c];
    assert forall k :: at < k < |r| ==> r[k] == classes[k - 1];
  }

  lemma NewClass(u: Ucd, classes: seq<seq<Cp>>, at: nat, c: Cp)
    requires ClassesAscend(u, classes) && at <= |classes| && PlainMark(u, c)
    requires forall k :: 0 <= k < at ==> u.ccc(classes[k][0]) < u.ccc(c)
    requires forall k :: at <= k < |classes| ==> u.ccc(c) < u.ccc(classes[k][0])
    ensures var r := classes[..at] + [[c]] + classes[at..];
            ClassesAscend(u, r) && forall x :: InClasses(r, x) <==> InClasses(classes, x) || x == c
  {
    hide PlainMark;
    var r := classes[..at] + [[c]] + classes[at..];
    NewClassAscends(u, classes, at, c);
    forall x
      ensures InClasses(r, x) <==> InClasses(classes, x) || x == c
    {
      if InClasses(classes, x) {
        var k :| 0 <= k < |classes| && x in classes[k];
        assert r[if k < at then k else k + 1] == classes[k];
      }
      assert c in r[at];
    }
  }

  // One insertion: binary search for the class of `code`, or for the place of a new one.
  method Place(u: Ucd, classes: seq<seq<Cp>>, cache: map<(Cp, Cp), bool>, code: Cp)
    returns (r: seq<seq<Cp>>, grown: map<(Cp, Cp), bool>)
    requires u.Valid() && ProbeLetters(u) && CacheAgrees(u, cache) && PlainMark(u, code) && ClassesAscend(u, classes)
    ensures ClassesAscend(u, r) && forall x :: InClasses(r, x) <==> InClasses(classes, x) || x == code
    ensures CacheAgrees(u, grown)
  {
    hide Ucd.Nfd, Ucd.Valid, ProbeLetters, CacheAgrees, InClasses;
    grown := cache;
    var low, high := 0, |classes|;
    while low < high
      invariant 0 <= low <= high <= |classes| && CacheAgrees(u, grown)
      invariant forall k :: 0 <= k < low ==> u.ccc(classes[k][0]) < u.ccc(code)
      invariant forall k :: high <= k < |classes| ==> u.ccc(code) < u.ccc(classes[k][0])
    {
      var middle := (low + high) / 2;
      var representative := classes[middle][0];
      assert representative in classes[middle];
      var above, below;
      above, grown := Greater(u, grown, code, representative);
      if above {
        low := middle + 1;
      } else {
        below, grown := Greater(u, grown, representative, code);
        if below {
          high := middle;
        } else {
          JoinClass(u, classes, middle, code);
          r := classes[middle := classes[middle] + [code]];
          return;
        }
      }
    }
    NewClass(u, classes, low, code);
    r := classes[..low] + [[code]] + classes[low..];
  }

  ghost predicate RanksOf(classes: seq<seq<Cp>>, ranks: map<Cp, nat>) {
    && (forall c :: c in ranks <==> InClasses(classes, c))
    && (forall k, c :: 0 <= k < |classes| && c in classes[k] ==> c in ranks && ranks[c] == k + 1)
  }

  ghost predicate HasRank(ranks: map<Cp, nat>, r: int) { exists c :: c in ranks && ranks[c] == r }

  method RankNonstarters(u: Ucd, nonstarters: seq<Cp>) returns (ranks: map<Cp, nat>, classes: seq<seq<Cp>>)
    requires u.Valid() && ProbeLetters(u)
    requires forall c :: c in nonstarters ==> PlainMark(u, c)
    ensures ClassesAscend(u, classes) && RanksOf(classes, ranks)
    ensures forall c :: c in ranks <==> c in nonstarters
    ensures forall c, d :: c in ranks && d in ranks ==> (ranks[c] < ranks[d] <==> u.ccc(c) < u.ccc(d))
    ensures forall c :: c in ranks ==> 1 <= ranks[c] <= |classes|
    ensures forall r :: 1 <= r <= |classes| ==> HasRank(ranks, r)
  {
    classes := [];
    var cache: map<(Cp, Cp), bool> := map[];
    for i := 0 to |nonstarters|
      invariant ClassesAscend(u, classes) && CacheAgrees(u, cache)
      invariant forall c :: InClasses(classes, c) <==> c in nonstarters[..i]
    {
      assert nonstarters[..i + 1] == nonstarters[..i] + [nonstarters[i]];
      classes, cache := Place(u, classes, cache, nonstarters[i]);
    }
    assert nonstarters[..|nonstarters|] == nonstarters;
    ranks := map[];
    for index := 0 to |classes|
      invariant RanksOf(classes[..index], ranks)
    {
      ranks := AddClass(u, classes, index, ranks);
    }
    assert classes[..|classes|] == classes;
    RanksFollowClasses(u, classes, ranks);
  }

  method AddClass(u: Ucd, classes: seq<seq<Cp>>, index: nat, ranks: map<Cp, nat>) returns (grown: map<Cp, nat>)
    requires index < |classes| && ClassesAscend(u, classes) && RanksOf(classes[..index], ranks)
    ensures RanksOf(classes[..index + 1], grown)
  {
    hide PlainMark;
    grown := ranks;
    var members := classes[index];
    for i := 0 to |members|
      invariant forall c :: c in grown <==> c in ranks || c in members[..i]
      invariant forall c :: c in ranks ==> grown[c] == ranks[c]
      invariant forall c :: c in members[..i] ==> grown[c] == index + 1
    {
      assert members[..i + 1] == members[..i] + [members[i]];
      assert members[i] !in ranks by { ClassesDisjoint(u, classes, index, members[i]); }
      grown := grown[members[i] := index + 1];
    }
    assert members[..|members|] == members;
    forall c
      ensures InClasses(classes[..index + 1], c) <==> InClasses(classes[..index], c) || c in classes[index]
    {
      if InClasses(classes[..index], c) {
        var k :| 0 <= k < index && c in classes[..index][k];
        assert c in classes[..index + 1][k];
      }
      if c in classes[index] {
        assert c in classes[..index + 1][index];
      }
    }
  }

  lemma ClassesDisjoint(u: Ucd, classes: seq<seq<Cp>>, index: nat, c: Cp)
    requires index < |classes| && ClassesAscend(u, classes) && c in classes[index]
    ensures !InClasses(classes[..index], c)
  {
  }

  lemma RanksFollowClasses(u: Ucd, classes: seq<seq<Cp>>, ranks: map<Cp, nat>)
    requires ClassesAscend(u, classes) && RanksOf(classes, ranks)
    ensures forall c, d :: c in ranks && d in ranks ==> (ranks[c] < ranks[d] <==> u.ccc(c) < u.ccc(d))
    ensures forall c :: c in ranks ==> 1 <= ranks[c] <= |classes|
    ensures forall r :: 1 <= r <= |classes| ==> HasRank(ranks, r)
  {
    hide PlainMark;
    forall c, d | c in ranks && d in ranks
      ensures ranks[c] < ranks[d] <==> u.ccc(c) < u.ccc(d)
    {
      var k :| 0 <= k < |classes| && c in classes[k];
      var l :| 0 <= l < |classes| && d in classes[l];
    }
    forall r | 1 <= r <= |classes|
      ensures HasRank(ranks, r)
    {
      var k := r - 1;
      var c := classes[k][0];
      assert c in classes[k] && c in ranks && ranks[c] == r;
    }
  }
}
