/** Summarizing the campaign: grouping unit files, merging family rows, and the corpus totals. */
module ChunkReadings {
  import opened ChunkCounters
  import opened ChunkStream
  import opened Wrappers

  // A family's row in one unit file.
  datatype Row = Row(artifact: string, face: Option<string>, normalizer: Option<string>, counters: Counters)

  datatype StreamFacts = StreamFacts(
    docsSeen: nat, docsSkipped: nat, docsPassedOver: nat, docsJudged: nat, chars: nat, digest: string)

  datatype UnitKey = UnitKey(shardIndex: nat, numShards: nat, partIndex: Option<nat>, partDocs: Option<nat>)

  datatype UnitFile = UnitFile(key: UnitKey, stream: StreamFacts, arm: Arm, families: map<string, Row>)

  datatype Error = DifferentStreams(key: UnitKey) | JudgedTwice(key: UnitKey, family: string)
                 | DifferentArtifacts(family: string) | DifferentFaces(family: string)
                 | DifferentNormalizers(family: string)

  datatype Result<+T> = Ok(value: T) | Err(error: Error)

  datatype Path = PythonPath | NativePath

  datatype Merged = Merged(artifact: string, face: Option<string>, normalizer: Option<string>,
                           paths: set<Path>, counters: Counters)

  // --- what one unit contributes to a family ----------------------------------

  function Paths(arm: Arm): set<Path> {
    (if arm.RunsPython() then {PythonPath} else {}) + (if arm.RunsNative() then {NativePath} else {})
  }

  // The native counters are read only from units whose arm runs the native path.
  function Contribution(arm: Arm, row: Row): Counters {
    row.counters.(native := if !arm.RunsNative() then None
                            else Some(if row.counters.native.Some? then row.counters.native.value else NO_NATIVE))
  }

  // What a family's merged reading amounts to: its paths and counters.
  datatype Reading = Reading(paths: set<Path>, counters: Counters)

  const NOTHING := Reading({}, EMPTY)

  function Join(a: Reading, b: Reading): Reading { Reading(a.paths + b.paths, Add(a.counters, b.counters)) }

  function UnitReading(unit: UnitFile, family: string): Reading {
    if family !in unit.families then NOTHING
    else Reading(Paths(unit.arm), Contribution(unit.arm, unit.families[family]))
  }

  function FamilyReading(units: seq<UnitFile>, family: string): Reading {
    if units == [] then NOTHING
    else Join(FamilyReading(units[..|units| - 1], family), UnitReading(units[|units| - 1], family))
  }

  lemma JoinLaws(a: Reading, b: Reading, c: Reading)
    ensures Join(a, b) == Join(b, a)
    ensures Join(Join(a, b), c) == Join(a, Join(b, c))
    ensures Join(a, NOTHING) == a == Join(NOTHING, a)
  {
    hide Add;
    AddLaws(a.counters, b.counters, c.counters);
  }

  // Merging concatenated unit lists is combining the merges.
  lemma {:induction false} MergeConcatenation(a: seq<UnitFile>, b: seq<UnitFile>, family: string)
    ensures FamilyReading(a + b, family) == Join(FamilyReading(a, family), FamilyReading(b, family))
  {
    hide Join;
    if b == [] {
      assert a + b == a;
      JoinLaws(FamilyReading(a, family), NOTHING, NOTHING);
    } else {
      var front, last := b[..|b| - 1], b[|b| - 1];
      assert (a + b)[..|a + b| - 1] == a + front;
      MergeConcatenation(a, front, family);
      JoinLaws(FamilyReading(a, family), FamilyReading(front, family), UnitReading(last, family));
    }
  }

  // The order of the unit files does not matter.
  lemma {:induction false} MergeOrder(a: seq<UnitFile>, b: seq<UnitFile>, family: string)
    requires multiset(a) == multiset(b)
    ensures FamilyReading(a, family) == FamilyReading(b, family)
    decreases |a|
  {
    hide Join;
    SameSize(a, b);
    if a != [] {
      var last := a[|a| - 1];
      assert last in multiset(b);
      var i :| 0 <= i < |b| && b[i] == last;
      var front, rest := a[..|a| - 1], b[..i] + b[i + 1..];
      assert a == front + [last];
      assert b == b[..i] + [last] + b[i + 1..];
      assert multiset(rest) == multiset(b) - multiset{last};
      MergeOrder(front, rest, family);
      MoveLast(b, i, family);
    }
  }

  lemma SameSize(a: seq<UnitFile>, b: seq<UnitFile>)
    requires multiset(a) == multiset(b)
    ensures |a| == |b|
  {
    assert |multiset(a)| == |a| && |multiset(b)| == |b|;
  }

  lemma MoveLast(b: seq<UnitFile>, i: nat, family: string)
    requires i < |b|
    ensures FamilyReading(b, family) == Join(FamilyReading(b[..i] + b[i + 1..], family), UnitReading(b[i], family))
  {
    hide Join;
    var x, y, z := FamilyReading(b[..i], family), UnitReading(b[i], family), FamilyReading(b[i + 1..], family);
    assert b == b[..i] + [b[i]] + b[i + 1..];
    MergeConcatenation(b[..i] + [b[i]], b[i + 1..], family);
    assert (b[..i] + [b[i]])[..i] == b[..i];
    MergeConcatenation(b[..i], b[i + 1..], family);
    JoinLaws(x, y, z);
    JoinLaws(x, z, y);
    JoinLaws(y, z, x);
  }

  // Which paths a merged row stands for, and when it has native counters: read off the arms of the
  // units that judged the family.
  lemma {:induction false} PathsMean(units: seq<UnitFile>, family: string)
    ensures PythonPath in FamilyReading(units, family).paths <==>
              exists i :: 0 <= i < |units| && family in units[i].families && units[i].arm != On
    ensures NativePath in FamilyReading(units, family).paths <==>
              exists i :: 0 <= i < |units| && family in units[i].families && units[i].arm != Off
    ensures FamilyReading(units, family).counters.native.Some? <==>
              exists i :: 0 <= i < |units| && family in units[i].families && units[i].arm != Off
  {
    hide Join, UnitReading;
    if units != [] {
      var n := |units| - 1;
      var front, last := units[..n], units[n];
      PathsMean(front, family);
      JoinPaths(FamilyReading(front, family), UnitReading(last, family));
      UnitPaths(last, family);
      assert forall i :: 0 <= i < n ==> front[i] == units[i];
    }
  }

  lemma JoinPaths(a: Reading, b: Reading)
    ensures Join(a, b).paths == a.paths + b.paths
    ensures Join(a, b).counters.native.Some? <==> a.counters.native.Some? || b.counters.native.Some?
  {
    hide AddReasons, AddNativeCounters, AddMismatches;
  }

  lemma UnitPaths(unit: UnitFile, family: string)
    ensures var r := UnitReading(unit, family);
            && (PythonPath in r.paths <==> family in unit.families && unit.arm != On)
            && (NativePath in r.paths <==> family in unit.families && unit.arm != Off)
            && (r.counters.native.Some? <==> family in unit.families && unit.arm != Off)
  {
  }

  // --- merge_families ---------------------------------------------------------

  predicate SameIdentity(a: Row, b: Row) {
    a.artifact == b.artifact && a.face == b.face && a.normalizer == b.normalizer
  }

  ghost predicate Agree(units: seq<UnitFile>) {
    forall i, j, family ::
      0 <= i < |units| && 0 <= j < |units| && family in units[i].families && family in units[j].families ==>
      SameIdentity(units[i].families[family], units[j].families[family])
  }

  // The dictionary holds exactly the families of the units, with the identity of their rows.
  ghost predicate MergedFrom(units: seq<UnitFile>, merged: map<string, Merged>) {
    && (forall family :: family in merged <==> exists i :: 0 <= i < |units| && family in units[i].families)
    && (forall family :: family in merged ==>
          Reading(merged[family].paths, merged[family].counters) == FamilyReading(units, family))
    && (forall i, family :: 0 <= i < |units| && family in units[i].families ==>
          family in merged && Identified(merged[family], units[i].families[family]))
  }

  predicate Identified(m: Merged, row: Row) {
    m.artifact == row.artifact && m.face == row.face && m.normalizer == row.normalizer
  }

  // The tool's steps for one family row: enter it, compare its identity, add it up.
  function MergeRow(merged: map<string, Merged>, family: string, arm: Arm, row: Row): Result<map<string, Merged>> {
    var m := if family in merged then merged[family] else Merged(row.artifact, row.face, row.normalizer, {}, EMPTY);
    if m.artifact != row.artifact then Err(DifferentArtifacts(family))
    else if m.face != row.face then Err(DifferentFaces(family))
    else if m.normalizer != row.normalizer then Err(DifferentNormalizers(family))
    else Ok(merged[family := m.(paths := m.paths + Paths(arm), counters := Add(m.counters, Contribution(arm, row)))])
  }

  // One unit, families taken in the given order.
  ghost predicate UnitMerged(before: map<string, Merged>, unit: UnitFile, done: set<string>, now: map<string, Merged>) {
    && now.Keys == before.Keys + done
    && (forall family :: family in before && family !in done ==> now[family] == before[family])
    && (forall family :: family in done ==>
          && family in unit.families
          && Identified(now[family], unit.families[family])
          && (family in before ==> Identified(before[family], unit.families[family]))
          && Reading(now[family].paths, now[family].counters)
             == Join(if family in before then Reading(before[family].paths, before[family].counters) else NOTHING,
                     UnitReading(unit, family)))
  }

  predicate Disagrees(merged: map<string, Merged>, unit: UnitFile, family: string) {
    family in unit.families && family in merged && !Identified(merged[family], unit.families[family])
  }

  method MergeUnit(merged: map<string, Merged>, unit: UnitFile, names: seq<string>)
    returns (r: Result<map<string, Merged>>)
    requires forall family :: family in names <==> family in unit.families
    requires forall i, j :: 0 <= i < j < |names| ==> names[i] != names[j]
    ensures r.Ok? ==> UnitMerged(merged, unit, unit.families.Keys, r.value)
    ensures r.Err? ==> exists family :: Disagrees(merged, unit, family)
  {
    hide Add, Join, UnitMerged, UnitReading, MergeRow, Disagrees;
    var now := merged;
    NoneMerged(merged, unit);
    assert Taken(names, 0) == {};
    for k := 0 to |names|
      invariant UnitMerged(merged, unit, Taken(names, k), now)
    {
      var family := names[k];
      var row := unit.families[family];
      ghost var done := Taken(names, k);
      assert family !in done;
      var step := MergeRow(now, family, unit.arm, row);
      if step.Err? {
        RowRefused(merged, unit, done, now, family);
        return Err(step.error);
      }
      RowMerged(merged, unit, done, now, family, step.value);
      now := step.value;
      assert Taken(names, k + 1) == done + {family};
    }
    assert Taken(names, |names|) == unit.families.Keys;
    r := Ok(now);
  }

  ghost function Taken(names: seq<string>, k: nat): set<string>
    requires k <= |names|
  {
    set i | 0 <= i < k :: names[i]
  }

  lemma NoneMerged(merged: map<string, Merged>, unit: UnitFile)
    ensures UnitMerged(merged, unit, {}, merged)
  {
  }

  lemma RowRefused(before: map<string, Merged>, unit: UnitFile, done: set<string>, now: map<string, Merged>,
                   family: string)
    requires UnitMerged(before, unit, done, now) && family in unit.families && family !in done
    requires MergeRow(now, family, unit.arm, unit.families[family]).Err?
    ensures Disagrees(before, unit, family)
  {
    hide Add, Join, UnitReading;
  }

  lemma RowMerged(before: map<string, Merged>, unit: UnitFile, done: set<string>, now: map<string, Merged>,
                  family: string, next: map<string, Merged>)
    requires UnitMerged(before, unit, done, now) && family in unit.families && family !in done
    requires MergeRow(now, family, unit.arm, unit.families[family]) == Ok(next)
    ensures UnitMerged(before, unit, done + {family}, next)
  {
    hide Add, MergeRow, Join, UnitReading, Identified;
    RowAdded(now, family, unit, next);
  }

  lemma RowAdded(now: map<string, Merged>, family: string, unit: UnitFile, next: map<string, Merged>)
    requires family in unit.families && MergeRow(now, family, unit.arm, unit.families[family]) == Ok(next)
    ensures next.Keys == now.Keys + {family}
    ensures forall other :: other in now && other != family ==> next[other] == now[other]
    ensures Identified(next[family], unit.families[family])
    ensures family in now ==> Identified(now[family], unit.families[family])
    ensures Reading(next[family].paths, next[family].counters)
         == Join(if family in now then Reading(now[family].paths, now[family].counters) else NOTHING,
             UnitReading(unit, family))
  {
    hide Add;
  }

  // A listing of a unit's families, as iterating its dictionary gives.
  ghost predicate Lists(names: seq<string>, families: map<string, Row>) {
    && (forall family :: family in names <==> family in families)
    && (forall i, j :: 0 <= i < j < |names| ==> names[i] != names[j])
  }

  // Success exactly when every two units agree on what they judged; then every family's row is the
  // sum over the units.
  method MergeFamilies(units: seq<UnitFile>, listings: seq<seq<string>>) returns (r: Result<map<string, Merged>>)
    requires |listings| == |units| && forall i :: 0 <= i < |units| ==> Lists(listings[i], units[i].families)
    ensures r.Ok? <==> Agree(units)
    ensures r.Ok? ==> MergedFrom(units, r.value)
  {
    hide Add, Join, FamilyReading, Lists;
    var families: map<string, Merged> := map[];
    NothingMerged();
    assert units[..0] == [];
    for k := 0 to |units|
      invariant MergedFrom(units[..k], families) && Agree(units[..k])
    {
      assert Lists(listings[k], units[k].families);
      assert units[..k + 1] == units[..k] + [units[k]];
      Listed(listings[k], units[k].families);
      var step := MergeUnit(families, units[k], listings[k]);
      if step.Err? {
        Disagreement(units, k, families);
        return Err(step.error);
      }
      UnitsMerged(units[..k], families, units[k], step.value);
      families := step.value;
    }
    assert units[..|units|] == units;
    r := Ok(families);
  }

  lemma Listed(names: seq<string>, families: map<string, Row>)
    requires Lists(names, families)
    ensures forall family :: family in names <==> family in families
    ensures forall i, j :: 0 <= i < j < |names| ==> names[i] != names[j]
  {
  }

  lemma NothingMerged()
    ensures MergedFrom([], map[]) && Agree([])
  {
  }

  lemma Disagreement(units: seq<UnitFile>, k: nat, families: map<string, Merged>)
    requires k < |units| && MergedFrom(units[..k], families)
    requires exists family :: Disagrees(families, units[k], family)
    ensures !Agree(units)
  {
    hide FamilyReading, Identified;
    var family :| Disagrees(families, units[k], family);
    var front := units[..k];
    var i :| 0 <= i < |front| && family in front[i].families;
    assert front[i] == units[i];
    OtherIdentity(families[family], units[i].families[family], units[k].families[family]);
    assert !SameIdentity(units[i].families[family], units[k].families[family]);
  }

  lemma OtherIdentity(m: Merged, a: Row, b: Row)
    requires Identified(m, a) && !Identified(m, b)
    ensures !SameIdentity(a, b)
  {
  }

  lemma FamilyReadingSnoc(units: seq<UnitFile>, unit: UnitFile, family: string)
    ensures FamilyReading(units + [unit], family) == Join(FamilyReading(units, family), UnitReading(unit, family))
  {
    assert (units + [unit])[..|units + [unit]| - 1] == units;
  }

  lemma UnitsMerged(units: seq<UnitFile>, families: map<string, Merged>, unit: UnitFile, next: map<string, Merged>)
    requires MergedFrom(units, families) && UnitMerged(families, unit, unit.families.Keys, next)
    ensures MergedFrom(units + [unit], next) && Agree(units + [unit])
  {
    hide FamilyReading, Identified, Add, Join, UnitReading, UnitMerged, Agree;
    NextKeys(units, families, unit, next);
    NextIdentities(units, families, unit, next);
    forall family | family in next
      ensures Reading(next[family].paths, next[family].counters) == FamilyReading(units + [unit], family)
    {
      NextReading(units, families, unit, next, family);
    }
    MergedAgree(units + [unit], next);
  }

  lemma NextKeys(units: seq<UnitFile>, families: map<string, Merged>, unit: UnitFile, next: map<string, Merged>)
    requires MergedFrom(units, families) && UnitMerged(families, unit, unit.families.Keys, next)
    ensures var all := units + [unit];
            forall family :: family in next <==> exists i :: 0 <= i < |all| && family in all[i].families
  {
    hide FamilyReading, Identified, Add, Join, UnitReading;
    var all := units + [unit];
    assert forall i :: 0 <= i < |units| ==> all[i] == units[i];
    assert all[|units|] == unit;
    forall family
      ensures family in next <==> exists i :: 0 <= i < |all| && family in all[i].families
    {
      if family in families {
        var i :| 0 <= i < |units| && family in units[i].families;
        assert family in all[i].families;
      }
      if family in unit.families { assert family in all[|units|].families; }
    }
  }

  lemma NextIdentities(units: seq<UnitFile>, families: map<string, Merged>, unit: UnitFile, next: map<string, Merged>)
    requires MergedFrom(units, families) && UnitMerged(families, unit, unit.families.Keys, next)
    ensures var all := units + [unit];
            forall i, family :: 0 <= i < |all| && family in all[i].families ==>
              family in next && Identified(next[family], all[i].families[family])
  {
    hide FamilyReading, Add, Join, UnitReading;
    var all := units + [unit];
    forall i, family | 0 <= i < |all| && family in all[i].families
      ensures family in next && Identified(next[family], all[i].families[family])
    {
      if i < |units| {
        assert family in units[i].families && Identified(families[family], units[i].families[family]);
      }
    }
  }

  lemma MergedAgree(units: seq<UnitFile>, merged: map<string, Merged>)
    requires forall i, family :: 0 <= i < |units| && family in units[i].families ==>
               family in merged && Identified(merged[family], units[i].families[family])
    ensures Agree(units)
  {
    forall i, j, family | 0 <= i < |units| && 0 <= j < |units| && family in units[i].families
        && family in units[j].families
      ensures SameIdentity(units[i].families[family], units[j].families[family])
    {
      assert Identified(merged[family], units[i].families[family]);
      assert Identified(merged[family], units[j].families[family]);
    }
  }

  lemma NextReading(units: seq<UnitFile>, families: map<string, Merged>, unit: UnitFile, next: map<string, Merged>,
                    family: string)
    requires MergedFrom(units, families) && UnitMerged(families, unit, unit.families.Keys, next) && family in next
    ensures Reading(next[family].paths, next[family].counters) == FamilyReading(units + [unit], family)
  {
    hide Add, Join, FamilyReading;
    FamilyReadingSnoc(units, unit, family);
    if family !in families {
      AbsentReading(units, family);
    } else if family !in unit.families {
      JoinLaws(FamilyReading(units, family), NOTHING, NOTHING);
    }
  }

  lemma {:induction false} AbsentReading(units: seq<UnitFile>, family: string)
    requires forall i :: 0 <= i < |units| ==> family !in units[i].families
    ensures FamilyReading(units, family) == NOTHING
  {
    hide Join;
    if units != [] {
      AbsentReading(units[..|units| - 1], family);
      JoinLaws(NOTHING, NOTHING, NOTHING);
    }
  }

  // --- what merging keeps -----------------------------------------------------

  // A column stays `None` exactly when no unit with this family ran it, and the relation between
  // the columns survives.
  lemma {:induction false} MergeKeeps(units: seq<UnitFile>, family: string)
    requires forall i :: 0 <= i < |units| && family in units[i].families ==>
              Consistent(units[i].families[family].counters)
    ensures Consistent(FamilyReading(units, family).counters)
    ensures forall column :: Get(FamilyReading(units, family).counters.mismatches, column).Some? <==>
              exists i :: 0 <= i < |units| && family in units[i].families
                          && Get(units[i].families[family].counters.mismatches, column).Some?
  {
    if units != [] {
      var front, last := units[..|units| - 1], units[|units| - 1];
      assert units == front + [last];
      MergeKeeps(front, family);
      UnitConsistent(last, family);
      AddConsistent(FamilyReading(front, family).counters, UnitReading(last, family).counters);
      forall column
        ensures Get(FamilyReading(units, family).counters.mismatches, column).Some? <==>
                  exists i :: 0 <= i < |units| && family in units[i].families
                              && Get(units[i].families[family].counters.mismatches, column).Some?
      {
        ColumnAdded(FamilyReading(front, family).counters, UnitReading(last, family).counters, column);
        assert forall i :: 0 <= i < |front| ==> units[i] == front[i];
      }
    }
  }

  lemma UnitConsistent(unit: UnitFile, family: string)
    requires family in unit.families ==> Consistent(unit.families[family].counters)
    ensures Consistent(UnitReading(unit, family).counters)
  {
  }

  lemma ColumnAdded(a: Counters, b: Counters, column: Column)
    ensures Get(Add(a, b).mismatches, column).Some? <==>
              Get(a.mismatches, column).Some? || Get(b.mismatches, column).Some?
  {
  }

  // --- group_units and the corpus totals --------------------------------------

  datatype Group = Group(key: UnitKey, members: seq<UnitFile>)

  ghost predicate OneStream(g: Group) {
    g.members != [] && forall i :: 0 <= i < |g.members| ==>
        g.members[i].key == g.key && g.members[i].stream == g.members[0].stream
  }

  ghost predicate DisjointFamilies(g: Group) {
    forall i, j :: 0 <= i < j < |g.members| ==> g.members[i].families.Keys !! g.members[j].families.Keys
  }

  function Flatten(groups: seq<Group>): seq<UnitFile> {
    if groups == [] then [] else Flatten(groups[..|groups| - 1]) + groups[|groups| - 1].members
  }

  // `groups.setdefault(key, []).append(unit)`
  function AddToGroup(groups: seq<Group>, unit: UnitFile): (r: seq<Group>)
  {
    if groups == [] then [Group(unit.key, [unit])]
    else if groups[0].key == unit.key then [groups[0].(members := groups[0].members + [unit])] + groups[1..]
    else [groups[0]] + AddToGroup(groups[1..], unit)
  }

  // Each group holds units of its own key, and no two groups share one.
  ghost predicate WellGrouped(groups: seq<Group>) {
    && (forall k :: 0 <= k < |groups| ==> OwnKey(groups[k]))
    && (forall k, l :: 0 <= k < l < |groups| ==> groups[k].key != groups[l].key)
  }

  ghost predicate OwnKey(g: Group) {
    g.members != [] && forall i :: 0 <= i < |g.members| ==> g.members[i].key == g.key
  }

  ghost predicate Grouped(groups: seq<Group>, units: seq<UnitFile>) {
    multiset(Flatten(groups)) == multiset(units) && WellGrouped(groups)
  }

  lemma {:induction false} FlattenCons(g: Group, groups: seq<Group>)
    ensures Flatten([g] + groups) == g.members + Flatten(groups)
  {
    hide Flatten;
    if groups == [] {
      assert [g] + groups == [] + [g];
      FlattenSnoc([], g);
      FlattenNone();
      assert [] + g.members == g.members + [];
    } else {
      var front, last := groups[..|groups| - 1], groups[|groups| - 1];
      assert groups == front + [last];
      assert [g] + groups == ([g] + front) + [last];
      FlattenCons(g, front);
      FlattenSnoc([g] + front, last);
      FlattenSnoc(front, last);
      assert g.members + Flatten(front) + last.members == g.members + (Flatten(front) + last.members);
    }
  }

  lemma FlattenNone()
    ensures Flatten([]) == []
  {
  }

  lemma FlattenSnoc(groups: seq<Group>, g: Group)
    ensures Flatten(groups + [g]) == Flatten(groups) + g.members
  {
    assert (groups + [g])[..|groups + [g]| - 1] == groups;
  }

  lemma {:induction false} AddToGroupElements(groups: seq<Group>, unit: UnitFile)
    ensures multiset(Flatten(AddToGroup(groups, unit))) == multiset(Flatten(groups)) + multiset{unit}
  {
    hide Flatten;
    FlattenNone();
    if groups == [] {
      FlattenCons(Group(unit.key, [unit]), []);
      assert [Group(unit.key, [unit])] + [] == [Group(unit.key, [unit])];
    } else {
      var head, rest := groups[0], groups[1..];
      assert groups == [head] + rest;
      FlattenCons(head, rest);
      if head.key == unit.key {
        FlattenCons(head.(members := head.members + [unit]), rest);
      } else {
        AddToGroupElements(rest, unit);
        FlattenCons(head, AddToGroup(rest, unit));
      }
    }
  }

  lemma NewOwnKey(unit: UnitFile)
    ensures OwnKey(Group(unit.key, [unit]))
  {
  }

  lemma GrownOwnKey(g: Group, unit: UnitFile)
    requires OwnKey(g) && g.key == unit.key
    ensures OwnKey(g.(members := g.members + [unit]))
  {
  }

  lemma {:induction false} AddToGroupKeys(groups: seq<Group>, unit: UnitFile)
    requires WellGrouped(groups)
    ensures WellGrouped(AddToGroup(groups, unit))
    ensures forall g :: g in AddToGroup(groups, unit) ==> g.key == unit.key || exists h :: h in groups && h.key == g.key
  {
    hide OwnKey;
    if groups == [] {
      NewOwnKey(unit);
    } else if groups[0].key == unit.key {
      GrownOwnKey(groups[0], unit);
    } else {
      var head, rest := groups[0], groups[1..];
      assert forall k :: 0 <= k < |rest| ==> rest[k] == groups[k + 1];
      AddToGroupKeys(rest, unit);
      var r := AddToGroup(rest, unit);
      forall k | 0 <= k < |r|
        ensures r[k].key != head.key
      {
        assert r[k] in r;
      }
    }
  }

  method GroupUnits(units: seq<UnitFile>) returns (r: Result<seq<Group>>)
    ensures r.Ok? <==> NoConflict(units)
    ensures r.Ok? ==> Grouped(r.value, units)
    ensures r.Ok? ==> forall k :: 0 <= k < |r.value| ==> OneStream(r.value[k]) && DisjointFamilies(r.value[k])
  {
    hide WellGrouped, OneStream, DisjointFamilies, NoConflict, Flatten, AddToGroup;
    var groups: seq<Group> := [];
    FlattenNone();
    NoGroups();
    for k := 0 to |units|
      invariant Grouped(groups, units[..k])
    {
      assert units[..k + 1] == units[..k] + [units[k]];
      AddToGroupElements(groups, units[k]);
      AddToGroupKeys(groups, units[k]);
      groups := AddToGroup(groups, units[k]);
    }
    assert units[..|units|] == units;
    for k := 0 to |groups|
      invariant forall l :: 0 <= l < k ==> OneStream(groups[l]) && DisjointFamilies(groups[l])
    {
      KeyOf(groups, k);
      var problem := CheckGroup(groups[k]);
      if problem.Some? {
        if NoConflict(units) { GroupsKeepApart(groups, units, k); }
        return Err(problem.value);
      }
    }
    GroupsAgree(groups, units);
    r := Ok(groups);
  }

  lemma NoGroups()
    ensures WellGrouped([])
  {
  }

  lemma KeyOf(groups: seq<Group>, k: nat)
    requires WellGrouped(groups) && k < |groups|
    ensures OwnKey(groups[k])
  {
  }

  // Two files of one unit that cannot both stand: other documents, or a family judged in both.
  ghost predicate Conflict(a: UnitFile, b: UnitFile) {
    a.key == b.key && (a.stream != b.stream || !(a.families.Keys !! b.families.Keys))
  }

  // No two of the files clash.
  ghost predicate NoConflict(units: seq<UnitFile>) {
    forall i, j :: 0 <= i < j < |units| ==> !Conflict(units[i], units[j])
  }

  lemma OtherStream(g: Group, i: nat)
    requires OwnKey(g) && i < |g.members| && g.members[i].stream != g.members[0].stream
    ensures !NoConflict(g.members)
  {
    assert Conflict(g.members[0], g.members[i]);
  }

  lemma FamilyTwice(g: Group, m: nat, i: nat, f: string)
    requires OwnKey(g) && m < i < |g.members| && f in g.members[m].families && f in g.members[i].families
    ensures !NoConflict(g.members)
  {
    assert f in g.members[m].families.Keys * g.members[i].families.Keys;
    assert Conflict(g.members[m], g.members[i]);
  }

  method CheckGroup(g: Group) returns (problem: Option<Error>)
    requires OwnKey(g)
    ensures problem.None? <==> NoConflict(g.members)
    ensures problem.None? <==> OneStream(g) && DisjointFamilies(g)
  {
    hide Conflict, NoConflict;
    AgreeMeans(g);
    for i := 0 to |g.members|
      invariant forall m :: 0 <= m < i ==> g.members[m].stream == g.members[0].stream
    {
      if g.members[i].stream != g.members[0].stream {
        OtherStream(g, i);
        return Some(DifferentStreams(g.key));
      }
    }
    var seen: set<string> := {};
    for i := 0 to |g.members|
      invariant forall f :: f in seen <==> exists m :: 0 <= m < i && f in g.members[m].families
      invariant forall m, n :: 0 <= m < n < i ==> g.members[m].families.Keys !! g.members[n].families.Keys
    {
      if exists f :: f in g.members[i].families && f in seen {
        var f :| f in g.members[i].families && f in seen;
        ghost var m :| 0 <= m < i && f in g.members[m].families;
        FamilyTwice(g, m, i, f);
        return Some(JudgedTwice(g.key, f));
      }
      seen := seen + g.members[i].families.Keys;
    }
    problem := None;
  }

  lemma AgreeMeans(g: Group)
    requires OwnKey(g)
    ensures NoConflict(g.members) <==> OneStream(g) && DisjointFamilies(g)
  {
    if NoConflict(g.members) {
      forall i | 0 <= i < |g.members|
        ensures g.members[i].stream == g.members[0].stream
      {
        if i > 0 { assert !Conflict(g.members[0], g.members[i]); }
      }
      forall i, j | 0 <= i < j < |g.members|
        ensures g.members[i].families.Keys !! g.members[j].families.Keys
      {
        assert !Conflict(g.members[i], g.members[j]);
      }
    }
  }

  // --- clashes do not depend on the order of the files ------------------------

  lemma ConflictBothWays(a: UnitFile, b: UnitFile)
    ensures Conflict(a, b) <==> Conflict(b, a)
  {
  }

  lemma Twice(b: seq<UnitFile>, i: nat, j: nat)
    requires i < j < |b| && b[i] == b[j]
    ensures multiset(b)[b[i]] >= 2
  {
    assert b == b[..i] + [b[i]] + b[i + 1..j] + [b[j]] + b[j + 1..];
  }

  lemma OtherPlace(a: seq<UnitFile>, p: nat) returns (q: nat)
    requires p < |a| && multiset(a)[a[p]] >= 2
    ensures q < |a| && q != p && a[q] == a[p]
  {
    var rest := a[..p] + a[p + 1..];
    assert a == a[..p] + [a[p]] + a[p + 1..];
    assert a[p] in multiset(rest);
    var k :| 0 <= k < |rest| && rest[k] == a[p];
    q := if k < p then k else k + 1;
  }

  // Two files at different places of one list stand at different places of any rearrangement.
  lemma Places(a: seq<UnitFile>, b: seq<UnitFile>, i: nat, j: nat) returns (p: nat, q: nat)
    requires multiset(a) == multiset(b) && i < j < |b|
    ensures p < |a| && q < |a| && p != q && a[p] == b[i] && a[q] == b[j]
  {
    assert b[i] in multiset(a) && b[j] in multiset(a);
    p :| 0 <= p < |a| && a[p] == b[i];
    if b[i] == b[j] {
      Twice(b, i, j);
      q := OtherPlace(a, p);
    } else {
      q :| 0 <= q < |a| && a[q] == b[j];
    }
  }

  lemma NoConflictOrder(a: seq<UnitFile>, b: seq<UnitFile>)
    requires multiset(a) == multiset(b) && NoConflict(a)
    ensures NoConflict(b)
  {
    hide Conflict;
    forall i, j | 0 <= i < j < |b|
      ensures !Conflict(b[i], b[j])
    {
      var p, q := Places(a, b, i, j);
      ConflictBothWays(a[p], a[q]);
    }
  }

  // The files of one group stand together in the flattened list.
  lemma {:induction false} GroupInFlatten(groups: seq<Group>, k: nat) returns (at: nat)
    requires k < |groups|
    ensures at + |groups[k].members| <= |Flatten(groups)|
    ensures Flatten(groups)[at..at + |groups[k].members|] == groups[k].members
  {
    var front := groups[..|groups| - 1];
    if k < |front| {
      at := GroupInFlatten(front, k);
    } else {
      at := |Flatten(front)|;
    }
  }

  lemma GroupsKeepApart(groups: seq<Group>, units: seq<UnitFile>, k: nat)
    requires Grouped(groups, units) && k < |groups| && NoConflict(units)
    ensures NoConflict(groups[k].members)
  {
    hide Flatten, Conflict;
    NoConflictOrder(units, Flatten(groups));
    var at := GroupInFlatten(groups, k);
    var members, flat := groups[k].members, Flatten(groups);
    assert forall i :: 0 <= i < |members| ==> members[i] == flat[at..at + |members|][i] == flat[at + i];
  }

  // Where a file of the flattened list comes from, and that places in one group keep their order.
  lemma {:induction false} FlattenPlace(groups: seq<Group>, i: nat) returns (k: nat, p: nat)
    requires i < |Flatten(groups)|
    ensures k < |groups| && p < |groups[k].members| && groups[k].members[p] == Flatten(groups)[i]
    ensures i == |Flatten(groups[..k])| + p
  {
    var front := groups[..|groups| - 1];
    if i < |Flatten(front)| {
      k, p := FlattenPlace(front, i);
      assert groups[..k] == front[..k];
    } else {
      k, p := |groups| - 1, i - |Flatten(front)|;
    }
  }

  lemma GroupsAgree(groups: seq<Group>, units: seq<UnitFile>)
    requires Grouped(groups, units)
    requires forall k :: 0 <= k < |groups| ==> OneStream(groups[k]) && DisjointFamilies(groups[k])
    ensures NoConflict(units)
  {
    hide Flatten, Conflict, OneStream, DisjointFamilies;
    var flat := Flatten(groups);
    forall i, j | 0 <= i < j < |flat|
      ensures !Conflict(flat[i], flat[j])
    {
      var k, p := FlattenPlace(groups, i);
      var l, q := FlattenPlace(groups, j);
      if k == l {
        AgreeMeans(groups[k]);
        assert p < q;
      } else {
        OtherKey(groups, k, p, l, q);
      }
    }
    NoConflictOrder(flat, units);
  }

  lemma OtherKey(groups: seq<Group>, k: nat, p: nat, l: nat, q: nat)
    requires WellGrouped(groups) && k < |groups| && l < |groups| && k != l
    requires p < |groups[k].members| && q < |groups[l].members|
    ensures !Conflict(groups[k].members[p], groups[l].members[q])
  {
    assert OwnKey(groups[k]) && OwnKey(groups[l]);
    assert groups[k].key != groups[l].key;
  }

  // Documents are counted once a unit, whatever the number of family groups.
  function UnitDocs(g: Group): nat { if g.members == [] then 0 else g.members[0].stream.docsJudged }

  function CorpusDocs(groups: seq<Group>): nat {
    if groups == [] then 0 else CorpusDocs(groups[..|groups| - 1]) + UnitDocs(groups[|groups| - 1])
  }

  ghost predicate JudgedIn(g: Group, family: string) {
    exists i :: 0 <= i < |g.members| && family in g.members[i].families
  }

  // As `RunUnit` leaves them: a family's row counts the documents its unit judged.
  ghost predicate RowsCountUnits(units: seq<UnitFile>) {
    forall i, family :: 0 <= i < |units| && family in units[i].families ==>
      units[i].families[family].counters.docs == units[i].stream.docsJudged
  }

  lemma {:induction false} DocsAbsent(units: seq<UnitFile>, family: string)
    requires forall i :: 0 <= i < |units| ==> family !in units[i].families
    ensures FamilyReading(units, family).counters.docs == 0
  {
    if units != [] { DocsAbsent(units[..|units| - 1], family); }
  }

  lemma ReadingDocs(units: seq<UnitFile>, family: string)
    requires units != []
    ensures var last := units[|units| - 1];
            FamilyReading(units, family).counters.docs == FamilyReading(units[..|units| - 1], family).counters.docs
            + if family in last.families then last.families[family].counters.docs else 0
  {
    hide AddReasons, AddNative, AddMismatches;
  }

  // In one group a family is judged at most once, so it counts the group's documents or nothing.
  lemma {:induction false} GroupDocs(members: seq<UnitFile>, family: string, docs: nat)
    requires forall i :: 0 <= i < |members| && family in members[i].families ==>
              members[i].families[family].counters.docs == docs
    requires forall i, j :: 0 <= i < j < |members| ==> members[i].families.Keys !! members[j].families.Keys
    ensures FamilyReading(members, family).counters.docs
         == if exists i :: 0 <= i < |members| && family in members[i].families then docs else 0
  {
    hide FamilyReading, Join, Add;
    if members == [] {
      DocsAbsent(members, family);
    } else {
      var front, last := members[..|members| - 1], members[|members| - 1];
      ReadingDocs(members, family);
      if family in last.families {
        var n := |front|;
        assert members[n] == last;
        assert forall i :: 0 <= i < n ==> front[i] == members[i] && front[i].families.Keys !! last.families.Keys;
        DocsAbsent(front, family);
      } else {
        assert forall i :: 0 <= i < |front| ==> front[i] == members[i];
        GroupDocs(front, family, docs);
        if exists i :: 0 <= i < |front| && family in front[i].families {
          var i :| 0 <= i < |front| && family in front[i].families;
          assert family in members[i].families;
        }
      }
    }
  }

  // A family's merged documents never exceed the corpus, and reach it exactly when the family was
  // judged in every unit that has documents.
  lemma {:induction false} DocsConserved(groups: seq<Group>, family: string)
    requires forall k :: 0 <= k < |groups| ==>
              OneStream(groups[k]) && DisjointFamilies(groups[k]) && RowsCountUnits(groups[k].members)
    ensures FamilyReading(Flatten(groups), family).counters.docs <= CorpusDocs(groups)
    ensures FamilyReading(Flatten(groups), family).counters.docs == CorpusDocs(groups) <==>
              forall k :: 0 <= k < |groups| && UnitDocs(groups[k]) > 0 ==> JudgedIn(groups[k], family)
  {
    hide OneStream, DisjointFamilies, RowsCountUnits, JudgedIn, UnitDocs, Join, FamilyReading, Flatten;
    FlattenNone();
    NothingRead(family);
    if groups != [] {
      var front, g := groups[..|groups| - 1], groups[|groups| - 1];
      assert groups == front + [g];
      assert forall k :: 0 <= k < |front| ==> front[k] == groups[k];
      DocsConserved(front, family);
      FlattenSnoc(front, g);
      MergeConcatenation(Flatten(front), g.members, family);
      JoinDocs(FamilyReading(Flatten(front), family), FamilyReading(g.members, family));
      OneGroup(g, family);
      assert groups[|groups| - 1] == g;
    }
  }

  lemma NothingRead(family: string)
    ensures FamilyReading([], family).counters.docs == 0
  {
  }

  lemma JoinDocs(a: Reading, b: Reading)
    ensures Join(a, b).counters.docs == a.counters.docs + b.counters.docs
  {
    hide AddReasons, AddNative, AddMismatches;
  }

  lemma OneGroup(g: Group, family: string)
    requires OneStream(g) && DisjointFamilies(g) && RowsCountUnits(g.members)
    ensures FamilyReading(g.members, family).counters.docs == if JudgedIn(g, family) then UnitDocs(g) else 0
  {
    GroupDocs(g.members, family, UnitDocs(g));
  }

  // From the units as read to the readings: grouping only reorders, so the conservation above is
  // about the merged rows themselves.
  lemma ReadingsConserve(units: seq<UnitFile>, groups: seq<Group>, merged: map<string, Merged>, family: string)
    requires Grouped(groups, units) && MergedFrom(units, merged) && family in merged
    requires forall k :: 0 <= k < |groups| ==>
              OneStream(groups[k]) && DisjointFamilies(groups[k]) && RowsCountUnits(groups[k].members)
    ensures merged[family].counters.docs <= CorpusDocs(groups)
    ensures merged[family].counters.docs == CorpusDocs(groups) <==>
              forall k :: 0 <= k < |groups| && UnitDocs(groups[k]) > 0 ==> JudgedIn(groups[k], family)
  {
    MergeOrder(units, Flatten(groups), family);
    DocsConserved(groups, family);
    assert Reading(merged[family].paths, merged[family].counters) == FamilyReading(units, family);
  }
}
