/** From documents to readings: the unit files of a campaign run in parts, and what merging them gives. */
module ChunkCampaign {
  import opened ChunkCounters
  import opened ChunkParts
  import opened ChunkReadings
  import opened ChunkStream
  import opened ChunkUnit
  import opened Wrappers

  // A family as it is loaded: what its row records, and the encoders it is judged with.
  datatype Spec = Spec(
    name: string, artifact: string, face: Option<string>, normalizer: Option<string>, encoders: Encoders)

  // What every part of a campaign is run with. `digest` stands for the hash over the judged documents.
  datatype Setup = Setup(
    specs: seq<Spec>, arm: Arm, gate: Gate, chunkChars: nat, minChunk: nat, digest: seq<string> -> string)

  ghost predicate Sound(setup: Setup) {
    setup.chunkChars > 0
    && forall i, j :: 0 <= i < j < |setup.specs| ==> setup.specs[i].name != setup.specs[j].name
  }

  // --- one unit file ----------------------------------------------------------

  function RowOf(setup: Setup, spec: Spec, judged: seq<string>): Row
    requires setup.chunkChars > 0
  {
    Row(spec.artifact, spec.face, spec.normalizer,
        Tally(setup.arm, spec.encoders, Judgements(judged, setup.chunkChars, setup.minChunk)))
  }

  // The file of a unit that judged `judged`: a row for each family, counting those documents.
  ghost predicate FileOf(setup: Setup, judged: seq<string>, unit: UnitFile)
    requires setup.chunkChars > 0
  {
    && unit.arm == setup.arm && unit.stream.docsJudged == |judged| && unit.stream.digest == setup.digest(judged)
    && (forall name :: name in unit.families <==> exists i :: 0 <= i < |setup.specs| && setup.specs[i].name == name)
    && (forall i :: 0 <= i < |setup.specs| ==>
          setup.specs[i].name in unit.families
          && unit.families[setup.specs[i].name] == RowOf(setup, setup.specs[i], judged))
  }

  // `family_rows`
  method FamilyRows(setup: Setup, families: seq<Family>, ghost judged: seq<string>) returns (rows: map<string, Row>)
    requires Sound(setup) && |families| == |setup.specs|
    requires forall i :: 0 <= i < |families| ==>
              families[i].arm == setup.arm && families[i].encoders == setup.specs[i].encoders
    requires AllTallied(families, Judgements(judged, setup.chunkChars, setup.minChunk))
    ensures forall name :: name in rows <==> exists i :: 0 <= i < |setup.specs| && setup.specs[i].name == name
    ensures forall i :: 0 <= i < |setup.specs| ==>
              setup.specs[i].name in rows && rows[setup.specs[i].name] == RowOf(setup, setup.specs[i], judged)
  {
    hide Judgements, Tally, Family.Valid;
    rows := map[];
    for k := 0 to |setup.specs|
      invariant forall name :: name in rows <==> exists i :: 0 <= i < k && setup.specs[i].name == name
      invariant forall i :: 0 <= i < k ==>
                  setup.specs[i].name in rows && rows[setup.specs[i].name] == RowOf(setup, setup.specs[i], judged)
    {
      var spec := setup.specs[k];
      assert Tallied(families[k], Judgements(judged, setup.chunkChars, setup.minChunk));
      rows := rows[spec.name := Row(spec.artifact, spec.face, spec.normalizer, families[k].counters)];
    }
  }

  // `command_run`: load the families, judge the window, write the file.
  method RunPart(setup: Setup, key: UnitKey, docs: seq<string>, maxDocs: nat, skipDocs: nat) returns (unit: UnitFile)
    requires Sound(setup)
    ensures unit.key == key && FileOf(setup, Window(Accepted(setup.gate, docs), skipDocs, maxDocs), unit)
  {
    hide AllTallied, Accepted, Window, Judgements, Tally, Position, Chars, Distinct;
    var families := LoadFamilies(seq(|setup.specs|, i requires 0 <= i < |setup.specs| =>
                                       (setup.arm, setup.specs[i].encoders)));
    var stream, stopped := RunUnit(families, docs, setup.gate, setup.chunkChars, setup.minChunk, maxDocs, skipDocs);
    var rows := FamilyRows(setup, families, stream.fed);
    var facts := StreamFacts(stream.docsSeen, stream.docsSkipped, stream.docsPassedOver, stream.docsJudged,
                             stream.chars, setup.digest(stream.fed));
    unit := UnitFile(key, facts, setup.arm, rows);
  }

  // A unit file's rows count its documents, with consistent columns.
  lemma FileCounts(setup: Setup, judged: seq<string>, unit: UnitFile, family: string)
    requires setup.chunkChars > 0 && FileOf(setup, judged, unit) && family in unit.families
    ensures unit.families[family].counters.docs == unit.stream.docsJudged
    ensures Consistent(unit.families[family].counters)
  {
    hide Tally, Consistent, Judgements;
    var i :| 0 <= i < |setup.specs| && setup.specs[i].name == family;
    TallyFacts(setup.arm, setup.specs[i].encoders, Judgements(judged, setup.chunkChars, setup.minChunk));
  }

  // --- a campaign in parts ----------------------------------------------------

  // The files of parts 0..n-1 over the accepted documents of one shard.
  ghost predicate Campaign(setup: Setup, accepted: seq<string>, partDocs: nat, units: seq<UnitFile>)
    requires setup.chunkChars > 0
  {
    && (forall i :: 0 <= i < |units| ==> FileOf(setup, PartJudged(accepted, partDocs, i), units[i]))
    && (forall i, j :: 0 <= i < j < |units| ==> units[i].key != units[j].key)
  }

  method RunCampaign(setup: Setup, shardIndex: nat, numShards: nat, docs: seq<string>, partDocs: nat, parts: nat)
    returns (units: seq<UnitFile>)
    requires Sound(setup)
    ensures |units| == parts && Campaign(setup, Accepted(setup.gate, docs), partDocs, units)
    ensures forall i :: 0 <= i < parts ==> units[i].key == UnitKey(shardIndex, numShards, Some(i), Some(partDocs))
  {
    hide Accepted, FileOf, Window;
    units := [];
    for i := 0 to parts
      invariant |units| == i && Campaign(setup, Accepted(setup.gate, docs), partDocs, units)
      invariant forall k :: 0 <= k < i ==> units[k].key == UnitKey(shardIndex, numShards, Some(k), Some(partDocs))
    {
      var key := UnitKey(shardIndex, numShards, Some(i), Some(partDocs));
      var unit := RunPart(setup, key, docs, partDocs, i * partDocs);
      units := units + [unit];
    }
  }

  // --- judging in parts is judging at once ------------------------------------

  lemma AddZero(c: Counters, arm: Arm)
    requires ColumnsOf(c, arm)
    ensures Add(c, Zero(arm)) == c
  {
    assert AddReasons(c.serialReasons, map[]) == c.serialReasons;
    if c.native.Some? {
      assert AddReasons(c.native.value.serialReasons, map[]) == c.native.value.serialReasons;
    }
  }

  lemma {:induction false} TallyColumns(arm: Arm, e: Encoders, js: seq<Judgement>)
    ensures ColumnsOf(Tally(arm, e, js), arm)
  {
    hide ColumnsOf, Add, One, Zero;
    if js == [] {
      ZeroColumns(arm);
    } else {
      TallyColumns(arm, e, js[..|js| - 1]);
      OneColumns(arm, e, js[|js| - 1]);
      AddKeepsColumns(Tally(arm, e, js[..|js| - 1]), One(arm, e, js[|js| - 1]), arm);
    }
  }

  lemma OneColumns(arm: Arm, e: Encoders, j: Judgement)
    ensures ColumnsOf(One(arm, e, j), arm)
  {
  }

  lemma {:induction false} TallyAppend(arm: Arm, e: Encoders, a: seq<Judgement>, b: seq<Judgement>)
    ensures Tally(arm, e, a + b) == Add(Tally(arm, e, a), Tally(arm, e, b))
  {
    hide Add, One, Zero, ColumnsOf;
    if b == [] {
      assert a + b == a;
      TallyColumns(arm, e, a);
      AddZero(Tally(arm, e, a), arm);
    } else {
      var front, j := b[..|b| - 1], b[|b| - 1];
      assert (a + b)[..|a + b| - 1] == a + front;
      TallyAppend(arm, e, a, front);
      AddLaws(Tally(arm, e, a), Tally(arm, e, front), One(arm, e, j));
    }
  }

  // What one file contributes is what its family has tallied.
  lemma FileReading(setup: Setup, judged: seq<string>, unit: UnitFile, i: nat)
    requires setup.chunkChars > 0 && FileOf(setup, judged, unit) && i < |setup.specs|
    ensures UnitReading(unit, setup.specs[i].name)
         == Reading(Paths(setup.arm), RowOf(setup, setup.specs[i], judged).counters)
  {
    hide Tally, Judgements;
    var spec := setup.specs[i];
    TallyColumns(setup.arm, spec.encoders, Judgements(judged, setup.chunkChars, setup.minChunk));
  }

  lemma JoinFiles(setup: Setup, spec: Spec, a: seq<string>, b: seq<string>)
    requires setup.chunkChars > 0
    ensures Join(Reading(Paths(setup.arm), RowOf(setup, spec, a).counters),
                 Reading(Paths(setup.arm), RowOf(setup, spec, b).counters))
         == Reading(Paths(setup.arm), RowOf(setup, spec, a + b).counters)
  {
    hide Tally, Add;
    var x, y := Judgements(a, setup.chunkChars, setup.minChunk), Judgements(b, setup.chunkChars, setup.minChunk);
    assert Judgements(a + b, setup.chunkChars, setup.minChunk) == x + y;
    TallyAppend(setup.arm, spec.encoders, x, y);
  }

  // Merging the files of the parts reads as one unit that judged all their documents.
  lemma {:induction false} PartsReadAsOne(setup: Setup, accepted: seq<string>, partDocs: nat, units: seq<UnitFile>,
                                          i: nat)
    requires setup.chunkChars > 0 && Campaign(setup, accepted, partDocs, units) && units != [] && i < |setup.specs|
    ensures FamilyReading(units, setup.specs[i].name)
         == Reading(Paths(setup.arm), RowOf(setup, setup.specs[i], Tiled(accepted, partDocs, |units|)).counters)
    decreases |units|
  {
    hide Join, FileOf, RowOf, UnitReading, PartJudged;
    var n := |units| - 1;
    var front, spec := units[..n], setup.specs[i];
    FileReading(setup, PartJudged(accepted, partDocs, n), units[n], i);
    if n == 0 {
      var only := PartJudged(accepted, partDocs, 0);
      assert Tiled(accepted, partDocs, 1) == [] + only == only;
      JoinLaws(UnitReading(units[0], spec.name), NOTHING, NOTHING);
    } else {
      PartsReadAsOne(setup, accepted, partDocs, front, i);
      JoinFiles(setup, spec, Tiled(accepted, partDocs, n), PartJudged(accepted, partDocs, n));
    }
  }

  // --- from documents to readings ---------------------------------------------

  lemma CampaignCounts(setup: Setup, accepted: seq<string>, partDocs: nat, units: seq<UnitFile>)
    requires setup.chunkChars > 0 && Campaign(setup, accepted, partDocs, units)
    ensures RowsCountUnits(units) && NoConflict(units)
    ensures forall k, family :: 0 <= k < |units| && family in units[k].families ==>
              Consistent(units[k].families[family].counters)
  {
    hide FileOf, Consistent;
    forall k, family | 0 <= k < |units| && family in units[k].families
      ensures units[k].families[family].counters.docs == units[k].stream.docsJudged
      ensures Consistent(units[k].families[family].counters)
    {
      FileCounts(setup, PartJudged(accepted, partDocs, k), units[k], family);
    }
  }

  // A file of a group is one of the files that were grouped.
  lemma MemberIsUnit(groups: seq<Group>, units: seq<UnitFile>, k: nat, p: nat)
    requires Grouped(groups, units) && k < |groups| && p < |groups[k].members|
    ensures groups[k].members[p] in units
  {
    hide Flatten, WellGrouped;
    var at := GroupInFlatten(groups, k);
    assert groups[k].members[p] == Flatten(groups)[at..at + |groups[k].members|][p] == Flatten(groups)[at + p];
    assert groups[k].members[p] in multiset(Flatten(groups));
  }

  lemma GroupStands(setup: Setup, accepted: seq<string>, partDocs: nat, units: seq<UnitFile>, groups: seq<Group>,
                    k: nat, i: nat)
    requires setup.chunkChars > 0 && Campaign(setup, accepted, partDocs, units) && Grouped(groups, units)
    requires k < |groups| && i < |setup.specs|
    ensures OneStream(groups[k]) && DisjointFamilies(groups[k]) && RowsCountUnits(groups[k].members)
    ensures JudgedIn(groups[k], setup.specs[i].name)
  {
    hide FileOf, NoConflict, OneStream, DisjointFamilies, Flatten, PartJudged;
    CampaignCounts(setup, accepted, partDocs, units);
    GroupsKeepApart(groups, units, k);
    KeyOf(groups, k);
    AgreeMeans(groups[k]);
    forall p | 0 <= p < |groups[k].members|
      ensures groups[k].members[p] in units
    {
      MemberIsUnit(groups, units, k, p);
    }
    MemberHasFamily(setup, accepted, partDocs, units, groups[k].members[0], i);
  }

  lemma MemberHasFamily(setup: Setup, accepted: seq<string>, partDocs: nat, units: seq<UnitFile>, unit: UnitFile,
                        i: nat)
    requires setup.chunkChars > 0 && Campaign(setup, accepted, partDocs, units) && unit in units && i < |setup.specs|
    ensures setup.specs[i].name in unit.families
  {
    hide PartJudged, RowOf;
    var k :| 0 <= k < |units| && units[k] == unit;
    assert FileOf(setup, PartJudged(accepted, partDocs, k), units[k]);
  }

  // The readings of a campaign in parts are those of one unit that judges the first `parts * partDocs`
  // accepted documents, in whatever order the files are merged; and its corpus counts just these.
  lemma CampaignConserves(setup: Setup, accepted: seq<string>, partDocs: nat, units: seq<UnitFile>, groups: seq<Group>,
                          merged: map<string, Merged>, i: nat)
    requires setup.chunkChars > 0 && partDocs >= 1 && Campaign(setup, accepted, partDocs, units) && units != []
    requires Grouped(groups, units) && MergedFrom(units, merged) && i < |setup.specs|
    ensures var read := accepted[..if |units| * partDocs < |accepted| then |units| * partDocs else |accepted|];
            && setup.specs[i].name in merged
            && merged[setup.specs[i].name].paths == Paths(setup.arm)
            && merged[setup.specs[i].name].counters == RowOf(setup, setup.specs[i], read).counters
            && merged[setup.specs[i].name].counters.docs == CorpusDocs(groups) == |read|
  {
    hide Campaign, FamilyReading, Grouped, OneStream, DisjointFamilies, RowsCountUnits, JudgedIn, Paths, Tiled,
         CorpusDocs;
    var name := setup.specs[i].name;
    FirstHasFamily(setup, accepted, partDocs, units, i);
    assert name in merged;
    PartsReadAsOne(setup, accepted, partDocs, units, i);
    PartsTile(accepted, partDocs, |units|);
    forall k | 0 <= k < |groups|
      ensures OneStream(groups[k]) && DisjointFamilies(groups[k]) && RowsCountUnits(groups[k].members)
      ensures JudgedIn(groups[k], name)
    {
      GroupStands(setup, accepted, partDocs, units, groups, k, i);
    }
    ReadingsConserve(units, groups, merged, name);
    var read := Tiled(accepted, partDocs, |units|);
    TallyFacts(setup.arm, setup.specs[i].encoders, Judgements(read, setup.chunkChars, setup.minChunk));
  }

  lemma FirstHasFamily(setup: Setup, accepted: seq<string>, partDocs: nat, units: seq<UnitFile>, i: nat)
    requires setup.chunkChars > 0 && Campaign(setup, accepted, partDocs, units) && units != [] && i < |setup.specs|
    ensures setup.specs[i].name in units[0].families
  {
    hide FileOf;
    MemberHasFamily(setup, accepted, partDocs, units, units[0], i);
  }
}
