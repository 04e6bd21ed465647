/** The writers as the tools run them: loops over rows that are copied and assigned one by one. */
module RegistryWriters {
  import opened Registry
  import opened Wrappers

  function Flag(includeV2: Option<bool>, w: Writer, d: Document): bool {
    if includeV2.Some? then includeV2.value else RecordsV2(w, d)
  }

  // --- update_fast_cpu_registry, update_loader_face_registry: assigned in place ---

  method AssignRows(env: Env, w: Writer, v2: bool, rows: array<Artifact>)
    requires w.FastCpu? || w.LoaderFace?
    modifies rows
    ensures rows[..] == EditRows(env, w, v2, old(rows[..]))
  {
    for i := 0 to rows.Length
      invariant forall k :: 0 <= k < i ==> rows[k] == EditRow(env, w, v2, old(rows[k]))
      invariant forall k :: i <= k < rows.Length ==> rows[k] == old(rows[k])
    {
      match w {
        case FastCpu(b) =>
          if rows[i].family in b.loadable {
            var entry := b.certified;
            if v2 { entry := entry[SOURCE_V2 := env.fastCpuV2]; }
            rows[i] := rows[i].(fastCpu := Some(entry));
          } else if rows[i].family in b.rejected {
            rows[i] := rows[i].(fastCpu := Some(b.unsupported));
          }
        case LoaderFace(cache) =>
          if rows[i].family in cache {
            rows[i] := rows[i].(face := Some(cache[rows[i].family].face));
          }
      }
    }
  }

  method AugmentRows(env: Env, w: Writer, includeV2: Option<bool>, d: Document) returns (r: Option<Document>)
    requires w.FastCpu? || w.LoaderFace?
    ensures r == Augmented(env, w, Flag(includeV2, w, d), d)
  {
    hide Accepts, RecordsV2, EditRow;
    if !Accepts(w, d) { return None; }
    var rows := new Artifact[|d.artifacts|](i requires 0 <= i < |d.artifacts| => d.artifacts[i]);
    assert rows[..] == d.artifacts;
    AssignRows(env, w, Flag(includeV2, w, d), rows);
    assert EditOracles(env, w, d.oracles) == d.oracles;
    r := Some(WithRoot(env, d.(artifacts := rows[..])));
  }

  // Rows whose recorded face is missing or differs from the observed one.
  method FaceProblems(env: Env, cache: map<string, Cached>, d: Document) returns (problems: seq<string>)
    ensures problems == [] <==> Checked(env, LoaderFace(cache), d)
    ensures forall f :: f in problems <==>
              exists i :: 0 <= i < |d.artifacts| && d.artifacts[i].family == f && f in cache
                          && d.artifacts[i].face != Some(cache[f].face)
  {
    problems := [];
    for i := 0 to |d.artifacts|
      invariant problems == [] <==>
                  forall k :: 0 <= k < i && d.artifacts[k].family in cache ==>
                      d.artifacts[k].face == Some(cache[d.artifacts[k].family].face)
      invariant forall f :: f in problems <==>
                  exists k :: 0 <= k < i && d.artifacts[k].family == f && f in cache
                      && d.artifacts[k].face != Some(cache[f].face)
    {
      var row := d.artifacts[i];
      if row.family in cache && row.face != Some(cache[row.family].face) {
        problems := problems + [row.family];
      }
    }
  }

  // --- update_direct_jit_registry: copied and appended ------------------------

  method ValidateJit(r: JitReading, d: Document) returns (ok: bool)
    ensures ok <==> ValidReading(r, d)
  {
    hide AdmitsRow;
    if !r.sound || |r.rows| != MATRIX_FAMILIES { return false; }
    var families: set<string> := {};
    for k := 0 to |r.rows|
      invariant forall l :: 0 <= l < k ==> AdmitsRow(d, r.rows[l])
      invariant families == set l | 0 <= l < k :: r.rows[l].family
    {
      if !AdmitsRow(d, r.rows[k]) { return false; }
      families := families + {r.rows[k].family};
    }
    ok := families == Families(d.artifacts);
  }

  method AugmentJit(env: Env, r: JitReading, includeV2: Option<bool>, d: Document) returns (result: Option<Document>)
    ensures result == Augmented(env, DirectJit(r), Flag(includeV2, DirectJit(r), d), d)
  {
    hide ValidReading, RecordsV2, HasJit;
    var ok := ValidateJit(r, d);
    if !ok { return None; }
    var v2 := Flag(includeV2, DirectJit(r), d);
    var artifacts: seq<Artifact> := [];
    for i := 0 to |d.artifacts|
      invariant forall k :: 0 <= k < i ==> HasJit(d.artifacts[k])
      invariant |artifacts| == i && forall k :: 0 <= k < i ==> artifacts[k] == BindJit(env, r, v2, d.artifacts[k])
    {
      if !HasJit(d.artifacts[i]) { return None; }
      artifacts := artifacts + [BindJit(env, r, v2, d.artifacts[i])];
    }
    assert artifacts == EditRows(env, DirectJit(r), v2, d.artifacts);
    assert EditOracles(env, DirectJit(r), d.oracles) == d.oracles;
    result := Some(WithRoot(env, d.(artifacts := artifacts)));
  }

  // --- update_oracle_certified_versions ---------------------------------------

  method WidenedDocument(env: Env, e: Evidence, versions: set<string>, d: Document) returns (r: Document)
    ensures r == WithRoot(env, Edit(env, Widening(e, versions), true, d))
  {
    var oracles: seq<Oracle> := [];
    for k := 0 to |d.oracles|
      invariant |oracles| == k
      invariant forall l :: 0 <= l < k ==> oracles[l] == EditOracle(env, Widening(e, versions), d.oracles[l])
    {
      var record := d.oracles[k];
      if record.package == ORACLE_PACKAGE {
        record := record.(versions := env.sorted(Listed(record.versions) + versions));
      }
      oracles := oracles + [record];
    }
    assert oracles == EditOracles(env, Widening(e, versions), d.oracles);
    assert EditRows(env, Widening(e, versions), true, d.artifacts) == d.artifacts;
    r := WithRoot(env, d.(oracles := oracles));
  }

  // Refused when no record is one of the oracle package.
  method GatherCertified(oracles: seq<Oracle>) returns (r: Option<set<string>>)
    ensures r.Some? <==> exists k :: 0 <= k < |oracles| && oracles[k].package == ORACLE_PACKAGE
    ensures r.Some? ==> r.value == CertifiedVersions(oracles)
    ensures r.Some? ==> forall v :: v in r.value <==>
              exists k :: 0 <= k < |oracles| && oracles[k].package == ORACLE_PACKAGE && v in oracles[k].versions
  {
    hide Listed;
    var versions: set<string> := {};
    var named := false;
    for k := 0 to |oracles|
      invariant named <==> exists l :: 0 <= l < k && oracles[l].package == ORACLE_PACKAGE
      invariant versions == CertifiedVersions(oracles[..k])
      invariant forall v :: v in versions <==>
                  exists l :: 0 <= l < k && oracles[l].package == ORACLE_PACKAGE && v in oracles[l].versions
    {
      assert oracles[..k + 1][..k] == oracles[..k];
      if oracles[k].package == ORACLE_PACKAGE {
        ListedIs(oracles[k].versions);
        versions := versions + Listed(oracles[k].versions);
        named := true;
      }
    }
    assert oracles[..|oracles|] == oracles;
    r := if named then Some(versions) else None;
  }

  lemma ListedIs(versions: seq<string>)
    ensures forall v :: v in Listed(versions) <==> v in versions
  {
  }

  // --- update_fastokens_registry: the guarded code points ---------------------

  ghost predicate AscendingRanges(ranges: seq<(nat, nat)>) {
    && (forall i :: 0 <= i < |ranges| ==> ranges[i].0 <= ranges[i].1)
    && (forall i, j :: 0 <= i < j < |ranges| ==> ranges[i].1 < ranges[j].0)
  }

  function Points(low: nat, high: nat): (r: seq<nat>)
    requires low <= high
    ensures |r| == high + 1 - low && forall i :: 0 <= i < |r| ==> r[i] == low + i
  {
    seq(high + 1 - low, i requires 0 <= i < high + 1 - low => low + i)
  }

  lemma ExtendAscending(out: seq<nat>, previousEnd: int, low: nat, high: nat)
    requires low <= high && previousEnd < low
    requires forall c :: c in out ==> c <= previousEnd
    requires forall i, j :: 0 <= i < j < |out| ==> out[i] < out[j]
    ensures var r := out + Points(low, high);
            && (forall i, j :: 0 <= i < j < |r| ==> r[i] < r[j])
            && (forall c :: c in r <==> c in out || low <= c <= high)
            && forall c :: c in r ==> c <= high
  {
    var r := out + Points(low, high);
    forall c | low <= c <= high
      ensures c in r
    {
      assert r[|out| + c - low] == c;
    }
    assert forall i :: 0 <= i < |out| ==> r[i] == out[i] && out[i] in out;
  }

  // Ranges are taken exactly when they ascend without touching points twice; then the code points
  // are those of the ranges, each once and in order.
  method GuardCodepoints(ranges: seq<(nat, nat)>) returns (r: Option<seq<nat>>)
    ensures r.Some? <==> AscendingRanges(ranges)
    ensures r.Some? ==>
              && (forall i, j :: 0 <= i < j < |r.value| ==> r.value[i] < r.value[j])
              && forall c :: c in r.value <==> exists k :: 0 <= k < |ranges| && ranges[k].0 <= c <= ranges[k].1
  {
    var out: seq<nat> := [];
    var previousEnd: int := -1;
    for k := 0 to |ranges|
      invariant previousEnd == (if k == 0 then -1 else ranges[k - 1].1) && AscendingRanges(ranges[..k])
      invariant forall c :: c in out ==> c <= previousEnd
      invariant forall i, j :: 0 <= i < j < |out| ==> out[i] < out[j]
      invariant forall c :: c in out <==> exists l :: 0 <= l < k && ranges[l].0 <= c <= ranges[l].1
    {
      var (low, high) := ranges[k];
      if low > high || low <= previousEnd {
        assert ranges[..k + 1] == ranges[..k] + [ranges[k]];
        return None;
      }
      assert forall l :: 0 <= l < k ==> ranges[..k][l] == ranges[l] && ranges[l].1 <= previousEnd;
      ghost var before := out;
      ExtendAscending(out, previousEnd, low, high);
      out := out + Points(low, high);
      forall c
        ensures c in out <==> exists l :: 0 <= l < k + 1 && ranges[l].0 <= c <= ranges[l].1
      {
        assert c in out <==> c in before || (ranges[k].0 <= c <= ranges[k].1);
      }
      previousEnd := high;
    }
    assert ranges[..|ranges|] == ranges;
    r := Some(out);
  }
}
