/** One update of the registry: done twice it changes nothing, its check passes, and no other update breaks it. */
module RegistryChecks {
  import opened Registry
  import opened Wrappers

  // --- an update done twice ---------------------------------------------------

  lemma RowEditTwice(env: Env, w: Writer, v2: bool, row: Artifact)
    ensures EditRow(env, w, v2, EditRow(env, w, v2, row)) == EditRow(env, w, v2, row)
  {
  }

  lemma OracleEditTwice(env: Env, w: Writer, oracle: Oracle)
    requires ValidEnv(env)
    ensures EditOracle(env, w, EditOracle(env, w, oracle)) == EditOracle(env, w, oracle)
  {
    hide Listed;
    if w.Widening? && oracle.package == ORACLE_PACKAGE {
      var all := Listed(oracle.versions) + w.versions;
      ListedSorted(env, all);
      assert all + w.versions == all;
    }
  }

  lemma EditTwice(env: Env, w: Writer, v2: bool, d: Document)
    requires ValidEnv(env)
    ensures Edit(env, w, v2, Edit(env, w, v2, d)) == Edit(env, w, v2, d)
  {
    hide EditRow, EditOracle, Builds;
    var x := Edit(env, w, v2, d);
    forall i | 0 <= i < |d.artifacts| ensures EditRow(env, w, v2, x.artifacts[i]) == x.artifacts[i] {
      RowEditTwice(env, w, v2, d.artifacts[i]);
    }
    forall k | 0 <= k < |d.oracles| ensures EditOracle(env, w, x.oracles[k]) == x.oracles[k] {
      OracleEditTwice(env, w, d.oracles[k]);
    }
    assert Edit(env, w, v2, x).artifacts == x.artifacts && Edit(env, w, v2, x).oracles == x.oracles;
  }

  // Running a writer again changes nothing.
  lemma ApplyTwice(env: Env, w: Writer, d: Document)
    requires ValidEnv(env) && Accepts(w, d)
    ensures Apply(env, w, Apply(env, w, d).value) == Apply(env, w, d)
  {
    hide Accepts, Edit, Extends, WithRoot;
    var e := Edit(env, w, true, d);
    EditExtends(env, w, true, d);
    AcceptsKept(w, d, WithRoot(env, e));
    EditUnderRoot(env, w, true, e);
    EditTwice(env, w, true, d);
  }

  lemma Inhabited(s: set<string>) returns (f: string)
    requires |s| > 0
    ensures f in s
  {
    if exists f :: f in s {
      f :| f in s;
    }
  }

  // What a check infers from an updated document is that the identities are recorded.
  lemma UpdateRecordsV2(env: Env, w: Writer, d: Document)
    requires ValidEnv(env) && Accepts(w, d) && (w.FastCpu? || w.RustApi? || w.DirectJit?)
    ensures RecordsV2(w, WithRoot(env, Edit(env, w, true, d)))
  {
    hide RecordsSha, ValidReading, EditOracles, EditRow, CertifiedEntry, Builds, RootDigest, HasJit, Families;
    var e := Edit(env, w, true, d);
    match w
    case FastCpu(b) =>
      var f := Inhabited(b.loadable);
      var i := RowOfFamily(d.artifacts, f);
      RowRecordsV2(env, w, d.artifacts[i]);
      assert e.artifacts[i].fastCpu.Some? && SOURCE_V2 in e.artifacts[i].fastCpu.value;
    case RustApi(b) =>
      BuildRecordsV2(env, b);
    case DirectJit(r) =>
      var i := ReadingRow(r, d);
      RowRecordsV2(env, w, d.artifacts[i]);
      assert HasJit(e.artifacts[i]) && e.artifacts[i].gpu.value.deliveries.value.jit.value.directV2.Some?;
    case _ =>
  }

  lemma RowOfFamily(rows: seq<Artifact>, f: string) returns (i: nat)
    requires f in Families(rows)
    ensures i < |rows| && rows[i].family == f
  {
    i :| 0 <= i < |rows| && rows[i].family == f;
  }

  // A valid reading has a row, and so has the document.
  lemma ReadingRow(r: JitReading, d: Document) returns (i: nat)
    requires ValidReading(r, d)
    ensures i < |d.artifacts|
  {
    hide AdmitsRow;
    assert r.rows[0].family in (set k | 0 <= k < |r.rows| :: r.rows[k].family);
    i := RowOfFamily(d.artifacts, r.rows[0].family);
  }

  lemma RowRecordsV2(env: Env, w: Writer, row: Artifact)
    ensures w.FastCpu? && row.family in w.cpu.loadable ==>
              var r := EditRow(env, w, true, row); r.fastCpu.Some? && SOURCE_V2 in r.fastCpu.value
    ensures w.DirectJit? && HasJit(row) ==>
              var r := EditRow(env, w, true, row); HasJit(r) && r.gpu.value.deliveries.value.jit.value.directV2.Some?
  {
  }

  lemma BuildRecordsV2(env: Env, b: RustBinding)
    requires ValidEnv(env)
    ensures Builds(env, b, true) != [] && SOURCE_V2 in Builds(env, b, true)[0]
  {
  }

  lemma FlagIrrelevant(env: Env, w: Writer, d: Document)
    requires w.Fastokens? || w.LoaderFace? || w.Widening?
    ensures Edit(env, w, false, d) == Edit(env, w, true, d)
  {
    assert EditRows(env, w, false, d.artifacts) == EditRows(env, w, true, d.artifacts);
  }

  // --- the certified versions after an update ---------------------------------

  predicate HasRecord(oracles: seq<Oracle>) { exists k :: 0 <= k < |oracles| && oracles[k].package == ORACLE_PACKAGE }

  lemma {:induction false} EditedVersions(env: Env, w: Writer, oracles: seq<Oracle>)
    requires ValidEnv(env)
    ensures CertifiedVersions(EditOracles(env, w, oracles))
         == CertifiedVersions(oracles) + if w.Widening? && HasRecord(oracles) then w.versions else {}
  {
    hide Listed, ValidEnv, HasRecord, EditOracle;
    if oracles != [] {
      var n := |oracles| - 1;
      var front, last := oracles[..n], oracles[n];
      EditedVersions(env, w, front);
      assert EditOracles(env, w, oracles)[..n] == EditOracles(env, w, front);
      HasRecordSnoc(oracles);
      OracleVersions(env, w, last);
    } else {
      assert !HasRecord([]) by { NoRecord(); }
    }
  }

  lemma NoRecord()
    ensures !HasRecord([])
  {
  }

  lemma HasRecordSnoc(oracles: seq<Oracle>)
    requires oracles != []
    ensures HasRecord(oracles) <==>
              HasRecord(oracles[..|oracles| - 1]) || oracles[|oracles| - 1].package == ORACLE_PACKAGE
  {
    var front := oracles[..|oracles| - 1];
    if HasRecord(oracles) && oracles[|oracles| - 1].package != ORACLE_PACKAGE {
      var k :| 0 <= k < |oracles| && oracles[k].package == ORACLE_PACKAGE;
      assert front[k].package == ORACLE_PACKAGE;
    }
    if HasRecord(front) {
      var k :| 0 <= k < |front| && front[k].package == ORACLE_PACKAGE;
      assert oracles[k].package == ORACLE_PACKAGE;
    }
  }

  lemma OracleVersions(env: Env, w: Writer, oracle: Oracle)
    requires ValidEnv(env)
    ensures EditOracle(env, w, oracle).package == oracle.package
    ensures Listed(EditOracle(env, w, oracle).versions)
         == Listed(oracle.versions) + if w.Widening? && oracle.package == ORACLE_PACKAGE then w.versions else {}
  {
    hide Listed;
    if w.Widening? && oracle.package == ORACLE_PACKAGE {
      ListedSorted(env, Listed(oracle.versions) + w.versions);
    }
  }

  lemma WideningHasRecord(w: Writer, d: Document)
    requires w.Widening? && Accepts(w, d)
    ensures HasRecord(d.oracles)
  {
  }

  // What an update leaves of the certified versions, under a root digest of its own.
  lemma UpdatedVersions(env: Env, w: Writer, d: Document)
    requires ValidEnv(env) && Accepts(w, d)
    ensures var e := Apply(env, w, d).value;
            && CertifiedVersions(e.oracles) == CertifiedVersions(d.oracles) + (if w.Widening? then w.versions else {})
            && e.root == Some(RootDigest(env, e))
  {
    hide Accepts, CertifiedVersions, EditRows, HasRecord;
    EditedVersions(env, w, d.oracles);
    if w.Widening? { WideningHasRecord(w, d); }
  }

  // --- checks stay at their fixed point ---------------------------------------

  // Right after an update the writer's own check passes, with the flag inferred back; that of a
  // widening passes exactly when all that is certified now fits the evidence.
  lemma UpdateIsChecked(env: Env, w: Writer, d: Document)
    requires ValidEnv(env) && Accepts(w, d)
    ensures Checked(env, w, Apply(env, w, d).value) <==>
              (w.Widening? ==> EvidenceFits(w.evidence, CertifiedVersions(d.oracles) + w.versions))
  {
    hide Accepts, WithRoot, RecordsV2, EditOracles, CertifiedVersions, EvidenceFits;
    ApplyTwice(env, w, d);
    var e := Apply(env, w, d).value;
    if w.Widening? {
      UpdatedVersions(env, w, d);
    } else if w.LoaderFace? {
      assert e.artifacts == EditRows(env, w, true, d.artifacts) by { RootKeeps(env, Edit(env, w, true, d)); }
    } else if w.Fastokens? {
      FlagIrrelevant(env, w, e);
    } else {
      UpdateRecordsV2(env, w, d);
    }
  }

  lemma RootKeeps(env: Env, d: Document)
    ensures WithRoot(env, d).artifacts == d.artifacts && WithRoot(env, d).oracles == d.oracles
  {
  }

  // What a widening adds is in range and, but for the embedded reference, has its readings.
  predicate Attests(e: Evidence, versions: set<string>) {
    versions <= e.inRange && versions - {EMBEDDED_REFERENCE} <= e.evidenced
  }

  // A passing check still passes after a writer of other fields has updated the document. Of two
  // widenings it does exactly when the evidence of the first covers what the second adds, and always
  // when they go by the same evidence.
  lemma CheckKept(env: Env, w: Writer, other: Writer, d: Document)
    requires ValidEnv(env) && Apart(w, other) && Checked(env, w, d) && Accepts(other, d)
    ensures Checked(env, w, Apply(env, other, d).value) <==>
              (w.Widening? && other.Widening? ==> Attests(w.evidence, other.versions))
    ensures w.Widening? && other.Widening? && w.evidence == other.evidence ==>
              Checked(env, w, Apply(env, other, d).value)
  {
    hide Accepts, Edit, Extends, WithRoot, RecordsV2, CertifiedVersions;
    var e := Apply(env, other, d).value;
    if w.Widening? {
      UpdatedVersions(env, other, d);
      if other.Widening? { WideningAttests(other, d); }
    } else if w.LoaderFace? {
      FacesKept(env, other, d);
    } else {
      var v := RecordsV2(w, d);
      FlagKept(env, w, other, d);
      EditExtends(env, other, true, d);
      AcceptsKept(w, d, e);
      EditUnderRoot(env, w, v, Edit(env, other, true, d));
      EditsCommute(env, other, true, w, v, d);
      EditUnderRoot(env, other, true, Edit(env, w, v, d));
    }
  }

  lemma WideningAttests(w: Writer, d: Document)
    requires w.Widening? && Accepts(w, d)
    ensures w.versions - {EMBEDDED_REFERENCE} <= w.evidence.inRange
    ensures w.versions - {EMBEDDED_REFERENCE} <= w.evidence.evidenced
  {
  }

  lemma FacesKept(env: Env, other: Writer, d: Document)
    requires !other.LoaderFace?
    ensures var e := WithRoot(env, Edit(env, other, true, d));
            |e.artifacts| == |d.artifacts|
            && forall i :: 0 <= i < |d.artifacts| ==>
               e.artifacts[i].face == d.artifacts[i].face && e.artifacts[i].family == d.artifacts[i].family
  {
  }

  lemma FlagKept(env: Env, w: Writer, other: Writer, d: Document)
    requires Apart(w, other) && !w.Widening?
    ensures RecordsV2(w, WithRoot(env, Edit(env, other, true, d))) == RecordsV2(w, d)
  {
    var e := Edit(env, other, true, d);
    forall i | 0 <= i < |d.artifacts|
      ensures w.FastCpu? ==> e.artifacts[i].fastCpu == d.artifacts[i].fastCpu
      ensures w.DirectJit? ==> e.artifacts[i].gpu == d.artifacts[i].gpu
    {
    }
    assert w.RustApi? ==> e.runtimeBuilds == d.runtimeBuilds;
  }

  // --- what stands in the document at the end ---------------------------------

  // The document holds what the writer was given, row by row, said without its edits.
  ghost predicate Recorded(env: Env, w: Writer, d: Document) {
    match w
    case FastCpu(b) =>
      forall i :: 0 <= i < |d.artifacts| ==> RecordsCpu(env, b, d.artifacts[i])
    case RustApi(b) =>
      |d.runtimeBuilds| == 1 + |b.additional|
      && forall k :: 0 <= k < |d.runtimeBuilds| ==>
           RecordsBuild(env, b, if k == 0 then b.build else b.additional[k - 1], d.runtimeBuilds[k])
    case DirectJit(r) =>
      forall i :: 0 <= i < |d.artifacts| ==> RecordsJit(env, r, d.artifacts[i])
    case Fastokens(b) => "fastokens" in d.distributions && d.distributions["fastokens"] == b.node
    case LoaderFace(cache) =>
      forall i :: 0 <= i < |d.artifacts| ==>
        d.artifacts[i].family in cache && d.artifacts[i].face == Some(cache[d.artifacts[i].family].face)
    case Widening(_, versions) =>
      forall k :: 0 <= k < |d.oracles| && d.oracles[k].package == "tokenizers" ==>
          RecordsVersions(versions, d.oracles[k])
  }

  // A certified family records the certified facts and the tree's identity, any other the refusal.
  ghost predicate RecordsCpu(env: Env, b: FastCpuBinding, row: Artifact) {
    && row.fastCpu.Some?
    && if row.family in b.loadable then
         && row.fastCpu.value.Keys == b.certified.Keys + {"source_digest_v2"}
         && row.fastCpu.value["source_digest_v2"] == env.fastCpuV2
         && forall key :: key in b.certified && key != "source_digest_v2" ==> row.fastCpu.value[key] == b.certified[key]
       else row.family in b.rejected && row.fastCpu.value == b.unsupported
  }

  // A build keeps its own facts, holds every identity it does not itself redefine and the common
  // facts behind both, and nothing else.
  ghost predicate RecordsBuild(env: Env, b: RustBinding, own: Fields, build: Fields) {
    && (forall key :: key in own ==> key in build && build[key] == own[key])
    && (forall key :: key in env.rustApiV2 && key !in own ==> key in build && build[key] == env.rustApiV2[key])
    && (forall key :: key in b.common && key !in own && key !in env.rustApiV2 ==>
          key in build && build[key] == b.common[key])
    && forall key :: key in build ==> key in own || key in env.rustApiV2 || key in b.common
  }

  ghost predicate RecordsJit(env: Env, r: JitReading, row: Artifact) {
    && HasJit(row)
    && var jit := row.gpu.value.deliveries.value.jit.value;
       jit.direct == r.direct && jit.directV2 == Some(env.nativeHostV2)
  }

  ghost predicate RecordsVersions(versions: set<string>, oracle: Oracle) {
    forall v :: v in versions ==> v in oracle.versions
  }

  lemma RowRecorded(env: Env, w: Writer, row: Artifact)
    ensures w.FastCpu? && (row.family in w.cpu.loadable || row.family in w.cpu.rejected) ==>
              RecordsCpu(env, w.cpu, EditRow(env, w, true, row))
    ensures w.DirectJit? && HasJit(row) ==> RecordsJit(env, w.reading, EditRow(env, w, true, row))
  {
  }

  lemma BuildRecorded(env: Env, b: RustBinding, k: nat)
    requires k <= |b.additional|
    ensures |Builds(env, b, true)| == 1 + |b.additional|
    ensures RecordsBuild(env, b, if k == 0 then b.build else b.additional[k - 1], Builds(env, b, true)[k])
  {
    var all := [b.build] + b.additional;
    assert Builds(env, b, true)[k] == (b.common + env.rustApiV2) + all[k];
  }

  lemma OracleRecorded(env: Env, w: Writer, oracle: Oracle)
    requires ValidEnv(env) && w.Widening? && oracle.package == ORACLE_PACKAGE
    ensures RecordsVersions(w.versions, EditOracle(env, w, oracle))
  {
    var now := Listed(oracle.versions) + w.versions;
    assert forall v :: v in w.versions ==> v in now && v in env.sorted(now);
  }

  lemma UpdateIsRecorded(env: Env, w: Writer, d: Document)
    requires ValidEnv(env) && Accepts(w, d)
    ensures Recorded(env, w, Apply(env, w, d).value)
  {
    hide RecordsSha, ValidReading, RecordsCpu, RecordsJit, RecordsBuild, RecordsVersions, EditRow, EditOracle,
         ValidEnv, RootDigest;
    var e := Edit(env, w, true, d);
    match w
    case FastCpu(b) =>
      forall i | 0 <= i < |e.artifacts| ensures RecordsCpu(env, b, e.artifacts[i]) {
        assert d.artifacts[i].family in Families(d.artifacts);
        RowRecorded(env, w, d.artifacts[i]);
      }
    case RustApi(b) =>
      BuildRecorded(env, b, 0);
      forall k | 0 <= k < |e.runtimeBuilds|
        ensures RecordsBuild(env, b, if k == 0 then b.build else b.additional[k - 1], e.runtimeBuilds[k])
      {
        BuildRecorded(env, b, k);
      }
    case DirectJit(r) =>
      forall i | 0 <= i < |e.artifacts|
        ensures RecordsJit(env, r, e.artifacts[i])
      {
        RowRecorded(env, w, d.artifacts[i]);
      }
    case Fastokens(b) =>
    case LoaderFace(cache) => FacesRecorded(env, w, d);
    case Widening(_, versions) =>
      forall k | 0 <= k < |e.oracles| && e.oracles[k].package == ORACLE_PACKAGE
        ensures RecordsVersions(versions, e.oracles[k])
      {
        OracleKeepsPackage(env, w, d.oracles[k]);
        OracleRecorded(env, w, d.oracles[k]);
      }
  }

  lemma OracleKeepsPackage(env: Env, w: Writer, oracle: Oracle)
    ensures EditOracle(env, w, oracle).package == oracle.package
  {
  }

  lemma FacesRecorded(env: Env, w: Writer, d: Document)
    requires w.LoaderFace? && AcceptsCache(w.cache, d)
    ensures Recorded(env, w, Edit(env, w, true, d))
  {
  }
}
