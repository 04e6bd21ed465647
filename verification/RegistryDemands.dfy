/** What each operation asks of the document before it writes, said of its rows and records one by one. */
module RegistryDemands {
  import opened Registry
  import opened RegistrySyncs
  import opened Wrappers

  // A dictionary by family keeps the last row of each, one by id the last record.
  ghost predicate LastRow(d: Document, i: int) {
    0 <= i < |d.artifacts| && forall j :: i < j < |d.artifacts| ==> d.artifacts[j].family != d.artifacts[i].family
  }

  ghost predicate LastOracle(d: Document, k: int) {
    0 <= k < |d.oracles| && forall l :: k < l < |d.oracles| ==> d.oracles[l].id != d.oracles[k].id
  }

  lemma {:induction false} RowAt(d: Document, n: nat, family: string)
    requires n <= |d.artifacts| && forall j :: n <= j < |d.artifacts| ==> d.artifacts[j].family != family
    ensures var row := RowOf(d.artifacts[..n], family);
            && (row.Some? ==>
                  exists i :: LastRow(d, i) && d.artifacts[i].family == family && row.value == d.artifacts[i])
            && (row.None? ==> forall i :: 0 <= i < |d.artifacts| ==> d.artifacts[i].family != family)
  {
    if n > 0 {
      assert d.artifacts[..n][..n - 1] == d.artifacts[..n - 1];
      if d.artifacts[n - 1].family == family {
        assert LastRow(d, n - 1);
      } else {
        RowAt(d, n - 1, family);
      }
    }
  }

  lemma RowIsLast(d: Document, family: string)
    ensures var row := RowOf(d.artifacts, family);
            && (row.Some? <==> exists i :: LastRow(d, i) && d.artifacts[i].family == family)
            && (forall i :: LastRow(d, i) && d.artifacts[i].family == family ==> row == Some(d.artifacts[i]))
  {
    RowAt(d, |d.artifacts|, family);
    assert d.artifacts[..|d.artifacts|] == d.artifacts;
  }

  lemma {:induction false} OracleAt(d: Document, n: nat, id: string)
    requires n <= |d.oracles| && forall l :: n <= l < |d.oracles| ==> d.oracles[l].id != id
    ensures var oracle := OracleOf(d.oracles[..n], id);
            && (oracle.Some? ==> exists k :: LastOracle(d, k) && d.oracles[k].id == id && oracle.value == d.oracles[k])
            && (oracle.None? ==> forall k :: 0 <= k < |d.oracles| ==> d.oracles[k].id != id)
  {
    if n > 0 {
      assert d.oracles[..n][..n - 1] == d.oracles[..n - 1];
      if d.oracles[n - 1].id == id {
        assert LastOracle(d, n - 1);
      } else {
        OracleAt(d, n - 1, id);
      }
    }
  }

  lemma OracleIsLast(d: Document, id: string)
    ensures var oracle := OracleOf(d.oracles, id);
            && (oracle.Some? <==> exists k :: LastOracle(d, k) && d.oracles[k].id == id)
            && (forall k :: LastOracle(d, k) && d.oracles[k].id == id ==> oracle == Some(d.oracles[k]))
  {
    OracleAt(d, |d.oracles|, id);
    assert d.oracles[..|d.oracles|] == d.oracles;
  }

  // The row by family bears this digest.
  ghost predicate Bears(d: Document, family: string, sha256: string) {
    exists i :: LastRow(d, i) && d.artifacts[i].family == family && d.artifacts[i].sha256 == sha256
  }

  lemma RecordsShaMeans(d: Document, recorded: map<string, string>)
    ensures RecordsSha(d.artifacts, recorded) <==> forall f :: f in recorded ==> Bears(d, f, recorded[f])
  {
    hide RowOf, LastRow;
    forall f | f in recorded
      ensures Bears(d, f, recorded[f]) <==>
                RowOf(d.artifacts, f).Some? && RowOf(d.artifacts, f).value.sha256 == recorded[f]
    {
      RowIsLast(d, f);
    }
  }

  ghost predicate HasFamily(d: Document, f: string) { exists i :: 0 <= i < |d.artifacts| && d.artifacts[i].family == f }

  lemma BearsFamily(d: Document, f: string, sha256: string)
    requires Bears(d, f, sha256)
    ensures HasFamily(d, f)
  {
  }

  lemma FamiliesAre(d: Document)
    ensures forall f :: f in Families(d.artifacts) <==> HasFamily(d, f)
  {
  }

  // --- the six writers --------------------------------------------------------

  // Eleven families, each loadable and rejected by nobody, whose rows bear the digests both readings
  // recorded; the readings are of these families, and any other row is of a rejected one.
  lemma FastCpuDemands(env: Env, b: FastCpuBinding, d: Document)
    ensures Step(env, Update(FastCpu(b)), d).Some? <==>
              && b.sound && |b.loadable| == 11
              && (forall f :: f in b.loadable ==>
                    && f !in b.rejected && f in b.repair && f in b.parity
                    && Bears(d, f, b.repair[f]) && Bears(d, f, b.parity[f]))
              && (forall f :: f in b.repair || f in b.parity ==> f in b.loadable)
              && (forall i :: 0 <= i < |d.artifacts| ==>
                    d.artifacts[i].family in b.loadable || d.artifacts[i].family in b.rejected)
  {
    hide RecordsSha, Bears, RootDigest, Families, EditOp, HasFamily;
    RecordsShaMeans(d, b.repair);
    RecordsShaMeans(d, b.parity);
    FamiliesAre(d);
    forall f | f in b.repair && Bears(d, f, b.repair[f])
      ensures f in Families(d.artifacts)
    {
      BearsFamily(d, f, b.repair[f]);
    }
    Covered(Families(d.artifacts), b.loadable, b.rejected);
    assert b.repair.Keys == b.loadable <==> forall f :: f in b.repair <==> f in b.loadable;
    assert b.parity.Keys == b.loadable <==> forall f :: f in b.parity <==> f in b.loadable;
    assert (forall i :: 0 <= i < |d.artifacts| ==>
              d.artifacts[i].family in b.loadable || d.artifacts[i].family in b.rejected)
      <==> forall f :: f in Families(d.artifacts) ==> f in b.loadable || f in b.rejected by {
      assert forall i :: 0 <= i < |d.artifacts| ==> d.artifacts[i].family in Families(d.artifacts);
    }
  }

  lemma Covered(all: set<string>, loadable: set<string>, rejected: set<string>)
    ensures loadable <= all && all == loadable + rejected * all <==>
              (forall f :: f in loadable ==> f in all) && forall f :: f in all ==> f in loadable || f in rejected
  {
    if (forall f :: f in loadable ==> f in all) && forall f :: f in all ==> f in loadable || f in rejected {
      assert all == loadable + rejected * all;
    }
  }

  // Fifteen families in the document, and every matrix is of exactly these.
  lemma RustDemands(env: Env, b: RustBinding, d: Document)
    ensures Step(env, Update(RustApi(b)), d).Some? <==>
              && b.sound && |set i | 0 <= i < |d.artifacts| :: d.artifacts[i].family| == 15
              && forall k, f :: 0 <= k < |b.matrices| ==> (f in b.matrices[k] <==> HasFamily(d, f))
  {
    hide RootDigest, EditOp, HasFamily, Families;
    FamiliesAre(d);
    CountFamilies(d);
    forall k | 0 <= k < |b.matrices|
      ensures b.matrices[k] == Families(d.artifacts) <==> forall f :: f in b.matrices[k] <==> HasFamily(d, f)
    {
      if forall f :: f in b.matrices[k] <==> HasFamily(d, f) {
        assert b.matrices[k] == Families(d.artifacts);
      }
    }
  }

  lemma CountFamilies(d: Document)
    ensures Families(d.artifacts) == set i | 0 <= i < |d.artifacts| :: d.artifacts[i].family
  {
  }

  // The reading's row is of an artifact as the document holds it, whose oracle certifies its release.
  ghost predicate Backs(d: Document, row: JitRow) {
    && (exists i :: LastRow(d, i) && d.artifacts[i].family == row.family && d.artifacts[i].sha256 == row.sha256
                    && d.artifacts[i].oracleId == row.oracleId && d.artifacts[i].evidenceId == row.evidenceId)
    && (exists k :: LastOracle(d, k) && d.oracles[k].id == row.oracleId && row.oracleVersion in d.oracles[k].versions)
  }

  lemma AdmitsMeans(d: Document, row: JitRow)
    ensures AdmitsRow(d, row) <==> Backs(d, row)
  {
    hide RowOf, OracleOf, LastRow, LastOracle;
    RowIsLast(d, row.family);
    OracleIsLast(d, row.oracleId);
  }

  ghost predicate Reads(r: JitReading, family: string) {
    exists k :: 0 <= k < |r.rows| && r.rows[k].family == family
  }

  // Fifteen rows, each backed by the document, of every family in it; every artifact has the delivery.
  lemma JitDemands(env: Env, r: JitReading, d: Document)
    ensures Step(env, Update(DirectJit(r)), d).Some? <==>
              && r.sound && |r.rows| == 15
              && (forall k :: 0 <= k < |r.rows| ==> Backs(d, r.rows[k]))
              && (forall i :: 0 <= i < |d.artifacts| ==>
                    && Reads(r, d.artifacts[i].family)
                    && d.artifacts[i].gpu.Some? && d.artifacts[i].gpu.value.deliveries.Some?
                    && d.artifacts[i].gpu.value.deliveries.value.jit.Some?)
  {
    hide AdmitsRow, RootDigest, Backs, HasFamily, Families, EditOp;
    FamiliesAre(d);
    forall k | 0 <= k < |r.rows|
      ensures AdmitsRow(d, r.rows[k]) <==> Backs(d, r.rows[k])
      ensures Backs(d, r.rows[k]) ==> HasFamily(d, r.rows[k].family)
    {
      AdmitsMeans(d, r.rows[k]);
      BackedFamily(d, r.rows[k]);
    }
    var read := set k | 0 <= k < |r.rows| :: r.rows[k].family;
    assert forall f :: f in read <==> Reads(r, f);
    if forall k :: 0 <= k < |r.rows| ==> Backs(d, r.rows[k]) {
      assert read <= Families(d.artifacts);
      assert Families(d.artifacts) == read <==>
             forall i :: 0 <= i < |d.artifacts| ==> d.artifacts[i].family in read by {
        assert forall i :: 0 <= i < |d.artifacts| ==> HasFamily(d, d.artifacts[i].family) by {
          EachHasItsFamily(d);
        }
        InRows(d, read);
      }
    }
  }

  lemma EachHasItsFamily(d: Document)
    ensures forall i :: 0 <= i < |d.artifacts| ==> HasFamily(d, d.artifacts[i].family)
  {
  }

  lemma InRows(d: Document, read: set<string>)
    ensures Families(d.artifacts) <= read <==> forall i :: 0 <= i < |d.artifacts| ==> d.artifacts[i].family in read
  {
  }

  lemma BackedFamily(d: Document, row: JitRow)
    ensures Backs(d, row) ==> HasFamily(d, row.family)
  {
  }

  lemma FastokensDemands(env: Env, b: FastokensBinding, d: Document)
    ensures Step(env, Update(Fastokens(b)), d).Some? <==>
              && b.sound && (forall f :: f in b.families ==> Bears(d, f, b.families[f]))
              && exists k :: 0 <= k < |d.oracles| && d.oracles[k].package == b.package
                             && b.version in d.oracles[k].versions
  {
    hide RecordsSha, Bears, RootDigest;
    RecordsShaMeans(d, b.families);
  }

  lemma FaceDemands(env: Env, cache: map<string, Cached>, d: Document)
    ensures Step(env, Update(LoaderFace(cache)), d).Some? <==>
              forall i :: 0 <= i < |d.artifacts| ==>
                d.artifacts[i].family in cache && cache[d.artifacts[i].family].sha256 == d.artifacts[i].sha256
  {
  }

  // Every release but the embedded reference is in range and has readings without problems.
  lemma WideningDemands(env: Env, e: Evidence, versions: set<string>, d: Document)
    ensures Step(env, Update(Widening(e, versions)), d).Some? <==>
              && (forall v :: v in versions && v != "0.22.2" ==> v in e.inRange && v in e.evidenced)
              && exists k :: 0 <= k < |d.oracles| && d.oracles[k].package == "tokenizers"
  {
    hide RootDigest, EditOp;
    assert versions - {"0.22.2"} <= e.inRange * e.evidenced <==>
           forall v :: v in versions && v != "0.22.2" ==> v in e.inRange && v in e.evidenced by {
      if forall v :: v in versions && v != "0.22.2" ==> v in e.inRange && v in e.evidenced {
        assert forall v :: v in versions - {"0.22.2"} ==> v in e.inRange * e.evidenced;
      } else {
        var v :| v in versions && v != "0.22.2" && !(v in e.inRange && v in e.evidenced);
        assert v in versions - {"0.22.2"};
      }
    }
  }

  // The document certifies this release of the oracle package.
  ghost predicate Lists(d: Document, v: string) {
    exists k :: 0 <= k < |d.oracles| && d.oracles[k].package == "tokenizers" && v in d.oracles[k].versions
  }

  lemma {:induction false} VersionsAre(oracles: seq<Oracle>, v: string)
    ensures v in CertifiedVersions(oracles) <==>
              exists k :: 0 <= k < |oracles| && oracles[k].package == "tokenizers" && v in oracles[k].versions
  {
    if oracles != [] { VersionsAre(oracles[..|oracles| - 1], v); }
  }

  // The check of the certified releases: the embedded reference is among them, each is in range and,
  // but for the reference, has readings without problems, and no release with a reading is left out.
  lemma WideningCheckDemands(env: Env, e: Evidence, versions: set<string>, d: Document)
    ensures Checked(env, Widening(e, versions), d) <==>
              && d.root == Some(env.digest(d.(root := None)))
              && Lists(d, "0.22.2")
              && (forall v :: Lists(d, v) ==> v in e.inRange && (v in e.evidenced || v == "0.22.2"))
              && forall v :: v in e.attested ==> Lists(d, v)
  {
    hide CertifiedVersions, Lists;
    forall v ensures v in CertifiedVersions(d.oracles) <==> Lists(d, v) { ListsIs(d, v); }
    var all := CertifiedVersions(d.oracles);
    if forall v :: v in all ==> v in e.evidenced || v == "0.22.2" {
      assert forall v :: v in all - {"0.22.2"} ==> v in e.evidenced;
    }
    if v :| v in all && v !in e.evidenced && v != "0.22.2" {
      assert v in all - {"0.22.2"};
    }
  }

  lemma ListsIs(d: Document, v: string)
    ensures v in CertifiedVersions(d.oracles) <==> Lists(d, v)
  {
    VersionsAre(d.oracles, v);
  }

  // --- the two syncs ----------------------------------------------------------

  lemma ToolchainDemands(env: Env, constraint: string, d: Document)
    ensures Step(env, Toolchain(constraint), d).Some? <==>
              exists i :: 0 <= i < |d.artifacts| && d.artifacts[i].gpu.Some?
                          && d.artifacts[i].gpu.value.view.status == Some("certified_source")
  {
    hide RootDigest;
  }

  ghost predicate Delivers(row: Artifact) {
    row.gpu.Some? && row.gpu.value.deliveries.Some? && row.gpu.value.deliveries.value.prebuilt.Some?
  }

  lemma {:induction false} DevicesAre(rows: seq<Artifact>, a: string)
    ensures a in CertifiedDevices(rows) <==>
              exists i :: 0 <= i < |rows| && Delivers(rows[i])
                          && rows[i].gpu.value.deliveries.value.prebuilt.value.status == "certified"
                          && a in rows[i].gpu.value.deliveries.value.prebuilt.value.devices
  {
    if rows != [] { DevicesAre(rows[..|rows| - 1], a); }
  }

  // Some row has a prebuilt delivery, each such row a JIT delivery beside it; and what one of them
  // certifies already is to be certified again, on a hardware reading that passes.
  lemma PrebuiltDemands(env: Env, s: Shipped, d: Document)
    ensures Step(env, PrebuiltSync(s), d).Some? <==>
              && (exists i :: 0 <= i < |d.artifacts| && Delivers(d.artifacts[i]))
              && forall i :: 0 <= i < |d.artifacts| && Delivers(d.artifacts[i]) ==>
                   var deliveries := d.artifacts[i].gpu.value.deliveries.value;
                   && deliveries.jit.Some?
                   && (deliveries.prebuilt.value.status == "certified" ==>
                         forall a :: a in deliveries.prebuilt.value.devices ==> a in s.certified && a in s.passing)
  {
    hide RootDigest, CertifiedDevices;
    forall a
      ensures a in CertifiedDevices(d.artifacts) <==>
              exists i :: 0 <= i < |d.artifacts| && Delivers(d.artifacts[i])
                          && d.artifacts[i].gpu.value.deliveries.value.prebuilt.value.status == "certified"
                          && a in d.artifacts[i].gpu.value.deliveries.value.prebuilt.value.devices
    {
      DevicesAre(d.artifacts, a);
    }
  }
}
