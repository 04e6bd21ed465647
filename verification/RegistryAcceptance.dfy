/** Which writers a document is ready for, and exactly what a widening changes about that. */
module RegistryAcceptance {
  import opened Registry

  // --- acceptance, were more releases certified -------------------------------

  predicate Certifies(oracle: Oracle, v: string, more: set<string>) {
    v in oracle.versions || (oracle.package == ORACLE_PACKAGE && v in more)
  }

  predicate AdmitsRowWith(d: Document, row: JitRow, more: set<string>) {
    var artifact := RowOf(d.artifacts, row.family);
    && artifact.Some? && row.sha256 == artifact.value.sha256
    && row.oracleId == artifact.value.oracleId && row.evidenceId == artifact.value.evidenceId
    && var oracle := OracleOf(d.oracles, artifact.value.oracleId);
       oracle.Some? && Certifies(oracle.value, row.oracleVersion, more)
  }

  predicate AcceptsJitWith(r: JitReading, d: Document, more: set<string>) {
    && r.sound && |r.rows| == MATRIX_FAMILIES
    && (forall k :: 0 <= k < |r.rows| ==> AdmitsRowWith(d, r.rows[k], more))
    && Families(d.artifacts) == (set k | 0 <= k < |r.rows| :: r.rows[k].family)
    && (forall i :: 0 <= i < |d.artifacts| ==> HasJit(d.artifacts[i]))
  }

  predicate AcceptsFastokensWith(b: FastokensBinding, d: Document, more: set<string>) {
    && b.sound && RecordsSha(d.artifacts, b.families)
    && exists k :: 0 <= k < |d.oracles| && d.oracles[k].package == b.package && Certifies(d.oracles[k], b.version, more)
  }

  // What the writer would say of `d`, were `more` certified for the oracle package. Only two writers
  // ask for a release.
  predicate AcceptsWith(w: Writer, d: Document, more: set<string>) {
    match w
    case DirectJit(r) => AcceptsJitWith(r, d, more)
    case Fastokens(b) => AcceptsFastokensWith(b, d, more)
    case _ => Accepts(w, d)
  }

  lemma AcceptsMonotone(w: Writer, d: Document, less: set<string>, more: set<string>)
    requires less <= more && AcceptsWith(w, d, less)
    ensures AcceptsWith(w, d, more)
  {
    hide RecordsSha, RowOf, OracleOf, HasJit, Families;
    match w
    case DirectJit(r) =>
      forall k | 0 <= k < |r.rows|
        ensures AdmitsRowWith(d, r.rows[k], more)
      {
        assert AdmitsRowWith(d, r.rows[k], less);
      }
    case Fastokens(b) =>
      var k :| 0 <= k < |d.oracles| && d.oracles[k].package == b.package && Certifies(d.oracles[k], b.version, less);
      assert Certifies(d.oracles[k], b.version, more);
    case _ =>
  }

  lemma AcceptsWithNothing(w: Writer, d: Document)
    ensures AcceptsWith(w, d, {}) <==> Accepts(w, d)
  {
    hide RecordsSha, RowOf, OracleOf, HasJit, Families;
    match w
    case DirectJit(r) =>
      assert forall k :: 0 <= k < |r.rows| ==> (AdmitsRowWith(d, r.rows[k], {}) <==> AdmitsRow(d, r.rows[k]));
    case Fastokens(b) =>
      assert forall k :: 0 <= k < |d.oracles| ==>
          (Certifies(d.oracles[k], b.version, {}) <==> b.version in d.oracles[k].versions);
    case _ =>
  }

  // --- a document that has grown ----------------------------------------------

  // `e` keeps the identities of `d`, and certifies the releases of `d` and `more`.
  ghost predicate Grows(d: Document, e: Document, more: set<string>) {
    && |e.artifacts| == |d.artifacts| && |e.oracles| == |d.oracles|
    && (forall i :: 0 <= i < |d.artifacts| ==> SameIdentity(d.artifacts[i], e.artifacts[i]))
    && (forall k :: 0 <= k < |d.oracles| ==> OracleGrows(d.oracles[k], e.oracles[k], more))
  }

  ghost predicate OracleGrows(a: Oracle, b: Oracle, more: set<string>) {
    a.id == b.id && a.package == b.package && forall v :: v in b.versions <==> Certifies(a, v, more)
  }

  lemma GrowsSelf(d: Document)
    ensures Grows(d, d, {})
  {
  }

  lemma GrowsFurther(a: Document, b: Document, c: Document, more: set<string>, further: set<string>)
    requires Grows(a, b, more) && Grows(b, c, further)
    ensures Grows(a, c, more + further)
  {
    forall i | 0 <= i < |a.artifacts|
      ensures SameIdentity(a.artifacts[i], c.artifacts[i])
    {
      assert SameIdentity(a.artifacts[i], b.artifacts[i]) && SameIdentity(b.artifacts[i], c.artifacts[i]);
    }
    forall k | 0 <= k < |a.oracles|
      ensures OracleGrows(a.oracles[k], c.oracles[k], more + further)
    {
      assert OracleGrows(a.oracles[k], b.oracles[k], more) && OracleGrows(b.oracles[k], c.oracles[k], further);
    }
  }

  function AddedBy(w: Writer): set<string> { if w.Widening? then w.versions else {} }

  lemma OracleEditGrows(env: Env, w: Writer, oracle: Oracle)
    requires ValidEnv(env)
    ensures OracleGrows(oracle, EditOracle(env, w, oracle), AddedBy(w))
  {
    if w.Widening? && oracle.package == ORACLE_PACKAGE {
      var all := Listed(oracle.versions) + w.versions;
      forall v
        ensures v in env.sorted(all) <==> Certifies(oracle, v, AddedBy(w))
      {
        assert v in env.sorted(all) <==> v in all;
      }
    }
  }

  lemma EditGrows(env: Env, w: Writer, v2: bool, d: Document)
    requires ValidEnv(env)
    ensures Grows(d, Edit(env, w, v2, d), AddedBy(w)) && Grows(d, WithRoot(env, Edit(env, w, v2, d)), AddedBy(w))
  {
    hide EditRow, EditOracle, SameIdentity, OracleGrows;
    var e := Edit(env, w, v2, d);
    forall i | 0 <= i < |d.artifacts| ensures SameIdentity(d.artifacts[i], e.artifacts[i]) {
      EditRowIdentity(env, w, v2, d.artifacts[i]);
    }
    forall k | 0 <= k < |d.oracles| ensures OracleGrows(d.oracles[k], e.oracles[k], AddedBy(w)) {
      OracleEditGrows(env, w, d.oracles[k]);
    }
  }

  lemma {:induction false} OracleOfGrown(a: seq<Oracle>, b: seq<Oracle>, id: string, more: set<string>)
    requires |a| == |b| && forall k :: 0 <= k < |a| ==> OracleGrows(a[k], b[k], more)
    ensures OracleOf(a, id).Some? <==> OracleOf(b, id).Some?
    ensures OracleOf(a, id).Some? ==> OracleGrows(OracleOf(a, id).value, OracleOf(b, id).value, more)
  {
    hide Certifies;
    if a != [] {
      var n := |a| - 1;
      assert OracleGrows(a[n], b[n], more);
      OracleOfGrown(a[..n], b[..n], id, more);
    }
  }

  lemma AdmitsGrown(d: Document, e: Document, row: JitRow, more: set<string>)
    requires Grows(d, e, more)
    ensures AdmitsRow(e, row) <==> AdmitsRowWith(d, row, more)
  {
    hide RowOf, OracleOf, Certifies, HasJit;
    SameRow(d.artifacts, e.artifacts, row.family);
    OracleOfGrown(d.oracles, e.oracles, row.oracleId, more);
  }

  lemma ShaGrown(d: Document, e: Document, recorded: map<string, string>, more: set<string>)
    requires Grows(d, e, more)
    ensures RecordsSha(e.artifacts, recorded) <==> RecordsSha(d.artifacts, recorded)
  {
    hide RowOf, OracleGrows, HasJit;
    forall f | f in recorded
      ensures RowOf(d.artifacts, f).Some? <==> RowOf(e.artifacts, f).Some?
      ensures RowOf(d.artifacts, f).Some? ==> SameIdentity(RowOf(d.artifacts, f).value, RowOf(e.artifacts, f).value)
    {
      SameRow(d.artifacts, e.artifacts, f);
    }
  }

  lemma FamiliesGrown(d: Document, e: Document, more: set<string>)
    requires Grows(d, e, more)
    ensures Families(e.artifacts) == Families(d.artifacts)
    ensures forall i :: 0 <= i < |d.artifacts| ==>
              && HasJit(e.artifacts[i]) == HasJit(d.artifacts[i]) && e.artifacts[i].family == d.artifacts[i].family
              && e.artifacts[i].sha256 == d.artifacts[i].sha256
  {
    hide HasJit, OracleGrows;
    assert forall i :: 0 <= i < |d.artifacts| ==> SameIdentity(d.artifacts[i], e.artifacts[i]);
    forall f
      ensures f in Families(e.artifacts) <==> f in Families(d.artifacts)
    {
      if f in Families(e.artifacts) {
        var i :| 0 <= i < |e.artifacts| && e.artifacts[i].family == f;
        assert d.artifacts[i].family == f;
      }
      if f in Families(d.artifacts) {
        var i :| 0 <= i < |d.artifacts| && d.artifacts[i].family == f;
        assert e.artifacts[i].family == f;
      }
    }
  }

  lemma PackageGrown(d: Document, e: Document, package: string, v: string, more: set<string>)
    requires Grows(d, e, more)
    ensures (exists k :: 0 <= k < |e.oracles| && e.oracles[k].package == package) <==>
              exists k :: 0 <= k < |d.oracles| && d.oracles[k].package == package
    ensures (exists k :: 0 <= k < |e.oracles| && e.oracles[k].package == package && v in e.oracles[k].versions) <==>
              exists k :: 0 <= k < |d.oracles| && d.oracles[k].package == package && Certifies(d.oracles[k], v, more)
  {
    hide SameIdentity, Certifies;
    forall k | 0 <= k < |d.oracles|
      ensures e.oracles[k].package == d.oracles[k].package
      ensures (v in e.oracles[k].versions <==> Certifies(d.oracles[k], v, more))
    {
      assert OracleGrows(d.oracles[k], e.oracles[k], more);
    }
    if exists k :: 0 <= k < |d.oracles| && d.oracles[k].package == package {
      var k :| 0 <= k < |d.oracles| && d.oracles[k].package == package;
      assert e.oracles[k].package == package;
    }
    if exists k :: 0 <= k < |d.oracles| && d.oracles[k].package == package && Certifies(d.oracles[k], v, more) {
      var k :| 0 <= k < |d.oracles| && d.oracles[k].package == package && Certifies(d.oracles[k], v, more);
      assert v in e.oracles[k].versions;
    }
  }

  // Exactly which writers accept a grown document.
  lemma AcceptsGrown(w: Writer, d: Document, e: Document, more: set<string>)
    requires Grows(d, e, more)
    ensures Accepts(w, e) <==> AcceptsWith(w, d, more)
  {
    hide Grows, AdmitsRow, AdmitsRowWith, RecordsSha, HasJit, Families, Certifies;
    FamiliesGrown(d, e, more);
    GrownLengths(d, e, more);
    match w
    case FastCpu(b) =>
      ShaGrown(d, e, b.repair, more);
      ShaGrown(d, e, b.parity, more);
    case RustApi(_) =>
    case DirectJit(r) =>
      forall k | 0 <= k < |r.rows| ensures AdmitsRow(e, r.rows[k]) <==> AdmitsRowWith(d, r.rows[k], more) {
        AdmitsGrown(d, e, r.rows[k], more);
      }
    case Fastokens(b) =>
      ShaGrown(d, e, b.families, more);
      PackageGrown(d, e, b.package, b.version, more);
    case LoaderFace(_) =>
    case Widening(_, _) =>
      PackageGrown(d, e, ORACLE_PACKAGE, "", more);
  }

  lemma GrownLengths(d: Document, e: Document, more: set<string>)
    requires Grows(d, e, more)
    ensures |e.artifacts| == |d.artifacts| && |e.oracles| == |d.oracles|
  {
  }

  // Every writer, after every other: only a widening changes the answer, and only by what it adds.
  lemma AcceptsAfter(env: Env, w: Writer, other: Writer, d: Document)
    requires ValidEnv(env) && Accepts(other, d)
    ensures Accepts(w, Apply(env, other, d).value) <==> AcceptsWith(w, d, AddedBy(other))
  {
    hide Accepts, AcceptsWith, Edit, WithRoot, Grows;
    EditGrows(env, other, true, d);
    AcceptsGrown(w, d, WithRoot(env, Edit(env, other, true, d)), AddedBy(other));
  }

  // For one row of a direct-JIT reading: widening never takes it away, and lets through exactly the
  // rows whose release it adds.
  lemma JitAfterWidening(env: Env, w: Writer, d: Document, row: JitRow)
    requires ValidEnv(env) && w.Widening? && Accepts(w, d)
    ensures AdmitsRow(Apply(env, w, d).value, row) <==> AdmitsRowWith(d, row, w.versions)
    ensures AdmitsRow(d, row) ==> AdmitsRow(Apply(env, w, d).value, row)
  {
    hide Accepts, Edit, WithRoot, Grows, RowOf, OracleOf;
    EditGrows(env, w, true, d);
    AdmitsGrown(d, WithRoot(env, Edit(env, w, true, d)), row, w.versions);
  }
}
