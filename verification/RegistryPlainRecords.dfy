/** A registry written without the version-normalized identities: its check does not ask for them. */
module RegistryPlainRecords {
  import opened Registry
  import opened RegistryChecks
  import opened Wrappers

  // What a writer brings along records an identity already; of the JIT deliveries it is the document's.
  ghost predicate Brings(w: Writer, d: Document) {
    match w
    case FastCpu(b) =>
      || "source_digest_v2" in b.certified
      || ("source_digest_v2" in b.unsupported
          && exists i :: 0 <= i < |d.artifacts| && d.artifacts[i].family !in b.loadable)
    case RustApi(b) =>
      || "source_digest_v2" in b.common || "source_digest_v2" in b.build
      || exists k :: 0 <= k < |b.additional| && "source_digest_v2" in b.additional[k]
    case DirectJit(_) => exists i :: 0 <= i < |d.artifacts| && Identified(d.artifacts[i])
    case _ => false
  }

  predicate Identified(row: Artifact) {
    && row.gpu.Some? && row.gpu.value.deliveries.Some? && row.gpu.value.deliveries.value.jit.Some?
    && row.gpu.value.deliveries.value.jit.value.directV2.Some?
  }

  lemma PlainRow(env: Env, w: Writer, row: Artifact)
    ensures var r := EditRow(env, w, false, row);
            && (w.FastCpu? && row.family in w.cpu.loadable ==> r.fastCpu == Some(w.cpu.certified))
            && (w.FastCpu? && row.family !in w.cpu.loadable && row.family in w.cpu.rejected ==>
                  r.fastCpu == Some(w.cpu.unsupported))
            && (w.DirectJit? ==> Identified(r) == Identified(row))
  {
  }

  lemma PlainCpuRow(env: Env, b: FastCpuBinding, d: Document, i: nat)
    requires AcceptsFastCpu(b, d) && i < |d.artifacts|
    ensures var r := Edit(env, FastCpu(b), false, d).artifacts[i];
            if d.artifacts[i].family in b.loadable then r.fastCpu == Some(b.certified)
            else d.artifacts[i].family in b.rejected && r.fastCpu == Some(b.unsupported)
  {
    hide RecordsSha, EditRow, EditOracles, Families;
    assert d.artifacts[i].family in Families(d.artifacts);
    PlainRow(env, FastCpu(b), d.artifacts[i]);
  }

  lemma LoadableRow(b: FastCpuBinding, d: Document) returns (i: nat)
    requires AcceptsFastCpu(b, d)
    ensures i < |d.artifacts| && d.artifacts[i].family in b.loadable && d.artifacts[i].family !in b.rejected
  {
    hide RecordsSha;
    var f := Inhabited(b.loadable);
    i := RowOfFamily(d.artifacts, f);
  }

  lemma PlainCpu(env: Env, b: FastCpuBinding, d: Document)
    requires AcceptsFastCpu(b, d)
    ensures RecordsV2(FastCpu(b), WithRoot(env, Edit(env, FastCpu(b), false, d))) <==> Brings(FastCpu(b), d)
  {
    hide AcceptsFastCpu, Edit, RootDigest;
    var e := WithRoot(env, Edit(env, FastCpu(b), false, d));
    RowCount(env, FastCpu(b), d);
    var first := LoadableRow(b, d);
    PlainCpuRow(env, b, d, first);
    forall i | 0 <= i < |d.artifacts|
      ensures e.artifacts[i].fastCpu == Some(if d.artifacts[i].family in b.loadable then b.certified else b.unsupported)
      ensures d.artifacts[i].family in b.loadable || d.artifacts[i].family in b.rejected
    {
      PlainCpuRow(env, b, d, i);
    }
    assert e.artifacts[first].fastCpu == Some(b.certified);
    if k :| 0 <= k < |d.artifacts| && d.artifacts[k].family !in b.loadable {
      assert e.artifacts[k].fastCpu == Some(b.unsupported);
    }
  }

  lemma RowCount(env: Env, w: Writer, d: Document)
    ensures |Edit(env, w, false, d).artifacts| == |d.artifacts|
  {
  }

  lemma PlainBuild(env: Env, b: RustBinding, k: nat)
    requires k <= |b.additional|
    ensures |Builds(env, b, false)| == 1 + |b.additional|
    ensures "source_digest_v2" in Builds(env, b, false)[k] <==>
              "source_digest_v2" in b.common || "source_digest_v2" in if k == 0 then b.build else b.additional[k - 1]
  {
    var all := [b.build] + b.additional;
    assert Builds(env, b, false)[k] == b.common + all[k];
  }

  lemma PlainBuilds(env: Env, b: RustBinding, d: Document)
    ensures RecordsV2(RustApi(b), WithRoot(env, Edit(env, RustApi(b), false, d))) <==> Brings(RustApi(b), d)
  {
    hide EditOracles, EditRows, RootDigest, Builds;
    var builds := Builds(env, b, false);
    PlainBuild(env, b, 0);
    forall k | 0 <= k < |builds|
      ensures "source_digest_v2" in builds[k] <==>
                "source_digest_v2" in b.common || "source_digest_v2" in if k == 0 then b.build else b.additional[k - 1]
    {
      PlainBuild(env, b, k);
    }
    if k :| 0 <= k < |b.additional| && "source_digest_v2" in b.additional[k] {
      assert "source_digest_v2" in builds[k + 1];
    }
  }

  lemma PlainJit(env: Env, r: JitReading, d: Document)
    ensures RecordsV2(DirectJit(r), WithRoot(env, Edit(env, DirectJit(r), false, d))) <==> Brings(DirectJit(r), d)
  {
    hide EditOracles, EditRow, RootDigest;
    var w := DirectJit(r);
    var e := WithRoot(env, Edit(env, w, false, d));
    forall i | 0 <= i < |d.artifacts|
      ensures Identified(e.artifacts[i]) == Identified(d.artifacts[i])
    {
      PlainRow(env, w, d.artifacts[i]);
    }
    assert RecordsV2(w, e) <==> exists i :: 0 <= i < |e.artifacts| && Identified(e.artifacts[i]);
  }

  // Written without the identities, a document is found to be without them exactly when the binding,
  // or for the JIT deliveries the document, brought none.
  lemma PlainUpdateRecords(env: Env, w: Writer, d: Document)
    requires Accepts(w, d)
    ensures RecordsV2(w, Augmented(env, w, false, d).value) <==> Brings(w, d)
  {
    hide AcceptsFastCpu, AcceptsRust, AcceptsJit, Edit, WithRoot;
    match w
    case FastCpu(b) => PlainCpu(env, b, d);
    case RustApi(b) => PlainBuilds(env, b, d);
    case DirectJit(r) => PlainJit(env, r, d);
    case _ =>
  }

  // Then its check passes as it stands.
  lemma PlainUpdateIsChecked(env: Env, w: Writer, d: Document)
    requires ValidEnv(env) && Accepts(w, d) && (w.FastCpu? || w.RustApi? || w.DirectJit?) && !Brings(w, d)
    ensures Checked(env, w, Augmented(env, w, false, d).value)
  {
    hide Accepts, Edit, Extends, WithRoot, RecordsV2, Brings;
    var e := Edit(env, w, false, d);
    PlainUpdateRecords(env, w, d);
    EditExtends(env, w, false, d);
    AcceptsKept(w, d, WithRoot(env, e));
    EditUnderRoot(env, w, false, e);
    EditTwice(env, w, false, d);
  }
}
