/** The JIT delivery restates the top-level GPU view, over every run of the operations that write the
  registry; and what the checks on the deliveries say after a sync. */
module Restatement {
  import opened Registry
  import opened RegistryRuns
  import opened RegistrySyncs
  import opened Wrappers

  // --- the restatement --------------------------------------------------------

  predicate Restated(row: Artifact) {
    row.gpu.Some? && row.gpu.value.deliveries.Some? ==>
      HasJit(row) && row.gpu.value.deliveries.value.jit.value.view == row.gpu.value.view
  }

  ghost predicate Restates(d: Document) { forall i :: 0 <= i < |d.artifacts| ==> Restated(d.artifacts[i]) }

  lemma RowRestated(env: Env, op: Op, row: Artifact)
    requires Restated(row)
    ensures Restated(OpRow(env, op, row))
  {
    hide CertifiedEntry, Embedded;
  }

  lemma StepRestates(env: Env, op: Op, d: Document)
    requires Restates(d) && Step(env, op, d).Some?
    ensures Restates(Step(env, op, d).value)
  {
    hide AcceptsOp, OpRow, Restated, RootDigest, Edit;
    var e := Step(env, op, d).value;
    EditIsOp(env, op, d);
    forall i | 0 <= i < |e.artifacts|
      ensures Restated(e.artifacts[i])
    {
      RowRestated(env, op, d.artifacts[i]);
    }
  }

  // Over every successful run of the six writers and the two syncs.
  lemma {:induction false} RunRestates(env: Env, ops: seq<Op>, d: Document)
    requires Restates(d) && Run(env, ops, d).Some?
    ensures Restates(Run(env, ops, d).value)
  {
    hide Step, Restates;
    if ops != [] {
      RunRestates(env, ops[..|ops| - 1], d);
      StepRestates(env, ops[|ops| - 1], Run(env, ops[..|ops| - 1], d).value);
    }
  }

  // --- the check on delivery refinements --------------------------------------

  predicate HostMatches(host: Fields, s: Shipped) {
    && (forall key :: key in s.host ==> key in host && host[key] == s.host[key])
    && (HOST_V2 in host ==> host[HOST_V2] == s.hostV2)
  }

  predicate PrebuiltMatches(p: Prebuilt, s: Shipped) {
    p.binaryDigest == s.binary && HostMatches(p.host, s) && p.architectures == s.architectures
    && p.devices + p.experimental == Embedded(s)
  }

  // `prebuilt_binding_problems` finds nothing.
  predicate Refined(row: Artifact, s: Shipped) {
    row.gpu.Some? && row.gpu.value.deliveries.Some? ==>
      Restated(row) && (HasPrebuilt(row) ==> PrebuiltMatches(row.gpu.value.deliveries.value.prebuilt.value, s))
  }

  ghost predicate NoProblems(d: Document, s: Shipped) {
    forall i :: 0 <= i < |d.artifacts| ==> Refined(d.artifacts[i], s)
  }

  // The fields a prebuilt sync does not write itself.
  predicate RestatedBesides(row: Artifact) {
    HasPrebuilt(row) && HasJit(row) ==>
      var view := row.gpu.value.view;
      row.gpu.value.deliveries.value.jit.value.view
      == view.(sourceDigest := row.gpu.value.deliveries.value.jit.value.view.sourceDigest,
               classTableDigest := row.gpu.value.deliveries.value.jit.value.view.classTableDigest)
  }

  ghost predicate RestatedWhereNotBound(d: Document) {
    forall i :: 0 <= i < |d.artifacts| ==>
      if HasPrebuilt(d.artifacts[i]) then RestatedBesides(d.artifacts[i]) else Restated(d.artifacts[i])
  }

  // Right after a prebuilt sync the check passes exactly when the four fields it does not write were
  // restated already and every certified architecture is embedded in the fatbin.
  lemma SyncedPasses(env: Env, s: Shipped, d: Document)
    requires Step(env, PrebuiltSync(s), d).Some? && HOST_V2 !in s.host
    ensures NoProblems(Step(env, PrebuiltSync(s), d).value, s) <==>
              RestatedWhereNotBound(d) && s.certified <= Embedded(s)
  {
    hide Embedded, EvidencePasses, RootDigest, RestatedBesides, Restated, Refined, SyncPrebuiltRow, HasPrebuilt, HasJit;
    var e := Step(env, PrebuiltSync(s), d).value;
    forall i | 0 <= i < |d.artifacts|
      ensures HasPrebuilt(d.artifacts[i]) ==>
                (Refined(e.artifacts[i], s) <==> RestatedBesides(d.artifacts[i]) && s.certified <= Embedded(s))
      ensures !HasPrebuilt(d.artifacts[i]) ==> (Refined(e.artifacts[i], s) <==> Restated(d.artifacts[i]))
    {
      if HasPrebuilt(d.artifacts[i]) { BoundRefined(s, d.artifacts[i]); } else { UnboundRefined(s, d.artifacts[i]); }
    }
    var k :| 0 <= k < |d.artifacts| && HasPrebuilt(d.artifacts[k]);
    assert Refined(e.artifacts[k], s) <==> RestatedBesides(d.artifacts[k]) && s.certified <= Embedded(s);
  }

  lemma BoundRefined(s: Shipped, row: Artifact)
    requires HasPrebuilt(row) && HasJit(row) && HOST_V2 !in s.host
    ensures Refined(SyncPrebuiltRow(s, row), s) <==> RestatedBesides(row) && s.certified <= Embedded(s)
  {
    hide Embedded, PrebuiltMatches, RestatedBesides, Restated, SyncPrebuiltRow;
    BoundMatches(s);
    RowBound(s, row);
  }

  lemma UnboundRefined(s: Shipped, row: Artifact)
    requires !HasPrebuilt(row)
    ensures Refined(row, s) <==> Restated(row)
  {
    hide PrebuiltMatches;
  }

  function Bound(s: Shipped, host: Fields): Prebuilt {
    Prebuilt(CERTIFIED, s.binary, s.toolchain, s.certified, Embedded(s) - s.certified, s.architectures,
             host + s.host[HOST_V2 := s.hostV2])
  }

  lemma BoundMatches(s: Shipped)
    requires HOST_V2 !in s.host
    ensures forall host :: PrebuiltMatches(Bound(s, host), s) <==> s.certified <= Embedded(s)
  {
    forall host
      ensures PrebuiltMatches(Bound(s, host), s) <==> s.certified <= Embedded(s)
    {
      assert s.certified + (Embedded(s) - s.certified) == s.certified + Embedded(s);
      assert s.certified <= Embedded(s) ==> s.certified + Embedded(s) == Embedded(s);
      assert HostMatches(Bound(s, host).host, s);
    }
  }

  lemma RowBound(s: Shipped, row: Artifact)
    requires HasPrebuilt(row) && HasJit(row)
    ensures var r := SyncPrebuiltRow(s, row);
            && HasPrebuilt(r)
            && r.gpu.value.deliveries.value.prebuilt.value
               == Bound(s, row.gpu.value.deliveries.value.prebuilt.value.host)
            && (Restated(r) <==> RestatedBesides(row))
  {
  }

  // --- the check on the kernel bindings ---------------------------------------

  // A certified row, and a certified JIT delivery, name the compiler tuple.
  predicate NamesToolchain(row: Artifact, constraint: string) {
    && (IsCertified(row) ==> row.gpu.value.view.toolchain == Some(constraint))
    && (HasJit(row) && row.gpu.value.deliveries.value.jit.value.view.status == Some(CERTIFIED_SOURCE) ==>
          row.gpu.value.deliveries.value.jit.value.view.toolchain == Some(constraint))
  }

  // A certified JIT delivery under a row that is not certified: the sync passes it by.
  predicate PassedBy(row: Artifact) {
    !IsCertified(row) && HasJit(row)
  }

  // After a toolchain sync the check on the tuple passes exactly when it passed on the rows the sync
  // passes by; where the delivery restates the view there is nothing left to pass.
  lemma SyncedToolchain(env: Env, constraint: string, d: Document)
    requires Step(env, Toolchain(constraint), d).Some?
    ensures var e := Step(env, Toolchain(constraint), d).value;
            && ((forall i :: 0 <= i < |e.artifacts| ==> NamesToolchain(e.artifacts[i], constraint)) <==>
                  forall i :: 0 <= i < |d.artifacts| && PassedBy(d.artifacts[i]) ==>
                      NamesToolchain(d.artifacts[i], constraint))
            && (Restates(d) ==> forall i :: 0 <= i < |e.artifacts| ==> NamesToolchain(e.artifacts[i], constraint))
  {
    hide RootDigest;
    var e := Step(env, Toolchain(constraint), d).value;
    forall i | 0 <= i < |d.artifacts|
      ensures PassedBy(d.artifacts[i]) ==>
                (NamesToolchain(e.artifacts[i], constraint) <==> NamesToolchain(d.artifacts[i], constraint))
      ensures !PassedBy(d.artifacts[i]) ==> NamesToolchain(e.artifacts[i], constraint)
      ensures Restated(d.artifacts[i]) ==> NamesToolchain(e.artifacts[i], constraint)
    {
      assert e.artifacts[i] == SyncToolchainRow(constraint, d.artifacts[i]);
    }
  }

  predicate NamesKernel(row: Artifact, s: Shipped) {
    row.gpu.Some? ==>
      && row.gpu.value.view.sourceDigest == Some(s.kernelSource)
      && row.gpu.value.view.classTableDigest == Some(s.classTable)
  }

  // After a prebuilt sync the check on the kernel sources and class tables passes exactly when it
  // passed on the rows without a prebuilt delivery.
  lemma SyncedKernel(env: Env, s: Shipped, d: Document)
    requires Step(env, PrebuiltSync(s), d).Some?
    ensures var e := Step(env, PrebuiltSync(s), d).value;
            (forall i :: 0 <= i < |e.artifacts| ==> NamesKernel(e.artifacts[i], s)) <==>
              forall i :: 0 <= i < |d.artifacts| && !HasPrebuilt(d.artifacts[i]) ==> NamesKernel(d.artifacts[i], s)
  {
    hide RootDigest, EvidencePasses, Embedded;
    var e := Step(env, PrebuiltSync(s), d).value;
    forall i | 0 <= i < |d.artifacts|
      ensures HasPrebuilt(d.artifacts[i]) ==> NamesKernel(e.artifacts[i], s)
      ensures !HasPrebuilt(d.artifacts[i]) ==> e.artifacts[i] == d.artifacts[i]
    {
      assert e.artifacts[i] == SyncPrebuiltRow(s, d.artifacts[i]);
    }
  }

  // What the three checks pin down: two rows that pass them against one fatbin agree on all it
  // ships, and each delivery on the six fields of its own view.
  lemma PassingRowsAgree(a: Artifact, b: Artifact, s: Shipped, constraint: string)
    requires Refined(a, s) && NamesKernel(a, s) && NamesToolchain(a, constraint) && HasPrebuilt(a)
    requires Refined(b, s) && NamesKernel(b, s) && NamesToolchain(b, constraint) && HasPrebuilt(b)
    ensures var u, v := a.gpu.value.view, b.gpu.value.view;
            && u.sourceDigest == v.sourceDigest && u.classTableDigest == v.classTableDigest
            && (u.status == v.status == Some("certified_source") ==> u.toolchain == v.toolchain)
            && HasJit(a) && a.gpu.value.deliveries.value.jit.value.view == u
    ensures var p, q := a.gpu.value.deliveries.value.prebuilt.value, b.gpu.value.deliveries.value.prebuilt.value;
            && p.binaryDigest == q.binaryDigest && p.architectures == q.architectures
            && p.devices + p.experimental == q.devices + q.experimental
            && (forall x :: x in p.devices + p.experimental <==> x in s.architectures && "sm_" <= x)
            && (forall key :: key in s.host ==> key in p.host && key in q.host && p.host[key] == q.host[key])
            && ("host_source_digest_v2" in p.host && "host_source_digest_v2" in q.host ==>
                  p.host["host_source_digest_v2"] == q.host["host_source_digest_v2"])
  {
    EmbeddedAre(s);
  }

  // A certified JIT delivery under an uncertified view names the tuple, too.
  lemma PassingDeliveriesAgree(a: Artifact, b: Artifact, constraint: string)
    requires NamesToolchain(a, constraint) && HasJit(a) && NamesToolchain(b, constraint) && HasJit(b)
    ensures var x, y := a.gpu.value.deliveries.value.jit.value.view, b.gpu.value.deliveries.value.jit.value.view;
            x.status == y.status == Some("certified_source") ==> x.toolchain == y.toolchain
  {
  }

  // The certified and the experimental devices never overlap.
  lemma SyncedDevices(env: Env, s: Shipped, d: Document, i: nat)
    requires Step(env, PrebuiltSync(s), d).Some? && i < |d.artifacts| && HasPrebuilt(d.artifacts[i])
    ensures var e := Step(env, PrebuiltSync(s), d).value;
            && HasPrebuilt(e.artifacts[i])
            && var p := e.artifacts[i].gpu.value.deliveries.value.prebuilt.value;
               && p.devices !! p.experimental
               && (p.devices + p.experimental == Embedded(s) <==> s.certified <= Embedded(s))
  {
    RowBound(s, d.artifacts[i]);
    assert s.certified + (Embedded(s) - s.certified) == s.certified + Embedded(s);
    assert s.certified <= Embedded(s) ==> s.certified + Embedded(s) == Embedded(s);
  }

  // A sync vouches for a reading of every architecture it certifies exactly when the document
  // certifies them all already: a document that certifies none is bound without any reading.
  lemma BackedExactly(env: Env, s: Shipped, d: Document)
    requires PrebuiltReady(d.artifacts) && CertifiedDevices(d.artifacts) <= s.certified
    ensures (forall p: set<string> :: Step(env, PrebuiltSync(s.(passing := p)), d).Some? ==> s.certified <= p)
            <==> s.certified <= CertifiedDevices(d.artifacts)
  {
    hide CertifiedDevices, PrebuiltReady, SyncPrebuiltRow;
    var devices := CertifiedDevices(d.artifacts);
    assert Step(env, PrebuiltSync(s.(passing := devices)), d).Some?;
  }

  // A registry with one prebuilt delivery, not yet certified.
  function Draft(): Document {
    var view := View(None, None, None, None, None, None);
    var prebuilt := Prebuilt("experimental", "", "", {"sm_120"}, {}, map[], map[]);
    var gpu := Gpu(view, Some(Deliveries(Some(Jit(view, map[], None)), Some(prebuilt))));
    Document([Artifact("family", "", "", "", None, None, Some(gpu))], [], [], map[], map[], None)
  }

  // On it any fatbin is bound, and any architectures are certified, when no reading passes at all.
  lemma FirstSyncUnread(env: Env, s: Shipped)
    ensures var step := Step(env, PrebuiltSync(s.(passing := {})), Draft());
            && step.Some? && HasPrebuilt(step.value.artifacts[0])
            && step.value.artifacts[0].gpu.value.deliveries.value.prebuilt.value.status == CERTIFIED
            && step.value.artifacts[0].gpu.value.deliveries.value.prebuilt.value.devices == s.certified
  {
    hide RootDigest, Embedded;
    var rows := Draft().artifacts;
    assert HasPrebuilt(rows[0]) && HasJit(rows[0]);
    assert CertifiedDevices(rows) == {} by { assert rows[..0] == [] && "experimental"[0] != CERTIFIED[0]; }
  }

  lemma RowRefined(env: Env, op: Op, row: Artifact, s: Shipped)
    requires Refined(row, s) && !op.PrebuiltSync?
    ensures Refined(OpRow(env, op, row), s)
  {
    hide CertifiedEntry, PrebuiltMatches;
  }

  // Neither a toolchain sync nor any writer brings a problem back.
  lemma NoProblemsKept(env: Env, op: Op, d: Document, s: Shipped)
    requires NoProblems(d, s) && !op.PrebuiltSync? && Step(env, op, d).Some?
    ensures NoProblems(Step(env, op, d).value, s)
  {
    hide AcceptsOp, OpRow, Refined, RootDigest, Edit;
    var e := Step(env, op, d).value;
    EditIsOp(env, op, d);
    forall i | 0 <= i < |e.artifacts|
      ensures Refined(e.artifacts[i], s)
    {
      RowRefined(env, op, d.artifacts[i], s);
    }
  }
}
