/** What each operation on the registry leaves alone, field by field, and over whole runs. */
module RegistryFrames {
  import opened Registry
  import opened RegistryRuns
  import opened RegistrySyncs
  import opened Wrappers

  // --- the fields -------------------------------------------------------------

  // The parts of a row. The view and its restatement are split by who writes what.
  datatype Part =
    | Identity | Face | CpuEntry | Shape
    | ViewStatus | ViewToolchain | ViewSources
    | JitStatus | JitToolchain | JitSources | JitDirect | PrebuiltDelivery

  datatype Field =
    | OfRows(part: Part) | OracleRecords | CertifiedReleases | RuntimeBuilds | FastokensNode | OtherNodes | Rest

  function ViewOf(row: Artifact): Option<View> { if row.gpu.Some? then Some(row.gpu.value.view) else None }

  function JitOf(row: Artifact): Option<Jit> {
    if row.gpu.Some? && row.gpu.value.deliveries.Some? then row.gpu.value.deliveries.value.jit else None
  }

  function PrebuiltOf(row: Artifact): Option<Prebuilt> {
    if row.gpu.Some? && row.gpu.value.deliveries.Some? then row.gpu.value.deliveries.value.prebuilt else None
  }

  predicate SameStatus(a: View, b: View) {
    a.status == b.status && a.buildFlags == b.buildFlags && a.devices == b.devices
  }

  predicate SameSources(a: View, b: View) {
    a.sourceDigest == b.sourceDigest && a.classTableDigest == b.classTableDigest
  }

  predicate SamePart(part: Part, a: Artifact, b: Artifact) {
    match part
    case Identity => a.family == b.family && a.sha256 == b.sha256 && a.oracleId == b.oracleId
                     && a.evidenceId == b.evidenceId
    case Face => a.face == b.face
    case CpuEntry => a.fastCpu == b.fastCpu
    case Shape =>
      && (a.gpu.Some? <==> b.gpu.Some?) && (JitOf(a).Some? <==> JitOf(b).Some?)
      && (PrebuiltOf(a).Some? <==> PrebuiltOf(b).Some?)
      && (a.gpu.Some? && b.gpu.Some? ==> (a.gpu.value.deliveries.Some? <==> b.gpu.value.deliveries.Some?))
    case ViewStatus => ViewOf(a).Some? && ViewOf(b).Some? ==> SameStatus(ViewOf(a).value, ViewOf(b).value)
    case ViewToolchain => ViewOf(a).Some? && ViewOf(b).Some? ==>
      ViewOf(a).value.toolchain == ViewOf(b).value.toolchain
    case ViewSources => ViewOf(a).Some? && ViewOf(b).Some? ==> SameSources(ViewOf(a).value, ViewOf(b).value)
    case JitStatus => JitOf(a).Some? && JitOf(b).Some? ==> SameStatus(JitOf(a).value.view, JitOf(b).value.view)
    case JitToolchain => JitOf(a).Some? && JitOf(b).Some? ==>
      JitOf(a).value.view.toolchain == JitOf(b).value.view.toolchain
    case JitSources => JitOf(a).Some? && JitOf(b).Some? ==> SameSources(JitOf(a).value.view, JitOf(b).value.view)
    case JitDirect => JitOf(a).Some? && JitOf(b).Some? ==>
      JitOf(a).value.direct == JitOf(b).value.direct && JitOf(a).value.directV2 == JitOf(b).value.directV2
    case PrebuiltDelivery => PrebuiltOf(a).Some? && PrebuiltOf(b).Some? ==> PrebuiltOf(a).value == PrebuiltOf(b).value
  }

  // Nothing of a row is outside these parts.
  lemma PartsCover(a: Artifact, b: Artifact)
    requires forall part :: SamePart(part, a, b)
    ensures a == b
  {
    assert SamePart(Identity, a, b) && SamePart(Face, a, b) && SamePart(CpuEntry, a, b) && SamePart(Shape, a, b);
    if a.gpu.Some? {
      ViewCovers(a, b);
      if JitOf(a).Some? { JitCovers(a, b); }
      assert SamePart(PrebuiltDelivery, a, b);
    }
  }

  lemma ViewCovers(a: Artifact, b: Artifact)
    requires a.gpu.Some? && b.gpu.Some? && forall part :: SamePart(part, a, b)
    ensures a.gpu.value.view == b.gpu.value.view
  {
    assert SamePart(ViewStatus, a, b) && SamePart(ViewToolchain, a, b) && SamePart(ViewSources, a, b);
  }

  lemma JitCovers(a: Artifact, b: Artifact)
    requires JitOf(a).Some? && JitOf(b).Some? && forall part :: SamePart(part, a, b)
    ensures JitOf(a).value == JitOf(b).value
  {
    assert SamePart(JitStatus, a, b) && SamePart(JitToolchain, a, b) && SamePart(JitSources, a, b);
    assert SamePart(JitDirect, a, b);
  }

  ghost predicate SameField(field: Field, d: Document, e: Document) {
    match field
    case OfRows(part) =>
      |e.artifacts| == |d.artifacts|
      && forall i :: 0 <= i < |d.artifacts| ==> SamePart(part, d.artifacts[i], e.artifacts[i])
    case OracleRecords =>
      |e.oracles| == |d.oracles| && forall k :: 0 <= k < |d.oracles| ==> SameRecord(d.oracles[k], e.oracles[k])
    case CertifiedReleases =>
      |e.oracles| == |d.oracles|
      && forall k :: 0 <= k < |d.oracles| ==> e.oracles[k].versions == d.oracles[k].versions
    case RuntimeBuilds => e.runtimeBuilds == d.runtimeBuilds
    case FastokensNode => SameKey("fastokens", d.distributions, e.distributions)
    case OtherNodes => forall key :: key != "fastokens" ==> SameKey(key, d.distributions, e.distributions)
    case Rest => e.rest == d.rest
  }

  // The releases of any other package belong to its record.
  predicate SameRecord(a: Oracle, b: Oracle) {
    b.id == a.id && b.package == a.package && (a.package != "tokenizers" ==> b.versions == a.versions)
  }

  predicate SameKey(key: string, a: Fields, b: Fields) {
    (key in a <==> key in b) && (key in a && key in b ==> a[key] == b[key])
  }

  lemma SameMaps(a: Fields, b: Fields)
    requires forall key :: SameKey(key, a, b)
    ensures b == a
  {
    forall key
      ensures key in a <==> key in b
    {
      assert SameKey(key, a, b);
    }
    assert b.Keys == a.Keys;
    assert forall key :: key in a ==> SameKey(key, a, b);
  }

  // Nothing of a document is outside these fields but its digest.
  lemma FieldsCover(d: Document, e: Document)
    requires forall field :: SameField(field, d, e)
    ensures e.(root := d.root) == d
  {
    hide SamePart;
    assert SameField(OfRows(Identity), d, e);
    forall i | 0 <= i < |d.artifacts|
      ensures e.artifacts[i] == d.artifacts[i]
    {
      forall part
        ensures SamePart(part, d.artifacts[i], e.artifacts[i])
      {
        assert SameField(OfRows(part), d, e);
      }
      PartsCover(d.artifacts[i], e.artifacts[i]);
    }
    assert e.artifacts == d.artifacts;
    assert SameField(OracleRecords, d, e) && SameField(CertifiedReleases, d, e);
    forall k | 0 <= k < |d.oracles| ensures e.oracles[k] == d.oracles[k] {
      assert SameRecord(d.oracles[k], e.oracles[k]);
    }
    assert e.oracles == d.oracles;
    assert SameField(FastokensNode, d, e) && SameField(OtherNodes, d, e);
    SameMaps(d.distributions, e.distributions);
    assert SameField(RuntimeBuilds, d, e) && SameField(Rest, d, e);
  }

  // --- who writes what --------------------------------------------------------

  function Owns(op: Op): set<Field> {
    match op
    case Toolchain(_) => {OfRows(ViewToolchain), OfRows(JitToolchain)}
    case PrebuiltSync(_) => {OfRows(ViewSources), OfRows(JitSources), OfRows(PrebuiltDelivery)}
    case Update(w) =>
      match w
      case FastCpu(_) => {OfRows(CpuEntry)}
      case RustApi(_) => {RuntimeBuilds}
      case DirectJit(_) => {OfRows(JitDirect)}
      case Fastokens(_) => {FastokensNode}
      case LoaderFace(_) => {OfRows(Face)}
      case Widening(_, _) => {CertifiedReleases}
  }

  // Two operations are apart exactly when they own no field together, or are both widenings.
  lemma ApartMeans(a: Op, b: Op)
    ensures OpsApart(a, b) <==>
              Owns(a) !! Owns(b) || (CertifiedReleases in Owns(a) && CertifiedReleases in Owns(b))
  {
  }

  lemma RowKeeps(env: Env, op: Op, part: Part, row: Artifact)
    requires OfRows(part) !in Owns(op)
    ensures SamePart(part, row, OpRow(env, op, row))
  {
    hide SamePart, SyncToolchainRow, SyncPrebuiltRow, EditRow;
    match op
    case Toolchain(constraint) => ToolchainRowKeeps(constraint, part, row);
    case PrebuiltSync(s) => PrebuiltRowKeeps(s, part, row);
    case Update(w) => WriterRowKeeps(env, w, part, row);
  }

  lemma ToolchainRowKeeps(constraint: string, part: Part, row: Artifact)
    requires part != ViewToolchain && part != JitToolchain
    ensures SamePart(part, row, SyncToolchainRow(constraint, row))
  {
  }

  lemma PrebuiltRowKeeps(s: Shipped, part: Part, row: Artifact)
    requires part != ViewSources && part != JitSources && part != PrebuiltDelivery
    ensures SamePart(part, row, SyncPrebuiltRow(s, row))
  {
    hide Embedded;
  }

  lemma WriterRowKeeps(env: Env, w: Writer, part: Part, row: Artifact)
    requires OfRows(part) !in Owns(Update(w))
    ensures SamePart(part, row, EditRow(env, w, true, row))
  {
    hide CertifiedEntry;
  }

  lemma PartSelf(part: Part, row: Artifact)
    ensures SamePart(part, row, row)
  {
  }

  lemma OraclesKeep(env: Env, op: Op, d: Document)
    ensures |EditOp(env, op, d).oracles| == |d.oracles|
    ensures forall k :: 0 <= k < |d.oracles| ==> SameRecord(d.oracles[k], EditOp(env, op, d).oracles[k])
    ensures !(op.Update? && op.writer.Widening?) ==> EditOp(env, op, d).oracles == d.oracles
  {
    hide EditRows, OpRows, Builds;
    var e := EditOp(env, op, d);
    if !(op.Update? && op.writer.Widening?) { assert e.oracles == d.oracles; }
  }

  lemma RowsKeep(env: Env, op: Op, part: Part, d: Document)
    requires OfRows(part) !in Owns(op)
    ensures SameField(OfRows(part), d, EditOp(env, op, d))
  {
    hide OpRow, SamePart, Owns;
    EditIsOp(env, op, d);
    forall i | 0 <= i < |d.artifacts|
      ensures SamePart(part, d.artifacts[i], EditOp(env, op, d).artifacts[i])
    {
      RowKeeps(env, op, part, d.artifacts[i]);
    }
  }

  lemma EditKeeps(env: Env, op: Op, d: Document, field: Field)
    requires field !in Owns(op)
    ensures SameField(field, d, EditOp(env, op, d))
  {
    hide OpRows, SamePart, EditRows, EditOracles, Builds;
    OraclesKeep(env, op, d);
    match field
    case OfRows(part) => RowsKeep(env, op, part, d);
    case _ =>
  }

  lemma RootIsNoField(env: Env, d: Document, e: Document, field: Field)
    requires SameField(field, d, e)
    ensures SameField(field, d, WithRoot(env, e))
  {
    hide SamePart, RootDigest;
  }

  // An operation leaves every field it does not own as it was.
  lemma StepKeeps(env: Env, op: Op, d: Document, field: Field)
    requires Step(env, op, d).Some? && field !in Owns(op)
    ensures SameField(field, d, Step(env, op, d).value)
  {
    hide AcceptsOp, EditOp, SameField, WithRoot, Owns;
    EditKeeps(env, op, d, field);
    RootIsNoField(env, d, EditOp(env, op, d), field);
  }

  lemma PartFurther(part: Part, a: Artifact, b: Artifact, c: Artifact)
    requires SamePart(part, a, b) && SamePart(part, b, c) && SamePart(Shape, a, b) && SamePart(Shape, b, c)
    ensures SamePart(part, a, c)
  {
  }

  lemma FieldFurther(a: Document, b: Document, c: Document, field: Field)
    requires SameField(field, a, b) && SameField(field, b, c)
    requires SameField(OfRows(Shape), a, b) && SameField(OfRows(Shape), b, c)
    ensures SameField(field, a, c)
  {
    hide SamePart;
    match field
    case OfRows(part) =>
      forall i | 0 <= i < |a.artifacts|
        ensures SamePart(part, a.artifacts[i], c.artifacts[i])
      {
        PartFurther(part, a.artifacts[i], b.artifacts[i], c.artifacts[i]);
      }
    case OracleRecords =>
      forall k | 0 <= k < |a.oracles| ensures SameRecord(a.oracles[k], c.oracles[k]) {
        assert SameRecord(a.oracles[k], b.oracles[k]) && SameRecord(b.oracles[k], c.oracles[k]);
      }
    case OtherNodes =>
      forall key | key != "fastokens"
        ensures SameKey(key, a.distributions, c.distributions)
      {
        assert SameKey(key, a.distributions, b.distributions) && SameKey(key, b.distributions, c.distributions);
      }
    case _ =>
  }

  lemma FieldSelf(d: Document, field: Field)
    ensures SameField(field, d, d)
  {
    hide SamePart;
    forall part, i | 0 <= i < |d.artifacts| ensures SamePart(part, d.artifacts[i], d.artifacts[i]) {
      PartSelf(part, d.artifacts[i]);
    }
  }

  lemma NobodyOwnsShape(op: Op)
    ensures OfRows(Shape) !in Owns(op)
  {
  }

  // A field that no operation of a run owns is at the end what it was.
  lemma {:induction false} RunKeeps(env: Env, ops: seq<Op>, d: Document, field: Field)
    requires Run(env, ops, d).Some? && forall k :: 0 <= k < |ops| ==> field !in Owns(ops[k])
    ensures SameField(field, d, Run(env, ops, d).value)
    ensures SameField(OfRows(Shape), d, Run(env, ops, d).value)
  {
    hide Step, SameField, Owns;
    if ops == [] {
      FieldSelf(d, field);
      FieldSelf(d, OfRows(Shape));
    } else {
      var n := |ops| - 1;
      var x := Run(env, ops[..n], d).value;
      RunKeeps(env, ops[..n], d, field);
      NobodyOwnsShape(ops[n]);
      StepKeeps(env, ops[n], x, field);
      StepKeeps(env, ops[n], x, OfRows(Shape));
      var e := Run(env, ops, d).value;
      FieldFurther(d, x, e, field);
      FieldFurther(d, x, e, OfRows(Shape));
    }
  }

  // --- inside what an operation owns ------------------------------------------

  // A toolchain sync touches certified rows alone, a prebuilt sync rows with a prebuilt delivery; of
  // that delivery's host facts those it does not bring stay.
  lemma SyncTouches(env: Env, op: Op, d: Document, i: nat)
    requires Step(env, op, d).Some? && i < |d.artifacts|
    ensures var row, now := d.artifacts[i], Step(env, op, d).value.artifacts[i];
            && (op.Toolchain? && (row.gpu.None? || row.gpu.value.view.status != Some("certified_source")) ==>
                  now == row)
            && (op.PrebuiltSync? && PrebuiltOf(row).None? ==> now == row)
            && (op.PrebuiltSync? && PrebuiltOf(row).Some? && PrebuiltOf(now).Some? ==>
                  forall key :: key !in op.shipped.host && key != "host_source_digest_v2" ==>
                      SameKey(key, PrebuiltOf(row).value.host, PrebuiltOf(now).value.host))
  {
    hide Embedded, RootDigest, EvidencePasses, Accepts, Edit;
  }
}
