/** The two syncs that write the registry beside its writers, and how the eight operations get along. */
module RegistrySyncs {
  import opened Registry
  import opened RegistryAcceptance
  import opened RegistryChecks
  import opened Wrappers

  // --- the syncs --------------------------------------------------------------

  const CERTIFIED_SOURCE: string := "certified_source"
  const CERTIFIED: string := "certified"
  const HOST_V2: string := "host_source_digest_v2"

  // What a prebuilt sync binds: the shipped fatbin, its manifest, the kernel sources and the host.
  // `passing` are the architectures whose hardware reading passes for the registry's rows.
  datatype Shipped = Shipped(
    passing: set<string>, kernelSource: string, classTable: string, binary: string, toolchain: string,
    certified: set<string>, architectures: map<string, string>, host: Fields, hostV2: string)

  predicate IsImage(architecture: string) { |architecture| >= 3 && architecture[..3] == "sm_" }

  function Embedded(s: Shipped): set<string> { set a | a in s.architectures && IsImage(a) }

  function SyncToolchainRow(constraint: string, row: Artifact): (r: Artifact)
    ensures !IsCertified(row) ==> r == row
  {
    if row.gpu.None? || row.gpu.value.view.status != Some(CERTIFIED_SOURCE) then row
    else
      var gpu := row.gpu.value;
      var view := gpu.view.(toolchain := Some(constraint));
      if !HasJit(row) then row.(gpu := Some(gpu.(view := view)))
      else
        var jit := gpu.deliveries.value.jit.value;
        var bound := jit.(view := jit.view.(toolchain := Some(constraint)));
        row.(gpu := Some(Gpu(view, Some(gpu.deliveries.value.(jit := Some(bound))))))
  }

  predicate HasPrebuilt(row: Artifact) {
    row.gpu.Some? && row.gpu.value.deliveries.Some? && row.gpu.value.deliveries.value.prebuilt.Some?
  }

  function Rebind(s: Shipped, view: View): View {
    view.(sourceDigest := Some(s.kernelSource), classTableDigest := Some(s.classTable))
  }

  function SyncPrebuiltRow(s: Shipped, row: Artifact): (r: Artifact)
    ensures !HasPrebuilt(row) ==> r == row
  {
    if !HasPrebuilt(row) || !HasJit(row) then row
    else
      var gpu := row.gpu.value;
      var jit, prebuilt := gpu.deliveries.value.jit.value, gpu.deliveries.value.prebuilt.value;
      row.(gpu := Some(Gpu(
             Rebind(s, gpu.view),
             Some(Deliveries(
               Some(jit.(view := Rebind(s, jit.view))),
               Some(Prebuilt(CERTIFIED, s.binary, s.toolchain, s.certified, Embedded(s) - s.certified, s.architectures,
                             prebuilt.host + s.host[HOST_V2 := s.hostV2])))))))
  }

  predicate IsCertified(row: Artifact) { row.gpu.Some? && row.gpu.value.view.status == Some(CERTIFIED_SOURCE) }

  predicate AnyCertified(rows: seq<Artifact>) { exists i :: 0 <= i < |rows| && IsCertified(rows[i]) }

  predicate AnyPrebuilt(rows: seq<Artifact>) { exists i :: 0 <= i < |rows| && HasPrebuilt(rows[i]) }

  predicate PrebuiltReady(rows: seq<Artifact>) {
    && AnyPrebuilt(rows)
    && (forall i :: 0 <= i < |rows| && HasPrebuilt(rows[i]) ==> HasJit(rows[i]))
  }

  // The devices the document already certifies, and the demand for their readings.
  function DevicesOf(row: Artifact): set<string> {
    if HasPrebuilt(row) && row.gpu.value.deliveries.value.prebuilt.value.status == CERTIFIED then
      row.gpu.value.deliveries.value.prebuilt.value.devices
    else {}
  }

  function CertifiedDevices(rows: seq<Artifact>): set<string> {
    if rows == [] then {} else CertifiedDevices(rows[..|rows| - 1]) + DevicesOf(rows[|rows| - 1])
  }

  predicate EvidencePasses(s: Shipped, rows: seq<Artifact>) {
    CertifiedDevices(rows) <= s.certified && CertifiedDevices(rows) <= s.passing
  }

  // --- the eight operations ---------------------------------------------------

  datatype Op = Toolchain(constraint: string) | PrebuiltSync(shipped: Shipped) | Update(writer: Writer)

  // What an operation makes of one row.
  function OpRow(env: Env, op: Op, row: Artifact): Artifact {
    match op
    case Toolchain(constraint) => SyncToolchainRow(constraint, row)
    case PrebuiltSync(s) => SyncPrebuiltRow(s, row)
    case Update(w) => EditRow(env, w, true, row)
  }

  function OpRows(env: Env, op: Op, rows: seq<Artifact>): (r: seq<Artifact>)
    ensures |r| == |rows| && forall i :: 0 <= i < |rows| ==> r[i] == OpRow(env, op, rows[i])
  {
    seq(|rows|, i requires 0 <= i < |rows| => OpRow(env, op, rows[i]))
  }

  function EditOp(env: Env, op: Op, d: Document): Document {
    if op.Update? then Edit(env, op.writer, true, d) else d.(artifacts := OpRows(env, op, d.artifacts))
  }

  predicate AcceptsOp(op: Op, d: Document) {
    match op
    case Toolchain(_) => AnyCertified(d.artifacts)
    case PrebuiltSync(s) => EvidencePasses(s, d.artifacts) && PrebuiltReady(d.artifacts)
    case Update(w) => Accepts(w, d)
  }

  function Step(env: Env, op: Op, d: Document): Option<Document> {
    if AcceptsOp(op, d) then Some(WithRoot(env, EditOp(env, op, d))) else None
  }

  // --- the tools' loops, assigning in place -----------------------------------

  // One row of the toolchain sync: the view, then the JIT view where there is one.
  method NameConstraint(constraint: string, row: Artifact) returns (r: Artifact)
    requires IsCertified(row)
    ensures r == SyncToolchainRow(constraint, row)
  {
    var gpu := row.gpu.value;
    gpu := gpu.(view := gpu.view.(toolchain := Some(constraint)));
    if gpu.deliveries.Some? && gpu.deliveries.value.jit.Some? {
      var jit := gpu.deliveries.value.jit.value;
      jit := jit.(view := jit.view.(toolchain := Some(constraint)));
      gpu := gpu.(deliveries := Some(gpu.deliveries.value.(jit := Some(jit))));
    }
    r := row.(gpu := Some(gpu));
  }

  method SyncToolchain(env: Env, constraint: string, d: Document) returns (r: Option<Document>)
    ensures r == Step(env, Toolchain(constraint), d)
  {
    hide RootDigest, IsCertified, SyncToolchainRow;
    var rows := new Artifact[|d.artifacts|](i requires 0 <= i < |d.artifacts| => d.artifacts[i]);
    var changed := 0;
    for i := 0 to rows.Length
      invariant forall k :: 0 <= k < i ==> rows[k] == SyncToolchainRow(constraint, d.artifacts[k])
      invariant forall k :: i <= k < rows.Length ==> rows[k] == d.artifacts[k]
      invariant changed > 0 <==> exists k :: 0 <= k < i && IsCertified(d.artifacts[k])
      invariant changed >= 0
    {
      if !IsCertified(rows[i]) { continue; }
      var row := NameConstraint(constraint, rows[i]);
      rows[i] := row;
      changed := changed + 1;
    }
    if changed == 0 { return None; }
    assert rows[..] == OpRows(env, Toolchain(constraint), d.artifacts);
    r := Some(WithRoot(env, d.(artifacts := rows[..])));
  }

  // One row of the prebuilt sync: the view, the JIT view, then the delivery itself.
  method BindShipped(s: Shipped, embedded: set<string>, row: Artifact) returns (r: Artifact)
    requires HasPrebuilt(row) && HasJit(row) && embedded == Embedded(s)
    ensures r == SyncPrebuiltRow(s, row)
  {
    hide Embedded;
    var gpu := row.gpu.value;
    var jit, prebuilt := gpu.deliveries.value.jit.value, gpu.deliveries.value.prebuilt.value;
    gpu := gpu.(view := gpu.view.(sourceDigest := Some(s.kernelSource), classTableDigest := Some(s.classTable)));
    jit := jit.(view := jit.view.(sourceDigest := Some(s.kernelSource), classTableDigest := Some(s.classTable)));
    prebuilt := Prebuilt(CERTIFIED, s.binary, s.toolchain, s.certified, embedded - s.certified, s.architectures,
                         prebuilt.host + s.host[HOST_V2 := s.hostV2]);
    r := row.(gpu := Some(gpu.(deliveries := Some(Deliveries(Some(jit), Some(prebuilt))))));
  }

  method SyncPrebuilt(env: Env, s: Shipped, d: Document) returns (r: Option<Document>)
    ensures r == Step(env, PrebuiltSync(s), d)
  {
    hide EvidencePasses, RootDigest, HasPrebuilt, HasJit, SyncPrebuiltRow, Embedded;
    if !EvidencePasses(s, d.artifacts) { return None; }
    var embedded := Embedded(s);
    var rows := new Artifact[|d.artifacts|](i requires 0 <= i < |d.artifacts| => d.artifacts[i]);
    var changed := 0;
    for i := 0 to rows.Length
      invariant forall k :: 0 <= k < i && HasPrebuilt(d.artifacts[k]) ==> HasJit(d.artifacts[k])
      invariant forall k :: 0 <= k < i ==> rows[k] == SyncPrebuiltRow(s, d.artifacts[k])
      invariant forall k :: i <= k < rows.Length ==> rows[k] == d.artifacts[k]
      invariant changed > 0 <==> exists k :: 0 <= k < i && HasPrebuilt(d.artifacts[k])
      invariant changed >= 0
    {
      var row := rows[i];
      if !HasPrebuilt(row) { continue; }
      if !HasJit(row) { return None; }
      row := BindShipped(s, embedded, row);
      rows[i] := row;
      changed := changed + 1;
    }
    if changed == 0 { return None; }
    assert rows[..] == OpRows(env, PrebuiltSync(s), d.artifacts);
    r := Some(WithRoot(env, d.(artifacts := rows[..])));
  }

  // --- two operations ---------------------------------------------------------

  // Operations of different fields. A sync writes none that a writer does, nor that the other sync does.
  predicate OpsApart(a: Op, b: Op) {
    match (a, b)
    case (Update(v), Update(w)) => Apart(v, w)
    case (Toolchain(_), Toolchain(_)) => false
    case (PrebuiltSync(_), PrebuiltSync(_)) => false
    case _ => true
  }

  lemma ToolchainRowCommutes(env: Env, constraint: string, w: Writer, v2: bool, row: Artifact)
    ensures SyncToolchainRow(constraint, EditRow(env, w, v2, row))
         == EditRow(env, w, v2, SyncToolchainRow(constraint, row))
  {
    hide CertifiedEntry, BindJit;
    if w.DirectJit? { ToolchainBindCommutes(env, constraint, w.reading, v2, row); }
  }

  lemma ToolchainBindCommutes(env: Env, constraint: string, r: JitReading, v2: bool, row: Artifact)
    ensures SyncToolchainRow(constraint, BindJit(env, r, v2, row))
         == BindJit(env, r, v2, SyncToolchainRow(constraint, row))
  {
  }

  lemma PrebuiltRowCommutes(env: Env, s: Shipped, w: Writer, v2: bool, row: Artifact)
    ensures SyncPrebuiltRow(s, EditRow(env, w, v2, row)) == EditRow(env, w, v2, SyncPrebuiltRow(s, row))
  {
    hide CertifiedEntry, BindJit, Embedded;
    if w.DirectJit? { PrebuiltBindCommutes(env, s, w.reading, v2, row); }
  }

  lemma PrebuiltBindCommutes(env: Env, s: Shipped, r: JitReading, v2: bool, row: Artifact)
    ensures SyncPrebuiltRow(s, BindJit(env, r, v2, row)) == BindJit(env, r, v2, SyncPrebuiltRow(s, row))
  {
    hide Embedded;
  }

  lemma SyncRowsCommute(constraint: string, s: Shipped, row: Artifact)
    ensures SyncToolchainRow(constraint, SyncPrebuiltRow(s, row))
         == SyncPrebuiltRow(s, SyncToolchainRow(constraint, row))
  {
  }

  // A sync and a writer's edit, with whatever flag.
  lemma SyncEditCommute(env: Env, op: Op, w: Writer, v2: bool, d: Document)
    requires !op.Update?
    ensures EditOp(env, op, Edit(env, w, v2, d)) == Edit(env, w, v2, EditOp(env, op, d))
  {
    hide EditRow, EditOracles, Builds, SyncToolchainRow, SyncPrebuiltRow;
    var x, y := EditOp(env, op, Edit(env, w, v2, d)), Edit(env, w, v2, EditOp(env, op, d));
    forall i | 0 <= i < |d.artifacts|
      ensures x.artifacts[i] == y.artifacts[i]
    {
      match op
      case Toolchain(constraint) => ToolchainRowCommutes(env, constraint, w, v2, d.artifacts[i]);
      case PrebuiltSync(s) => PrebuiltRowCommutes(env, s, w, v2, d.artifacts[i]);
      case Update(_) =>
    }
    assert x.artifacts == y.artifacts;
  }

  lemma SyncsCommute(env: Env, a: Op, b: Op, d: Document)
    requires a.Toolchain? && b.PrebuiltSync?
    ensures EditOp(env, a, EditOp(env, b, d)) == EditOp(env, b, EditOp(env, a, d))
  {
    hide SyncToolchainRow, SyncPrebuiltRow;
    var x, y := EditOp(env, a, EditOp(env, b, d)), EditOp(env, b, EditOp(env, a, d));
    forall i | 0 <= i < |d.artifacts| ensures x.artifacts[i] == y.artifacts[i] {
      SyncRowsCommute(a.constraint, b.shipped, d.artifacts[i]);
    }
    assert x.artifacts == y.artifacts;
  }

  lemma OpsCommute(env: Env, a: Op, b: Op, d: Document)
    requires ValidEnv(env) && OpsApart(a, b)
    ensures EditOp(env, b, EditOp(env, a, d)) == EditOp(env, a, EditOp(env, b, d))
  {
    hide Edit, ValidEnv;
    match (a, b)
    case (Update(v), Update(w)) => EditsCommute(env, v, true, w, true, d);
    case (Update(v), _) => SyncEditCommute(env, b, v, true, d);
    case (_, Update(w)) => SyncEditCommute(env, a, w, true, d);
    case (Toolchain(_), _) => SyncsCommute(env, a, b, d);
    case (_, _) => SyncsCommute(env, b, a, d);
  }

  // Only the last root digest stays.
  lemma OpUnderRoot(env: Env, op: Op, d: Document)
    ensures WithRoot(env, EditOp(env, op, WithRoot(env, d))) == WithRoot(env, EditOp(env, op, d))
  {
    hide OpRows, Edit;
    if op.Update? { EditUnderRoot(env, op.writer, true, d); }
  }

  // --- what an operation leaves of the others' conditions ---------------------

  function AddedByOp(op: Op): set<string> { if op.Update? then AddedBy(op.writer) else {} }

  // What an operation asks of a document, were `more` certified for the oracle package and `devices`
  // certified for the fatbin.
  predicate AcceptsOpWith(op: Op, d: Document, more: set<string>, devices: set<string>) {
    match op
    case Toolchain(_) => AnyCertified(d.artifacts)
    case PrebuiltSync(s) => devices <= s.certified && devices <= s.passing && PrebuiltReady(d.artifacts)
    case Update(w) => AcceptsWith(w, d, more)
  }

  predicate SameDelivery(a: Artifact, b: Artifact) {
    IsCertified(a) == IsCertified(b) && HasPrebuilt(a) == HasPrebuilt(b) && HasJit(a) == HasJit(b)
  }

  // `e` has grown by `more`, and its rows are delivered as those of `d`.
  ghost predicate Reached(d: Document, e: Document, more: set<string>) {
    Grows(d, e, more) && forall i :: 0 <= i < |d.artifacts| ==> SameDelivery(d.artifacts[i], e.artifacts[i])
  }

  lemma ReachedSelf(d: Document)
    ensures Reached(d, d, {})
  {
    hide Grows;
    GrowsSelf(d);
  }

  lemma ReachedFurther(a: Document, b: Document, c: Document, more: set<string>, further: set<string>)
    requires Reached(a, b, more) && Reached(b, c, further)
    ensures Reached(a, c, more + further)
  {
    hide Grows, SameDelivery;
    GrowsFurther(a, b, c, more, further);
    GrownLengths(a, b, more);
    forall i | 0 <= i < |a.artifacts|
      ensures SameDelivery(a.artifacts[i], c.artifacts[i])
    {
      DeliveryFurther(a.artifacts[i], b.artifacts[i], c.artifacts[i]);
    }
  }

  lemma DeliveryFurther(a: Artifact, b: Artifact, c: Artifact)
    requires SameDelivery(a, b) && SameDelivery(b, c)
    ensures SameDelivery(a, c)
  {
  }

  lemma RowReached(env: Env, op: Op, row: Artifact)
    ensures SameIdentity(row, OpRow(env, op, row)) && SameDelivery(row, OpRow(env, op, row))
  {
  }

  lemma OpReaches(env: Env, op: Op, d: Document)
    requires ValidEnv(env)
    ensures Reached(d, EditOp(env, op, d), AddedByOp(op))
    ensures Reached(d, WithRoot(env, EditOp(env, op, d)), AddedByOp(op))
  {
    hide OpRow, SameIdentity, SameDelivery, OracleGrows, RootDigest, ValidEnv;
    var e := EditOp(env, op, d);
    forall i | 0 <= i < |d.artifacts|
      ensures SameIdentity(d.artifacts[i], e.artifacts[i]) && SameDelivery(d.artifacts[i], e.artifacts[i])
    {
      RowReached(env, op, d.artifacts[i]);
      EditIsOp(env, op, d);
    }
    if op.Update? {
      EditGrows(env, op.writer, true, d);
    } else {
      forall k | 0 <= k < |d.oracles| ensures OracleGrows(d.oracles[k], e.oracles[k], {}) {
        OracleStays(d.oracles[k]);
      }
    }
  }

  lemma EditIsOp(env: Env, op: Op, d: Document)
    ensures EditOp(env, op, d).artifacts == OpRows(env, op, d.artifacts)
  {
    hide EditRow, EditOracles, Builds;
  }

  lemma OracleStays(oracle: Oracle)
    ensures OracleGrows(oracle, oracle, {})
  {
  }

  // Exactly what an operation says of a document that others have reached.
  lemma AcceptsReached(op: Op, d: Document, e: Document, more: set<string>)
    requires Reached(d, e, more)
    ensures AcceptsOp(op, e) <==> AcceptsOpWith(op, d, more, CertifiedDevices(e.artifacts))
  {
    hide Grows, Accepts, AcceptsWith, IsCertified, HasPrebuilt, HasJit, CertifiedDevices;
    GrownLengths(d, e, more);
    forall i | 0 <= i < |d.artifacts|
      ensures IsCertified(d.artifacts[i]) == IsCertified(e.artifacts[i])
      ensures HasPrebuilt(d.artifacts[i]) == HasPrebuilt(e.artifacts[i])
      ensures HasJit(d.artifacts[i]) == HasJit(e.artifacts[i])
    {
      assert SameDelivery(d.artifacts[i], e.artifacts[i]);
    }
    match op
    case Update(w) => AcceptsGrown(w, d, e, more);
    case _ =>
  }

  // Only a prebuilt sync changes the devices certified for the fatbin, and then to what it names.
  lemma {:induction false} DevicesKept(env: Env, op: Op, rows: seq<Artifact>)
    requires !op.PrebuiltSync?
    ensures CertifiedDevices(OpRows(env, op, rows)) == CertifiedDevices(rows)
  {
    hide OpRow;
    if rows != [] {
      var n := |rows| - 1;
      DevicesKept(env, op, rows[..n]);
      assert OpRows(env, op, rows)[..n] == OpRows(env, op, rows[..n]);
      RowDevices(env, op, rows[n]);
    }
  }

  lemma RowDevices(env: Env, op: Op, row: Artifact)
    ensures !op.PrebuiltSync? ==> DevicesOf(OpRow(env, op, row)) == DevicesOf(row)
    ensures op.PrebuiltSync? && (HasPrebuilt(row) ==> HasJit(row)) ==>
              DevicesOf(OpRow(env, op, row)) == if HasPrebuilt(row) then op.shipped.certified else {}
  {
    hide Embedded;
  }

  lemma {:induction false} DevicesBound(env: Env, op: Op, rows: seq<Artifact>)
    requires op.PrebuiltSync? && forall i :: 0 <= i < |rows| && HasPrebuilt(rows[i]) ==> HasJit(rows[i])
    ensures CertifiedDevices(OpRows(env, op, rows))
         == if AnyPrebuilt(rows) then op.shipped.certified else {}
  {
    hide OpRow, HasPrebuilt, HasJit, DevicesOf;
    if rows == [] {
      assert !AnyPrebuilt([]);
    } else {
      hide AnyPrebuilt;
      var n := |rows| - 1;
      DevicesBound(env, op, rows[..n]);
      assert OpRows(env, op, rows)[..n] == OpRows(env, op, rows[..n]);
      RowDevices(env, op, rows[n]);
      AnyPrebuiltSnoc(rows);
    }
  }

  lemma AnyPrebuiltSnoc(rows: seq<Artifact>)
    requires rows != []
    ensures AnyPrebuilt(rows) <==> AnyPrebuilt(rows[..|rows| - 1]) || HasPrebuilt(rows[|rows| - 1])
  {
    hide HasPrebuilt;
    var front := rows[..|rows| - 1];
    assert forall i :: 0 <= i < |front| ==> HasPrebuilt(front[i]) == HasPrebuilt(rows[i]);
  }

  lemma StepDevices(env: Env, op: Op, d: Document)
    requires AcceptsOp(op, d)
    ensures CertifiedDevices(WithRoot(env, EditOp(env, op, d)).artifacts)
         == if op.PrebuiltSync? then op.shipped.certified else CertifiedDevices(d.artifacts)
  {
    hide OpRows, CertifiedDevices, HasPrebuilt, HasJit, EvidencePasses, Accepts, RootDigest;
    EditIsOp(env, op, d);
    if op.PrebuiltSync? { DevicesBound(env, op, d.artifacts); } else { DevicesKept(env, op, d.artifacts); }
  }

  // --- a sync again -----------------------------------------------------------

  lemma RowTwice(env: Env, op: Op, row: Artifact)
    requires !op.Update?
    ensures OpRow(env, op, OpRow(env, op, row)) == OpRow(env, op, row)
  {
    hide Embedded;
    if op.PrebuiltSync? && HasPrebuilt(row) && HasJit(row) {
      var host := row.gpu.value.deliveries.value.prebuilt.value.host;
      var own := op.shipped.host[HOST_V2 := op.shipped.hostV2];
      assert (host + own) + own == host + own;
    }
  }

  // A toolchain sync again changes nothing. A prebuilt sync again changes nothing either, but it is
  // refused exactly when an architecture it certified itself has no passing reading.
  lemma SyncTwice(env: Env, op: Op, d: Document, passing: set<string>)
    requires !op.Update? && AcceptsOp(op, d)
    ensures var e, again := Step(env, op, d).value,
                            if op.PrebuiltSync? then PrebuiltSync(op.shipped.(passing := passing)) else op;
            && (Step(env, again, e).Some? <==> (op.PrebuiltSync? ==> op.shipped.certified <= passing))
            && (Step(env, again, e).Some? ==> Step(env, again, e).value == e)
  {
    hide OpRow, CertifiedDevices, IsCertified, HasPrebuilt, HasJit, RootDigest;
    var x := EditOp(env, op, d);
    var e := WithRoot(env, x);
    var again := if op.PrebuiltSync? then PrebuiltSync(op.shipped.(passing := passing)) else op;
    StepDevices(env, op, d);
    forall i | 0 <= i < |d.artifacts|
      ensures OpRow(env, again, x.artifacts[i]) == x.artifacts[i]
      ensures SameDelivery(d.artifacts[i], x.artifacts[i])
    {
      PassingUnread(env, op, again, x.artifacts[i]);
      RowTwice(env, op, d.artifacts[i]);
      RowReached(env, op, d.artifacts[i]);
    }
    assert OpRows(env, again, x.artifacts) == x.artifacts;
    OpUnderRoot(env, again, x);
  }

  lemma PassingUnread(env: Env, op: Op, again: Op, row: Artifact)
    requires again == op
             || (op.PrebuiltSync? && again.PrebuiltSync?
                 && again.shipped == op.shipped.(passing := again.shipped.passing))
    ensures OpRow(env, again, row) == OpRow(env, op, row)
  {
  }

  // --- the writers' checks under a sync ---------------------------------------

  // A passing check still passes after a sync.
  lemma CheckKeptBySync(env: Env, w: Writer, op: Op, d: Document)
    requires ValidEnv(env) && !op.Update? && AcceptsOp(op, d) && Checked(env, w, d)
    ensures Checked(env, w, Step(env, op, d).value)
  {
    hide Accepts, Edit, OpRows, WithRoot, RecordsV2, CertifiedVersions, AcceptsOp, EvidenceFits, Reached;
    var x := EditOp(env, op, d);
    var e := WithRoot(env, x);
    if w.Widening? {
      SyncKeepsOracles(env, op, d);
    } else if w.LoaderFace? {
      SyncKeepsFaces(env, op, d);
    } else {
      var v := RecordsV2(w, d);
      SyncKeepsFlag(env, w, op, d);
      OpReaches(env, op, d);
      AcceptsUnderSync(w, op, d, e);
      SyncEditCommute(env, op, w, v, d);
      EditUnderRoot(env, w, v, x);
      OpUnderRoot(env, op, Edit(env, w, v, d));
    }
  }

  lemma AcceptsUnderSync(w: Writer, op: Op, d: Document, e: Document)
    requires !op.Update? && Reached(d, e, AddedByOp(op)) && Accepts(w, d)
    ensures Accepts(w, e)
  {
    hide Accepts, AcceptsWith, Grows;
    AcceptsGrown(w, d, e, {});
    AcceptsWithNothing(w, d);
  }

  lemma SyncKeepsOracles(env: Env, op: Op, d: Document)
    requires !op.Update?
    ensures var e := WithRoot(env, EditOp(env, op, d));
            e.oracles == d.oracles && e.root == Some(RootDigest(env, e))
  {
    hide OpRows;
  }

  lemma SyncKeepsFaces(env: Env, op: Op, d: Document)
    requires !op.Update?
    ensures var e := WithRoot(env, EditOp(env, op, d));
            |e.artifacts| == |d.artifacts|
            && forall i :: 0 <= i < |d.artifacts| ==>
               e.artifacts[i].face == d.artifacts[i].face && e.artifacts[i].family == d.artifacts[i].family
  {
    hide RootDigest, Embedded;
  }

  function DirectV2(row: Artifact): Option<string> {
    if HasJit(row) then row.gpu.value.deliveries.value.jit.value.directV2 else None
  }

  lemma RowKeepsFlag(env: Env, op: Op, row: Artifact)
    requires !op.Update?
    ensures var r := OpRow(env, op, row);
            r.fastCpu == row.fastCpu && HasJit(r) == HasJit(row) && DirectV2(r) == DirectV2(row)
  {
    hide Embedded;
  }

  lemma SyncKeepsFlag(env: Env, w: Writer, op: Op, d: Document)
    requires !op.Update?
    ensures RecordsV2(w, WithRoot(env, EditOp(env, op, d))) == RecordsV2(w, d)
  {
    hide OpRow, RootDigest;
    var e := EditOp(env, op, d);
    forall i | 0 <= i < |d.artifacts|
      ensures e.artifacts[i].fastCpu == d.artifacts[i].fastCpu && HasJit(e.artifacts[i]) == HasJit(d.artifacts[i])
      ensures DirectV2(e.artifacts[i]) == DirectV2(d.artifacts[i])
    {
      RowKeepsFlag(env, op, d.artifacts[i]);
    }
  }

  // --- what stands in the document at the end ---------------------------------

  predicate NamesConstraint(row: Artifact, constraint: string) {
    row.gpu.Some? && row.gpu.value.view.status == Some("certified_source") ==>
      && row.gpu.value.view.toolchain == Some(constraint)
      && (HasJit(row) ==> row.gpu.value.deliveries.value.jit.value.view.toolchain == Some(constraint))
  }

  // A prebuilt delivery is that of the shipped fatbin, and its view and JIT view name its sources.
  ghost predicate NamesShipped(row: Artifact, s: Shipped) {
    HasPrebuilt(row) ==>
      && HasJit(row)
      && var p, jit := row.gpu.value.deliveries.value.prebuilt.value, row.gpu.value.deliveries.value.jit.value;
         && p.status == "certified" && p.binaryDigest == s.binary && p.toolchain == s.toolchain
         && p.devices == s.certified && p.architectures == s.architectures
         && (forall a :: a in p.experimental <==> a in s.architectures && "sm_" <= a && a !in s.certified)
         && (forall key :: key in s.host && key != "host_source_digest_v2" ==>
               key in p.host && p.host[key] == s.host[key])
         && "host_source_digest_v2" in p.host && p.host["host_source_digest_v2"] == s.hostV2
         && row.gpu.value.view.sourceDigest == jit.view.sourceDigest == Some(s.kernelSource)
         && row.gpu.value.view.classTableDigest == jit.view.classTableDigest == Some(s.classTable)
  }

  ghost predicate RecordedOp(env: Env, op: Op, d: Document) {
    match op
    case Toolchain(constraint) => forall i :: 0 <= i < |d.artifacts| ==> NamesConstraint(d.artifacts[i], constraint)
    case PrebuiltSync(s) => forall i :: 0 <= i < |d.artifacts| ==> NamesShipped(d.artifacts[i], s)
    case Update(w) => Recorded(env, w, d)
  }

  lemma RowNames(env: Env, op: Op, row: Artifact)
    requires op.PrebuiltSync? && HasPrebuilt(row) ==> HasJit(row)
    ensures op.Toolchain? ==> NamesConstraint(OpRow(env, op, row), op.constraint)
    ensures op.PrebuiltSync? ==> NamesShipped(OpRow(env, op, row), op.shipped)
  {
    hide Embedded;
    if op.PrebuiltSync? { EmbeddedAre(op.shipped); }
  }

  // The embedded architectures are those named `sm_`.
  lemma EmbeddedAre(s: Shipped)
    ensures forall a :: a in Embedded(s) <==> a in s.architectures && "sm_" <= a
  {
  }

  // Right after an operation the document holds what it was given.
  lemma StepIsRecorded(env: Env, op: Op, d: Document)
    requires ValidEnv(env) && AcceptsOp(op, d)
    ensures RecordedOp(env, op, Step(env, op, d).value)
  {
    hide Accepts, OpRow, NamesConstraint, NamesShipped, EvidencePasses, IsCertified, HasPrebuilt, HasJit, RootDigest,
         Recorded, ValidEnv;
    if op.Update? {
      UpdateIsRecorded(env, op.writer, d);
    } else {
      forall i | 0 <= i < |d.artifacts|
        ensures op.Toolchain? ==> NamesConstraint(OpRow(env, op, d.artifacts[i]), op.constraint)
        ensures op.PrebuiltSync? ==> NamesShipped(OpRow(env, op, d.artifacts[i]), op.shipped)
      {
        RowNames(env, op, d.artifacts[i]);
      }
    }
  }
}
