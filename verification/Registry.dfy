/** The support registry as a document with several writers.

  Each writer owns some fields, checks the document against its own binding, and computes the root
  digest again. A value that a writer only copies is kept as its canonical text.
 */
module Registry {
  import opened Wrappers

  type Fields = map<string, string>

  // --- the document -----------------------------------------------------------

  // The six fields the JIT delivery restates. A field that is absent is `None`, as `.get` reads it.
  datatype View = View(
    status: Option<string>, sourceDigest: Option<string>, buildFlags: Option<string>,
    toolchain: Option<string>, classTableDigest: Option<string>, devices: Option<string>)

  datatype Jit = Jit(view: View, direct: Fields, directV2: Option<string>)

  datatype Prebuilt = Prebuilt(
    status: string, binaryDigest: string, toolchain: string, devices: set<string>, experimental: set<string>,
    architectures: map<string, string>, host: Fields)

  datatype Deliveries = Deliveries(jit: Option<Jit>, prebuilt: Option<Prebuilt>)

  datatype Gpu = Gpu(view: View, deliveries: Option<Deliveries>)

  datatype Artifact = Artifact(
    family: string, sha256: string, oracleId: string, evidenceId: string,
    face: Option<string>, fastCpu: Option<Fields>, gpu: Option<Gpu>)

  datatype Oracle = Oracle(id: string, package: string, versions: seq<string>)

  datatype Document = Document(
    artifacts: seq<Artifact>, oracles: seq<Oracle>, runtimeBuilds: seq<Fields>, distributions: Fields,
    rest: Fields, root: Option<string>)

  // What the writers take from elsewhere: the digest of a document, the listing of a set of
  // versions in order, and the version-normalized identities of the tree.
  datatype Env = Env(
    digest: Document -> string, sorted: set<string> -> seq<string>,
    fastCpuV2: string, rustApiV2: Fields, nativeHostV2: string)

  ghost predicate ValidEnv(env: Env) {
    && SOURCE_V2 in env.rustApiV2
    && forall s: set<string>, v {:trigger v in env.sorted(s)} :: v in env.sorted(s) <==> v in s
  }

  function RootDigest(env: Env, d: Document): string { env.digest(d.(root := None)) }

  function WithRoot(env: Env, d: Document): Document { d.(root := Some(RootDigest(env, d))) }

  // --- the bindings -----------------------------------------------------------

  // `sound` stands for every check a writer makes on its own files alone.
  datatype FastCpuBinding = FastCpuBinding(
    sound: bool, loadable: set<string>, rejected: set<string>, certified: Fields, unsupported: Fields,
    repair: map<string, string>, parity: map<string, string>)

  datatype RustBinding = RustBinding(
    sound: bool, matrices: seq<set<string>>, common: Fields, build: Fields, additional: seq<Fields>)

  datatype JitRow = JitRow(family: string, sha256: string, oracleId: string, oracleVersion: string, evidenceId: string)

  datatype JitReading = JitReading(sound: bool, rows: seq<JitRow>, direct: Fields)

  datatype FastokensBinding = FastokensBinding(
    sound: bool, families: map<string, string>, package: string, version: string, node: string)

  datatype Cached = Cached(sha256: string, face: string)

  // The releases inside the package metadata range, those some compatibility reading names, and
  // those whose readings have no problem.
  datatype Evidence = Evidence(inRange: set<string>, attested: set<string>, evidenced: set<string>)

  datatype Writer =
    | FastCpu(cpu: FastCpuBinding)
    | RustApi(rust: RustBinding)
    | DirectJit(reading: JitReading)
    | Fastokens(tokens: FastokensBinding)
    | LoaderFace(cache: map<string, Cached>)
    | Widening(evidence: Evidence, versions: set<string>)

  const CERTIFIED_CPU_ARTIFACTS := 11
  const MATRIX_FAMILIES := 15
  const ORACLE_PACKAGE: string := "tokenizers"
  const EMBEDDED_REFERENCE: string := "0.22.2"
  const SOURCE_V2: string := "source_digest_v2"

  // --- what a writer demands of the document ----------------------------------

  function Families(rows: seq<Artifact>): (r: set<string>)
    ensures forall f :: f in r <==> exists i :: 0 <= i < |rows| && rows[i].family == f
  {
    set i | 0 <= i < |rows| :: rows[i].family
  }

  // The row a dictionary by family keeps: the last.
  function RowOf(rows: seq<Artifact>, family: string): Option<Artifact> {
    if rows == [] then None
    else if rows[|rows| - 1].family == family then Some(rows[|rows| - 1])
    else RowOf(rows[..|rows| - 1], family)
  }

  function OracleOf(oracles: seq<Oracle>, id: string): Option<Oracle> {
    if oracles == [] then None
    else if oracles[|oracles| - 1].id == id then Some(oracles[|oracles| - 1])
    else OracleOf(oracles[..|oracles| - 1], id)
  }

  predicate RecordsSha(rows: seq<Artifact>, recorded: map<string, string>) {
    forall f :: f in recorded ==> RowOf(rows, f).Some? && RowOf(rows, f).value.sha256 == recorded[f]
  }

  predicate AcceptsFastCpu(b: FastCpuBinding, d: Document) {
    && b.sound && |b.loadable| == CERTIFIED_CPU_ARTIFACTS && b.loadable !! b.rejected
    && b.loadable <= Families(d.artifacts)
    && Families(d.artifacts) == b.loadable + b.rejected * Families(d.artifacts)
    && b.repair.Keys == b.loadable && RecordsSha(d.artifacts, b.repair)
    && b.parity.Keys == b.loadable && RecordsSha(d.artifacts, b.parity)
  }

  predicate AcceptsRust(b: RustBinding, d: Document) {
    && b.sound && |Families(d.artifacts)| == MATRIX_FAMILIES
    && forall k :: 0 <= k < |b.matrices| ==> b.matrices[k] == Families(d.artifacts)
  }

  predicate AdmitsRow(d: Document, row: JitRow) {
    var artifact := RowOf(d.artifacts, row.family);
    && artifact.Some? && row.sha256 == artifact.value.sha256
    && row.oracleId == artifact.value.oracleId && row.evidenceId == artifact.value.evidenceId
    && var oracle := OracleOf(d.oracles, artifact.value.oracleId);
       oracle.Some? && row.oracleVersion in oracle.value.versions
  }

  predicate HasJit(row: Artifact) {
    row.gpu.Some? && row.gpu.value.deliveries.Some? && row.gpu.value.deliveries.value.jit.Some?
  }

  predicate ValidReading(r: JitReading, d: Document) {
    && r.sound && |r.rows| == MATRIX_FAMILIES
    && (forall k :: 0 <= k < |r.rows| ==> AdmitsRow(d, r.rows[k]))
    && Families(d.artifacts) == (set k | 0 <= k < |r.rows| :: r.rows[k].family)
  }

  predicate AcceptsJit(r: JitReading, d: Document) {
    && ValidReading(r, d)
    && (forall i :: 0 <= i < |d.artifacts| ==> HasJit(d.artifacts[i]))
  }

  predicate AcceptsFastokens(b: FastokensBinding, d: Document) {
    && b.sound && RecordsSha(d.artifacts, b.families)
    && exists k :: 0 <= k < |d.oracles| && d.oracles[k].package == b.package && b.version in d.oracles[k].versions
  }

  predicate AcceptsCache(cache: map<string, Cached>, d: Document) {
    forall i :: 0 <= i < |d.artifacts| ==>
      d.artifacts[i].family in cache && cache[d.artifacts[i].family].sha256 == d.artifacts[i].sha256
  }

  // The embedded reference is asked neither for its range nor for readings.
  predicate AcceptsWidening(e: Evidence, versions: set<string>, d: Document) {
    && versions - {EMBEDDED_REFERENCE} <= e.inRange * e.evidenced
    && exists k :: 0 <= k < |d.oracles| && d.oracles[k].package == ORACLE_PACKAGE
  }

  predicate Accepts(w: Writer, d: Document) {
    match w
    case FastCpu(b) => AcceptsFastCpu(b, d)
    case RustApi(b) => AcceptsRust(b, d)
    case DirectJit(r) => AcceptsJit(r, d)
    case Fastokens(b) => AcceptsFastokens(b, d)
    case LoaderFace(cache) => AcceptsCache(cache, d)
    case Widening(e, versions) => AcceptsWidening(e, versions, d)
  }

  // --- what a writer writes ---------------------------------------------------

  function CertifiedEntry(env: Env, b: FastCpuBinding, v2: bool): Fields {
    if v2 then b.certified[SOURCE_V2 := env.fastCpuV2] else b.certified
  }

  function Builds(env: Env, b: RustBinding, v2: bool): seq<Fields> {
    var common := if v2 then b.common + env.rustApiV2 else b.common;
    var all := [b.build] + b.additional;
    seq(|all|, k requires 0 <= k < |all| => common + all[k])
  }

  function BindJit(env: Env, r: JitReading, v2: bool, row: Artifact): Artifact {
    if !HasJit(row) then row else
      var gpu := row.gpu.value;
      var jit := gpu.deliveries.value.jit.value;
      var bound := jit.(direct := r.direct, directV2 := if v2 then Some(env.nativeHostV2) else jit.directV2);
      row.(gpu := Some(gpu.(deliveries := Some(gpu.deliveries.value.(jit := Some(bound))))))
  }

  function EditRow(env: Env, w: Writer, v2: bool, row: Artifact): Artifact {
    match w
    case FastCpu(b) =>
      if row.family in b.loadable then row.(fastCpu := Some(CertifiedEntry(env, b, v2)))
      else if row.family in b.rejected then row.(fastCpu := Some(b.unsupported))
      else row
    case DirectJit(r) => BindJit(env, r, v2, row)
    case LoaderFace(cache) => if row.family in cache then row.(face := Some(cache[row.family].face)) else row
    case _ => row
  }

  function Listed(versions: seq<string>): set<string> { set k | 0 <= k < |versions| :: versions[k] }

  function EditOracle(env: Env, w: Writer, oracle: Oracle): Oracle {
    if w.Widening? && oracle.package == ORACLE_PACKAGE then
      oracle.(versions := env.sorted(Listed(oracle.versions) + w.versions))
    else oracle
  }

  function EditRows(env: Env, w: Writer, v2: bool, rows: seq<Artifact>): (r: seq<Artifact>)
    ensures |r| == |rows| && forall i :: 0 <= i < |rows| ==> r[i] == EditRow(env, w, v2, rows[i])
  {
    seq(|rows|, i requires 0 <= i < |rows| => EditRow(env, w, v2, rows[i]))
  }

  function EditOracles(env: Env, w: Writer, oracles: seq<Oracle>): (r: seq<Oracle>)
    ensures |r| == |oracles| && forall k :: 0 <= k < |oracles| ==> r[k] == EditOracle(env, w, oracles[k])
  {
    seq(|oracles|, k requires 0 <= k < |oracles| => EditOracle(env, w, oracles[k]))
  }

  function Edit(env: Env, w: Writer, v2: bool, d: Document): Document {
    d.(artifacts := EditRows(env, w, v2, d.artifacts),
       oracles := EditOracles(env, w, d.oracles),
       runtimeBuilds := if w.RustApi? then Builds(env, w.rust, v2) else d.runtimeBuilds,
       distributions := if w.Fastokens? then d.distributions["fastokens" := w.tokens.node] else d.distributions)
  }

  function Augmented(env: Env, w: Writer, v2: bool, d: Document): Option<Document> {
    if Accepts(w, d) then Some(WithRoot(env, Edit(env, w, v2, d))) else None
  }

  // An update records the version-normalized identities.
  function Apply(env: Env, w: Writer, d: Document): Option<Document> { Augmented(env, w, true, d) }

  // `_records_v2`: what a check infers from the document it is given.
  predicate RecordsV2(w: Writer, d: Document) {
    match w
    case FastCpu(_) =>
      exists i :: 0 <= i < |d.artifacts| && d.artifacts[i].fastCpu.Some? && SOURCE_V2 in d.artifacts[i].fastCpu.value
    case RustApi(_) => exists k :: 0 <= k < |d.runtimeBuilds| && SOURCE_V2 in d.runtimeBuilds[k]
    case DirectJit(_) =>
      exists i :: 0 <= i < |d.artifacts| && HasJit(d.artifacts[i])
                  && d.artifacts[i].gpu.value.deliveries.value.jit.value.directV2.Some?
    case _ => false
  }

  function CertifiedVersions(oracles: seq<Oracle>): set<string> {
    if oracles == [] then {}
    else CertifiedVersions(oracles[..|oracles| - 1])
         + if oracles[|oracles| - 1].package == ORACLE_PACKAGE then Listed(oracles[|oracles| - 1].versions) else {}
  }

  // Nothing is certified without its range and its readings, and nothing attested is missing; the
  // embedded reference is always certified, and needs no readings.
  predicate EvidenceFits(e: Evidence, versions: set<string>) {
    && EMBEDDED_REFERENCE in versions && versions <= e.inRange && versions - {EMBEDDED_REFERENCE} <= e.evidenced
    && e.attested <= versions
  }

  // A writer's `--check`. Most regenerate the document from itself and compare; the loader faces are
  // compared row by row, and the certified versions are held against the evidence.
  predicate Checked(env: Env, w: Writer, d: Document) {
    match w
    case LoaderFace(cache) =>
      forall i :: 0 <= i < |d.artifacts| && d.artifacts[i].family in cache ==>
        d.artifacts[i].face == Some(cache[d.artifacts[i].family].face)
    case Widening(e, _) => d.root == Some(RootDigest(env, d)) && EvidenceFits(e, CertifiedVersions(d.oracles))
    case _ => Augmented(env, w, RecordsV2(w, d), d) == Some(d)
  }

  // --- what no writer changes -------------------------------------------------

  predicate SameIdentity(a: Artifact, b: Artifact) {
    && a.family == b.family && a.sha256 == b.sha256 && a.oracleId == b.oracleId && a.evidenceId == b.evidenceId
    && HasJit(a) == HasJit(b)
  }

  ghost predicate Extends(d: Document, e: Document) {
    && |e.artifacts| == |d.artifacts| && |e.oracles| == |d.oracles|
    && (forall i :: 0 <= i < |d.artifacts| ==> SameIdentity(d.artifacts[i], e.artifacts[i]))
    && (forall k :: 0 <= k < |d.oracles| ==>
          && e.oracles[k].id == d.oracles[k].id && e.oracles[k].package == d.oracles[k].package
          && forall v :: v in d.oracles[k].versions ==> v in e.oracles[k].versions)
  }

  lemma SameFamilies(d: Document, e: Document)
    requires Extends(d, e)
    ensures Families(e.artifacts) == Families(d.artifacts)
  {
    assert forall i :: 0 <= i < |d.artifacts| ==> SameIdentity(d.artifacts[i], e.artifacts[i]);
    forall f
      ensures f in Families(e.artifacts) <==> f in Families(d.artifacts)
    {
      if f in Families(e.artifacts) {
        var i :| 0 <= i < |e.artifacts| && e.artifacts[i].family == f;
        assert d.artifacts[i].family == f;
      }
    }
  }

  lemma {:induction false} SameRow(a: seq<Artifact>, b: seq<Artifact>, family: string)
    requires |a| == |b| && forall i :: 0 <= i < |a| ==> SameIdentity(a[i], b[i])
    ensures RowOf(a, family).Some? <==> RowOf(b, family).Some?
    ensures RowOf(a, family).Some? ==> SameIdentity(RowOf(a, family).value, RowOf(b, family).value)
  {
    hide SameIdentity;
    if a != [] {
      var n := |a| - 1;
      assert SameIdentity(a[n], b[n]);
      SameRow(a[..n], b[..n], family);
      IdentityFamily(a[n], b[n]);
    }
  }

  lemma IdentityFamily(a: Artifact, b: Artifact)
    requires SameIdentity(a, b)
    ensures a.family == b.family
  {
  }

  lemma {:induction false} SameOracle(a: seq<Oracle>, b: seq<Oracle>, id: string, v: string)
    requires |a| == |b|
    requires forall k :: 0 <= k < |a| ==> a[k].id == b[k].id && (v in a[k].versions ==> v in b[k].versions)
    ensures OracleOf(a, id).Some? <==> OracleOf(b, id).Some?
    ensures OracleOf(a, id).Some? && v in OracleOf(a, id).value.versions ==> v in OracleOf(b, id).value.versions
  {
    if a != [] {
      SameOracle(a[..|a| - 1], b[..|b| - 1], id, v);
    }
  }

  lemma SameSha(d: Document, e: Document, recorded: map<string, string>)
    requires Extends(d, e)
    ensures RecordsSha(d.artifacts, recorded) ==> RecordsSha(e.artifacts, recorded)
  {
    hide RowOf;
    forall f | f in recorded
      ensures RowOf(d.artifacts, f).Some? <==> RowOf(e.artifacts, f).Some?
      ensures RowOf(d.artifacts, f).Some? ==> SameIdentity(RowOf(d.artifacts, f).value, RowOf(e.artifacts, f).value)
    {
      SameRow(d.artifacts, e.artifacts, f);
    }
  }

  lemma AdmitsKept(d: Document, e: Document, row: JitRow)
    requires Extends(d, e) && AdmitsRow(d, row)
    ensures AdmitsRow(e, row)
  {
    hide RowOf, OracleOf;
    SameRow(d.artifacts, e.artifacts, row.family);
    SameOracle(d.oracles, e.oracles, row.oracleId, row.oracleVersion);
  }

  // A document that keeps the identities and loses no version is accepted by whoever accepted it.
  lemma AcceptsKept(w: Writer, d: Document, e: Document)
    requires Extends(d, e) && Accepts(w, d)
    ensures Accepts(w, e)
  {
    hide AdmitsRow, RecordsSha, HasJit;
    SameFamilies(d, e);
    match w
    case FastCpu(b) =>
      SameSha(d, e, b.repair);
      SameSha(d, e, b.parity);
    case RustApi(b) =>
    case DirectJit(r) =>
      forall k | 0 <= k < |r.rows| ensures AdmitsRow(e, r.rows[k]) { AdmitsKept(d, e, r.rows[k]); }
      forall i | 0 <= i < |e.artifacts|
        ensures HasJit(e.artifacts[i])
      {
        assert SameIdentity(d.artifacts[i], e.artifacts[i]);
      }
    case Fastokens(b) =>
      SameSha(d, e, b.families);
      var k :| 0 <= k < |d.oracles| && d.oracles[k].package == b.package && b.version in d.oracles[k].versions;
      assert e.oracles[k].package == b.package;
    case LoaderFace(cache) =>
      assert forall i :: 0 <= i < |d.artifacts| ==> SameIdentity(d.artifacts[i], e.artifacts[i]);
    case Widening(_, versions) =>
      var k :| 0 <= k < |d.oracles| && d.oracles[k].package == ORACLE_PACKAGE;
      assert e.oracles[k].package == ORACLE_PACKAGE;
  }

  lemma EditRowIdentity(env: Env, w: Writer, v2: bool, row: Artifact)
    ensures SameIdentity(row, EditRow(env, w, v2, row))
  {
  }

  lemma EditExtends(env: Env, w: Writer, v2: bool, d: Document)
    requires ValidEnv(env)
    ensures Extends(d, Edit(env, w, v2, d)) && Extends(d, WithRoot(env, Edit(env, w, v2, d)))
  {
    hide EditRow, SameIdentity;
    forall i | 0 <= i < |d.artifacts|
      ensures SameIdentity(d.artifacts[i], Edit(env, w, v2, d).artifacts[i])
    {
      EditRowIdentity(env, w, v2, d.artifacts[i]);
    }
    forall k, v | 0 <= k < |d.oracles| && v in d.oracles[k].versions
      ensures v in EditOracle(env, w, d.oracles[k]).versions
    {
      assert v in Listed(d.oracles[k].versions);
    }
  }

  // --- two writers ------------------------------------------------------------

  // Writers of different fields; two widenings write the same field, but only add to it.
  predicate Apart(a: Writer, b: Writer) {
    || (a.Widening? && b.Widening?)
    || !((a.FastCpu? && b.FastCpu?) || (a.RustApi? && b.RustApi?) || (a.DirectJit? && b.DirectJit?)
         || (a.Fastokens? && b.Fastokens?) || (a.LoaderFace? && b.LoaderFace?))
  }

  lemma RowEditsCommute(env: Env, a: Writer, va: bool, b: Writer, vb: bool, row: Artifact)
    requires Apart(a, b)
    ensures EditRow(env, b, vb, EditRow(env, a, va, row)) == EditRow(env, a, va, EditRow(env, b, vb, row))
  {
  }

  lemma ListedSorted(env: Env, s: set<string>)
    requires ValidEnv(env)
    ensures Listed(env.sorted(s)) == s
  {
    forall v
      ensures v in Listed(env.sorted(s)) <==> v in s
    {
      assert v in env.sorted(s) <==> v in s;
    }
  }

  lemma OracleEditsCommute(env: Env, a: Writer, b: Writer, oracle: Oracle)
    requires ValidEnv(env) && Apart(a, b)
    ensures EditOracle(env, b, EditOracle(env, a, oracle)) == EditOracle(env, a, EditOracle(env, b, oracle))
  {
    hide Listed;
    if a.Widening? && b.Widening? {
      ListedSorted(env, Listed(oracle.versions) + a.versions);
      ListedSorted(env, Listed(oracle.versions) + b.versions);
      assert Listed(oracle.versions) + a.versions + b.versions == Listed(oracle.versions) + b.versions + a.versions;
    }
  }

  lemma EditsCommute(env: Env, a: Writer, va: bool, b: Writer, vb: bool, d: Document)
    requires ValidEnv(env) && Apart(a, b)
    ensures Edit(env, b, vb, Edit(env, a, va, d)) == Edit(env, a, va, Edit(env, b, vb, d))
  {
    hide EditRow, EditOracle;
    var x, y := Edit(env, b, vb, Edit(env, a, va, d)), Edit(env, a, va, Edit(env, b, vb, d));
    forall i | 0 <= i < |d.artifacts| ensures x.artifacts[i] == y.artifacts[i] {
      RowEditsCommute(env, a, va, b, vb, d.artifacts[i]);
    }
    forall k | 0 <= k < |d.oracles|
      ensures x.oracles[k] == y.oracles[k]
    {
      OracleEditsCommute(env, a, b, d.oracles[k]);
    }
    assert x.artifacts == y.artifacts && x.oracles == y.oracles;
  }

  // Only the last root digest stays.
  lemma EditUnderRoot(env: Env, w: Writer, v2: bool, d: Document)
    ensures WithRoot(env, Edit(env, w, v2, WithRoot(env, d))) == WithRoot(env, Edit(env, w, v2, d))
  {
    hide EditRows, EditOracles, Builds;
  }

  // Two writers a document is ready for can run in either order, and give the same document.
  lemma WritersCommute(env: Env, a: Writer, b: Writer, d: Document)
    requires ValidEnv(env) && Apart(a, b) && Accepts(a, d) && Accepts(b, d)
    ensures Apply(env, a, d).Some? && Apply(env, b, d).Some?
    ensures Apply(env, b, Apply(env, a, d).value) == Apply(env, a, Apply(env, b, d).value)
    ensures Apply(env, b, Apply(env, a, d).value).Some?
  {
    hide Accepts, Edit, Extends, WithRoot;
    EditExtends(env, a, true, d);
    EditExtends(env, b, true, d);
    AcceptsKept(b, d, WithRoot(env, Edit(env, a, true, d)));
    AcceptsKept(a, d, WithRoot(env, Edit(env, b, true, d)));
    EditUnderRoot(env, b, true, Edit(env, a, true, d));
    EditUnderRoot(env, a, true, Edit(env, b, true, d));
    EditsCommute(env, a, true, b, true, d);
  }
}
