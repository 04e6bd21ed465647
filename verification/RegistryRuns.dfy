/** Runs of the registry's writers and syncs: when they succeed, that their order does not matter, and
  what holds at the end. */
module RegistryRuns {
  import opened Registry
  import opened RegistryAcceptance
  import opened RegistryChecks
  import opened RegistrySyncs
  import opened Wrappers

  function Run(env: Env, ops: seq<Op>, d: Document): Option<Document> {
    if ops == [] then Some(d)
    else
      var before := Run(env, ops[..|ops| - 1], d);
      if before.None? then None else Step(env, ops[|ops| - 1], before.value)
  }

  // The releases that widenings of the run add.
  function Added(ops: seq<Op>): set<string> {
    if ops == [] then {} else Added(ops[..|ops| - 1]) + AddedByOp(ops[|ops| - 1])
  }

  // The devices certified for the fatbin after the run: those the last prebuilt sync names.
  function DevicesAfter(ops: seq<Op>, devices: set<string>): set<string> {
    if ops == [] then devices
    else if ops[|ops| - 1].PrebuiltSync? then ops[|ops| - 1].shipped.certified
    else DevicesAfter(ops[..|ops| - 1], devices)
  }

  ghost predicate AllApart(ops: seq<Op>) { forall i, j :: 0 <= i < j < |ops| ==> OpsApart(ops[i], ops[j]) }

  // --- when a run succeeds ----------------------------------------------------

  // Operation `k` would accept the first document, were certified what those before it certify.
  ghost predicate ReadyAt(ops: seq<Op>, d: Document, k: nat)
    requires k < |ops|
  {
    AcceptsOpWith(ops[k], d, Added(ops[..k]), DevicesAfter(ops[..k], CertifiedDevices(d.artifacts)))
  }

  ghost predicate Ready(ops: seq<Op>, d: Document) { forall k :: 0 <= k < |ops| ==> ReadyAt(ops, d, k) }

  lemma ReadySnoc(ops: seq<Op>, d: Document)
    requires ops != []
    ensures var n := |ops| - 1; Ready(ops, d) <==> Ready(ops[..n], d) && ReadyAt(ops, d, n)
  {
    hide AcceptsOpWith, Added, DevicesAfter, CertifiedDevices;
    var n := |ops| - 1;
    forall k | 0 <= k < n
      ensures ReadyAt(ops[..n], d, k) == ReadyAt(ops, d, k)
    {
      assert ops[..n][..k] == ops[..k] && ops[..n][k] == ops[k];
    }
  }

  // Exactly when a run succeeds; and what it has grown the document by.
  lemma {:induction false} RunSucceeds(env: Env, ops: seq<Op>, d: Document)
    requires ValidEnv(env)
    ensures Run(env, ops, d).Some? <==> Ready(ops, d)
    ensures Run(env, ops, d).Some? ==>
              var e := Run(env, ops, d).value;
              && Reached(d, e, Added(ops))
              && CertifiedDevices(e.artifacts) == DevicesAfter(ops, CertifiedDevices(d.artifacts))
  {
    hide AcceptsOp, AcceptsOpWith, Reached, EditOp, WithRoot, Ready, ValidEnv, CertifiedDevices;
    if ops == [] {
      ReachedSelf(d);
      ReadyNothing(d);
    } else {
      var n := |ops| - 1;
      RunSucceeds(env, ops[..n], d);
      ReadySnoc(ops, d);
      if Run(env, ops[..n], d).Some? {
        var x := Run(env, ops[..n], d).value;
        AcceptsReached(ops[n], d, x, Added(ops[..n]));
        OpReaches(env, ops[n], x);
        ReachedFurther(d, x, WithRoot(env, EditOp(env, ops[n], x)), Added(ops[..n]), AddedByOp(ops[n]));
        if AcceptsOp(ops[n], x) { StepDevices(env, ops[n], x); }
      }
    }
  }

  lemma ReadyNothing(d: Document)
    ensures Ready([], d)
  {
  }

  ghost predicate AllAccept(ops: seq<Op>, d: Document) { forall k :: 0 <= k < |ops| ==> AcceptsOp(ops[k], d) }

  // At most one prebuilt sync: a second one asks for readings of what the first has certified.
  ghost predicate OnePrebuilt(ops: seq<Op>) {
    forall i, j :: 0 <= i < j < |ops| ==> !(ops[i].PrebuiltSync? && ops[j].PrebuiltSync?)
  }

  lemma {:induction false} DevicesStay(ops: seq<Op>, devices: set<string>)
    requires forall i :: 0 <= i < |ops| ==> !ops[i].PrebuiltSync?
    ensures DevicesAfter(ops, devices) == devices
  {
    if ops != [] { DevicesStay(ops[..|ops| - 1], devices); }
  }

  lemma AcceptsOpMonotone(op: Op, d: Document, less: set<string>, more: set<string>, devices: set<string>)
    requires less <= more && AcceptsOpWith(op, d, less, devices)
    ensures AcceptsOpWith(op, d, more, devices)
  {
    hide AcceptsWith;
    if op.Update? { AcceptsMonotone(op.writer, d, less, more); }
  }

  lemma AcceptsOpWithNothing(op: Op, d: Document)
    ensures AcceptsOpWith(op, d, {}, CertifiedDevices(d.artifacts)) <==> AcceptsOp(op, d)
  {
    hide AcceptsWith, Accepts, CertifiedDevices;
    if op.Update? { AcceptsWithNothing(op.writer, d); }
  }

  // In particular, operations that all accept the document succeed in any arrangement.
  lemma AcceptedRunSucceeds(env: Env, ops: seq<Op>, d: Document)
    requires ValidEnv(env) && AllAccept(ops, d) && OnePrebuilt(ops)
    ensures Run(env, ops, d).Some?
  {
    hide AcceptsOp, AcceptsOpWith, Run, CertifiedDevices, ValidEnv;
    forall k | 0 <= k < |ops|
      ensures ReadyAt(ops, d, k)
    {
      var devices := CertifiedDevices(d.artifacts);
      AcceptsOpWithNothing(ops[k], d);
      AcceptsOpMonotone(ops[k], d, {}, Added(ops[..k]), devices);
      if ops[k].PrebuiltSync? {
        DevicesStay(ops[..k], devices);
      } else {
        DevicesUnread(ops[k], d, Added(ops[..k]), devices, DevicesAfter(ops[..k], devices));
      }
    }
    RunSucceeds(env, ops, d);
  }

  lemma DevicesUnread(op: Op, d: Document, more: set<string>, a: set<string>, b: set<string>)
    requires !op.PrebuiltSync? && AcceptsOpWith(op, d, more, a)
    ensures AcceptsOpWith(op, d, more, b)
  {
    hide AcceptsWith;
  }

  // --- any order --------------------------------------------------------------

  // The edits of a run without its digests, whatever the operations accept.
  function EditAll(env: Env, ops: seq<Op>, d: Document): Document {
    if ops == [] then d else EditOp(env, ops[|ops| - 1], EditAll(env, ops[..|ops| - 1], d))
  }

  // A successful run leaves its edits under one digest.
  lemma {:induction false} RunIsEdits(env: Env, ops: seq<Op>, d: Document)
    requires Run(env, ops, d).Some? && ops != []
    ensures Run(env, ops, d).value == WithRoot(env, EditAll(env, ops, d))
  {
    hide AcceptsOp, EditOp, WithRoot;
    var n := |ops| - 1;
    if n > 0 {
      RunIsEdits(env, ops[..n], d);
      OpUnderRoot(env, ops[n], EditAll(env, ops[..n], d));
    } else {
      assert ops[..n] == [];
    }
  }

  lemma EditAllSnoc(env: Env, ops: seq<Op>, op: Op, d: Document)
    ensures EditAll(env, ops + [op], d) == EditOp(env, op, EditAll(env, ops, d))
  {
    assert (ops + [op])[..|ops|] == ops;
  }

  // An operation's edit can be moved behind those that follow it.
  lemma {:induction false} MoveLast(env: Env, front: seq<Op>, op: Op, back: seq<Op>, d: Document)
    requires ValidEnv(env) && forall k :: 0 <= k < |back| ==> OpsApart(op, back[k])
    ensures EditAll(env, front + [op] + back, d) == EditOp(env, op, EditAll(env, front + back, d))
    decreases |back|
  {
    hide EditAll, EditOp, OpsApart, ValidEnv;
    if back == [] {
      assert front + [op] + back == front + [op] && front + back == front;
      EditAllSnoc(env, front, op, d);
    } else {
      var n := |back| - 1;
      var rest, last := back[..n], back[n];
      MoveLast(env, front, op, rest, d);
      assert front + [op] + back == (front + [op] + rest) + [last] && front + back == (front + rest) + [last];
      EditAllSnoc(env, front + [op] + rest, last, d);
      EditAllSnoc(env, front + rest, last, d);
      OpsCommute(env, op, last, EditAll(env, front + rest, d));
    }
  }

  lemma ApartBothWays(a: Op, b: Op)
    ensures OpsApart(a, b) == OpsApart(b, a)
  {
  }

  lemma SubApart(b: seq<Op>, i: nat)
    requires i < |b| && AllApart(b)
    ensures AllApart(b[..i] + b[i + 1..])
    ensures var back := b[i + 1..]; forall k :: 0 <= k < |back| ==> OpsApart(b[i], back[k])
    ensures var r := b[..i] + b[i + 1..]; forall k :: 0 <= k < |r| ==> OpsApart(b[i], r[k])
  {
    hide OpsApart;
    var r := b[..i] + b[i + 1..];
    forall k | 0 <= k < |r|
      ensures r[k] == b[if k < i then k else k + 1] && OpsApart(b[i], r[k])
    {
      ApartBothWays(b[i], r[k]);
    }
  }

  lemma WithoutLast(a: seq<Op>, b: seq<Op>) returns (i: nat)
    requires a != [] && multiset(a) == multiset(b)
    ensures i < |b| && b[i] == a[|a| - 1]
    ensures multiset(a[..|a| - 1]) == multiset(b[..i] + b[i + 1..])
  {
    var n := |a| - 1;
    assert a == a[..n] + [a[n]];
    assert a[n] in multiset(b);
    i :| 0 <= i < |b| && b[i] == a[n];
    assert b == b[..i] + [b[i]] + b[i + 1..];
    assert multiset(b[..i] + b[i + 1..]) == multiset(b) - multiset{b[i]};
  }

  lemma {:induction false} EditsAnyOrder(env: Env, a: seq<Op>, b: seq<Op>, d: Document)
    requires ValidEnv(env) && multiset(a) == multiset(b) && AllApart(a) && AllApart(b)
    ensures EditAll(env, a, d) == EditAll(env, b, d)
    decreases |a|
  {
    hide EditOp, OpsApart, ValidEnv;
    if a == [] {
      assert |multiset(b)| == 0;
    } else {
      var n := |a| - 1;
      var i := WithoutLast(a, b);
      SubApart(b, i);
      assert b == b[..i] + [b[i]] + b[i + 1..];
      MoveLast(env, b[..i], b[i], b[i + 1..], d);
      EditsAnyOrder(env, a[..n], b[..i] + b[i + 1..], d);
    }
  }

  // Any two orders of operations on different fields that both succeed give the same document,
  // whether or not the operations accept it from the start.
  lemma AnyOrder(env: Env, a: seq<Op>, b: seq<Op>, d: Document)
    requires ValidEnv(env) && multiset(a) == multiset(b) && AllApart(a) && AllApart(b)
    requires Run(env, a, d).Some? && Run(env, b, d).Some?
    ensures Run(env, a, d) == Run(env, b, d)
  {
    hide Run, EditAll, WithRoot, OpsApart, ValidEnv;
    if a == [] {
      assert |multiset(b)| == 0;
    } else {
      assert b != [] by { assert |multiset(a)| == |a|; }
      RunIsEdits(env, a, d);
      RunIsEdits(env, b, d);
      EditsAnyOrder(env, a, b, d);
    }
  }

  // --- what holds at the end --------------------------------------------------

  lemma {:induction false} AddedWithin(ops: seq<Op>, k: nat)
    requires k <= |ops|
    ensures Added(ops[..k]) <= Added(ops)
    decreases |ops| - k
  {
    if k < |ops| {
      AddedWithin(ops, k + 1);
      assert ops[..k + 1][..k] == ops[..k];
    } else {
      assert ops[..k] == ops;
    }
  }

  lemma {:induction false} EditAllReaches(env: Env, ops: seq<Op>, d: Document)
    requires ValidEnv(env)
    ensures Reached(d, EditAll(env, ops, d), Added(ops))
  {
    hide Reached, EditOp, ValidEnv;
    if ops == [] {
      ReachedSelf(d);
    } else {
      var n := |ops| - 1;
      EditAllReaches(env, ops[..n], d);
      OpReaches(env, ops[n], EditAll(env, ops[..n], d));
      ReachedFurther(d, EditAll(env, ops[..n], d), EditAll(env, ops, d), Added(ops[..n]), AddedByOp(ops[n]));
    }
  }

  lemma {:induction false} EditAllKeepsDevices(env: Env, ops: seq<Op>, d: Document)
    requires forall i :: 0 <= i < |ops| ==> !ops[i].PrebuiltSync?
    ensures CertifiedDevices(EditAll(env, ops, d).artifacts) == CertifiedDevices(d.artifacts)
  {
    hide EditOp, CertifiedDevices, OpRows;
    if ops != [] {
      var n := |ops| - 1;
      var x := EditAll(env, ops[..n], d);
      EditAllKeepsDevices(env, ops[..n], d);
      EditIsOp(env, ops[n], x);
      DevicesKept(env, ops[n], x.artifacts);
    }
  }

  lemma AddedFront(front: seq<Op>, back: seq<Op>)
    ensures Added(front) <= Added(front + back)
  {
    AddedWithin(front + back, |front|);
    assert (front + back)[..|front|] == front;
  }

  // Any operation of a successful run might have been the last.
  lemma MightBeLast(env: Env, ops: seq<Op>, d: Document, k: nat)
    requires ValidEnv(env) && AllApart(ops) && Run(env, ops, d).Some? && k < |ops|
    ensures var x := EditAll(env, ops[..k] + ops[k + 1..], d);
            AcceptsOp(ops[k], x) && Run(env, ops, d) == Step(env, ops[k], x)
  {
    hide Run, EditAll, EditOp, AcceptsOp, AcceptsOpWith, OpsApart, WithRoot, ValidEnv, CertifiedDevices, Added,
         DevicesAfter;
    var op, front, back := ops[k], ops[..k], ops[k + 1..];
    assert ops == front + [op] + back;
    RunIsEdits(env, ops, d);
    SubApart(ops, k);
    MoveLast(env, front, op, back, d);
    RunSucceeds(env, ops, d);
    assert ReadyAt(ops, d, k);
    LastAccepts(env, op, front, back, d);
  }

  // The condition an operation met where it stood is met behind all the others.
  lemma LastAccepts(env: Env, op: Op, front: seq<Op>, back: seq<Op>, d: Document)
    requires ValidEnv(env) && AcceptsOpWith(op, d, Added(front), DevicesAfter(front, CertifiedDevices(d.artifacts)))
    requires var rest := front + back; forall k :: 0 <= k < |rest| ==> OpsApart(op, rest[k])
    ensures AcceptsOp(op, EditAll(env, front + back, d))
  {
    hide EditAll, AcceptsOp, AcceptsOpWith, Reached, ValidEnv, CertifiedDevices, Added, DevicesAfter;
    var rest := front + back;
    var x := EditAll(env, rest, d);
    var devices := CertifiedDevices(d.artifacts);
    EditAllReaches(env, rest, d);
    AddedFront(front, back);
    AcceptsOpMonotone(op, d, Added(front), Added(rest), DevicesAfter(front, devices));
    AcceptsReached(op, d, x, Added(rest));
    if op.PrebuiltSync? {
      assert forall i :: 0 <= i < |front| ==> front[i] == rest[i] && !front[i].PrebuiltSync?;
      DevicesStay(front, devices);
      EditAllKeepsDevices(env, rest, d);
    } else {
      DevicesUnread(op, d, Added(rest), DevicesAfter(front, devices), CertifiedDevices(x.artifacts));
    }
  }

  // Whatever else ran in between, the certified versions are the old ones and those added, and the
  // root digest is that of the document.
  lemma {:induction false} RunVersions(env: Env, ops: seq<Op>, d: Document)
    requires ValidEnv(env) && Run(env, ops, d).Some?
    ensures CertifiedVersions(Run(env, ops, d).value.oracles) == CertifiedVersions(d.oracles) + Added(ops)
    ensures ops != [] ==> Run(env, ops, d).value.root == Some(RootDigest(env, Run(env, ops, d).value))
  {
    hide AcceptsOp, CertifiedVersions, EditOp, WithRoot, RootDigest;
    if ops != [] {
      var n := |ops| - 1;
      RunVersions(env, ops[..n], d);
      StepVersions(env, ops[n], Run(env, ops[..n], d).value);
    }
  }

  lemma StepVersions(env: Env, op: Op, d: Document)
    requires ValidEnv(env) && AcceptsOp(op, d)
    ensures var e := WithRoot(env, EditOp(env, op, d));
            && CertifiedVersions(e.oracles) == CertifiedVersions(d.oracles) + AddedByOp(op)
            && e.root == Some(RootDigest(env, e))
  {
    hide Accepts, CertifiedVersions, Edit, WithRoot, RootDigest, AnyCertified, EvidencePasses, PrebuiltReady;
    if op.Update? { UpdatedVersions(env, op.writer, d); } else { SyncKeepsOracles(env, op, d); }
  }

  // The check on the certified versions after a run, in terms of what stood there and what was
  // asked for. The embedded reference is added unexamined, but the check holds it to its range.
  lemma WideningCheck(env: Env, ops: seq<Op>, d: Document, w: Writer)
    requires ValidEnv(env) && Run(env, ops, d).Some? && ops != [] && w.Widening?
    ensures Checked(env, w, Run(env, ops, d).value) <==>
              EvidenceFits(w.evidence, CertifiedVersions(d.oracles) + Added(ops))
  {
    hide CertifiedVersions, Run, EvidenceFits;
    RunVersions(env, ops, d);
  }

  // After any successful run of operations on different fields every writer's check passes; that of
  // a widening exactly when all that is certified by then fits its evidence.
  lemma EveryCheckPasses(env: Env, ops: seq<Op>, d: Document, k: nat)
    requires ValidEnv(env) && AllApart(ops) && Run(env, ops, d).Some? && k < |ops| && ops[k].Update?
    ensures var w := ops[k].writer;
            Checked(env, w, Run(env, ops, d).value) <==>
              (w.Widening? ==> EvidenceFits(w.evidence, CertifiedVersions(d.oracles) + Added(ops)))
  {
    hide Run, Apply, Edit, Accepts, OpsApart, Checked, EvidenceFits, EditAll, ValidEnv, WithRoot;
    var w := ops[k].writer;
    if w.Widening? {
      WideningCheck(env, ops, d, w);
    } else {
      MightBeLast(env, ops, d, k);
      var x := EditAll(env, ops[..k] + ops[k + 1..], d);
      UpdateIsStep(env, w, x);
      UpdateIsChecked(env, w, x);
    }
  }

  lemma UpdateIsStep(env: Env, w: Writer, d: Document)
    ensures Step(env, Update(w), d) == Apply(env, w, d)
  {
  }

  // Whatever the order of the run, what each operation was given stands in the document at the end.
  lemma EveryOpRecorded(env: Env, ops: seq<Op>, d: Document, k: nat)
    requires ValidEnv(env) && AllApart(ops) && Run(env, ops, d).Some? && k < |ops|
    ensures RecordedOp(env, ops[k], Run(env, ops, d).value)
  {
    hide Run, Step, AcceptsOp, OpsApart, RecordedOp, EditAll, ValidEnv;
    MightBeLast(env, ops, d, k);
    StepIsRecorded(env, ops[k], EditAll(env, ops[..k] + ops[k + 1..], d));
  }
}
