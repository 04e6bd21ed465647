/** Classifying the compiled packages by what the judged graphs say of them. */
module JudgedClosure {
  import opened DependencyClosures
  import opened Wrappers

  // A package as classified: a graph may hold two versions of one name.
  datatype Release = Release(name: string, version: string)

  datatype Tier = Core | Implementation | Periphery

  datatype Criterion = R0 | R1 | R2 | Classified | LifecycleOnly | ProcMacro | NotReachable | NotTextSemantics

  datatype Error = Unclassified | ExactEdge | UnreachableCore | NotDescribed

  datatype Result<+T> = Ok(value: T) | Err(error: Error)

  // What the tool reads from elsewhere: the text-semantics table (is the entry core?), the number of
  // encode-path files naming a package, the name net, and whether one of our own crates takes a
  // package on an exact requirement.
  datatype Policy = Policy(
    engines: seq<string>, table: map<string, bool>, references: string -> nat,
    nameNet: string -> bool, exactEdge: string -> bool)

  ghost predicate Described(g: Graph) {
    && g.members <= g.packages.Keys
    && (forall i :: 0 <= i < |g.order| ==> g.order[i] in g.packages)
    && (forall x :: x in g.nodes <==> x in g.order)
    && (forall x, i :: x in g.nodes && 0 <= i < |g.nodes[x]| ==> g.nodes[x][i].pkg in g.packages)
  }

  function ReleaseOf(g: Graph, x: Id): Release
    requires x in g.packages
  {
    Release(g.packages[x].name, g.packages[x].version)
  }

  // `id_of`: the first node of that name.
  function IdOf(g: Graph, order: seq<Id>, name: string): (r: Option<Id>)
    ensures r.Some? ==> r.value in order && r.value in g.packages && g.packages[r.value].name == name
    ensures r.None? ==> forall x :: x in order && x in g.packages ==> g.packages[x].name != name
  {
    if order == [] then None
    else if order[0] in g.packages && g.packages[order[0]].name == name then Some(order[0])
    else IdOf(g, order[1..], name)
  }

  function EngineRoots(g: Graph, engines: seq<string>): (r: seq<Id>)
    ensures forall x :: x in r ==> x in g.packages && x in g.order && g.packages[x].name in engines
  {
    if engines == [] then []
    else
      var root := IdOf(g, g.order, engines[0]);
      (if root.Some? then [root.value] else []) + EngineRoots(g, engines[1..])
  }

  // --- what the graphs say of a release ---------------------------------------

  datatype Fact = InWorkspace | TakenDirectly | Linked | IsMacro

  ghost predicate EngineReaches(g: Graph, engines: seq<string>, x: Id) {
    Reaches(y => LinkedEdges(g, {NoKind}, y), EngineRoots(g, engines), x)
  }

  ghost predicate SaysOfNode(fact: Fact, g: Graph, engines: seq<string>, x: Id) {
    match fact
    case InWorkspace => x in g.members
    case TakenDirectly => exists m :: m in g.members && x in Edges(g, {NoKind, BuildKind}, m)
    case Linked => EngineReaches(g, engines, x)
    case IsMacro => x in g.nodes && IsProcMacro(g, x)
  }

  ghost predicate Says(fact: Fact, g: Graph, engines: seq<string>, p: Release) {
    exists x :: x in g.packages && ReleaseOf(g, x) == p && SaysOfNode(fact, g, engines, x)
  }

  // Some judged graph says so.
  ghost predicate Holds(fact: Fact, graphs: seq<Graph>, engines: seq<string>, p: Release) {
    exists k :: 0 <= k < |graphs| && Says(fact, graphs[k], engines, p)
  }

  // The four sets, as filled from the graphs.
  datatype Sets = Sets(workspace: set<Release>, direct: set<Release>, reachable: set<Release>, procMacro: set<Release>)

  ghost predicate SetsOf(graphs: seq<Graph>, engines: seq<string>, compiled: set<Release>, s: Sets) {
    && (forall p :: p in s.workspace <==> p in compiled && Holds(InWorkspace, graphs, engines, p))
    && (forall p :: p in s.direct <==> p in compiled && Holds(TakenDirectly, graphs, engines, p))
    && (forall p :: p in s.reachable <==> p in compiled && Holds(Linked, graphs, engines, p))
    && (forall p :: p in s.procMacro <==> Holds(IsMacro, graphs, engines, p))
  }

  // What one graph adds.
  ghost predicate GraphSets(g: Graph, engines: seq<string>, compiled: set<Release>, s: Sets) {
    && (forall p :: p in s.workspace <==> p in compiled && Says(InWorkspace, g, engines, p))
    && (forall p :: p in s.direct <==> p in compiled && Says(TakenDirectly, g, engines, p))
    && (forall p :: p in s.reachable <==> p in compiled && Says(Linked, g, engines, p))
    && (forall p :: p in s.procMacro <==> Says(IsMacro, g, engines, p))
  }

  lemma ReachedDescribed(g: Graph, engines: seq<string>)
    requires Described(g)
    ensures forall x :: EngineReaches(g, engines, x) ==> x in g.packages
  {
    var next := y => LinkedEdges(g, {NoKind}, y);
    var roots := EngineRoots(g, engines);
    forall x, y | x in g.packages.Keys && y in next(x)
      ensures y in g.packages.Keys
    {
      var d :| d in DepsOf(g, x) && KeepsKinds({NoKind}, d) && d.pkg == y;
      var i :| 0 <= i < |g.nodes[x]| && g.nodes[x][i] == d;
    }
    forall x | EngineReaches(g, engines, x)
      ensures x in g.packages
    {
      var p :| IsPath(next, p) && p[0] in roots && p[|p| - 1] == x;
      PathInClosed(next, g.packages.Keys, p);
    }
  }

  // The compiled releases among some nodes of a graph.
  function Releases(g: Graph, nodes: set<Id>, compiled: set<Release>): (r: set<Release>)
    ensures forall p :: p in r <==> p in compiled && exists x :: x in g.packages && ReleaseOf(g, x) == p && x in nodes
  {
    set x | x in nodes && x in g.packages && ReleaseOf(g, x) in compiled :: ReleaseOf(g, x)
  }

  function OwnTargets(g: Graph): (r: set<Id>)
    ensures forall y :: y in r <==> exists m :: m in g.members && y in Edges(g, {NoKind, BuildKind}, m)
  {
    set m, y | m in g.members && y in Edges(g, {NoKind, BuildKind}, m) :: y
  }

  function ProcMacros(g: Graph): (r: set<Release>)
    ensures forall p :: p in r <==>
              exists x :: x in g.packages && ReleaseOf(g, x) == p && x in g.nodes && IsProcMacro(g, x)
  {
    set x | x in g.nodes && x in g.packages && IsProcMacro(g, x) :: ReleaseOf(g, x)
  }

  method LinkedNodes(g: Graph, engines: seq<string>) returns (found: set<Id>)
    requires Described(g)
    ensures forall x :: x in found <==> EngineReaches(g, engines, x)
  {
    hide Reaches, LinkedEdges, EngineRoots;
    ReachedDescribed(g, engines);
    forall x | Reaches(y => LinkedEdges(g, {NoKind}, y), EngineRoots(g, engines), x)
      ensures x in g.packages
    {
      assert EngineReaches(g, engines, x);
    }
    var r := Reachable(g, EngineRoots(g, engines), {NoKind});
    found := r.value;
  }

  method ScanGraph(g: Graph, engines: seq<string>, compiled: set<Release>) returns (s: Sets)
    requires Described(g)
    ensures GraphSets(g, engines, compiled, s)
  {
    hide Described, EngineReaches, OwnTargets, Releases, ProcMacros, ReleaseOf, IsProcMacro, Edges;
    var linked := LinkedNodes(g, engines);
    s := Sets(Releases(g, g.members, compiled), Releases(g, OwnTargets(g), compiled),
              Releases(g, linked, compiled), ProcMacros(g));
  }

  method ScanGraphs(graphs: seq<Graph>, engines: seq<string>, compiled: set<Release>) returns (s: Sets)
    requires forall k :: 0 <= k < |graphs| ==> Described(graphs[k])
    ensures SetsOf(graphs, engines, compiled, s)
  {
    hide Described, GraphSets, SetsOf;
    s := Sets({}, {}, {}, {});
    NoSets(engines, compiled);
    assert graphs[..0] == [];
    for k := 0 to |graphs|
      invariant SetsOf(graphs[..k], engines, compiled, s)
    {
      var one := ScanGraph(graphs[k], engines, compiled);
      SetsAdd(graphs[..k], graphs[k], engines, compiled, s, one);
      assert graphs[..k + 1] == graphs[..k] + [graphs[k]];
      s := Sets(s.workspace + one.workspace, s.direct + one.direct,
                s.reachable + one.reachable, s.procMacro + one.procMacro);
    }
    assert graphs[..|graphs|] == graphs;
  }

  lemma NoSets(engines: seq<string>, compiled: set<Release>)
    ensures SetsOf([], engines, compiled, Sets({}, {}, {}, {}))
  {
    hide Says;
  }

  lemma SetsAdd(graphs: seq<Graph>, g: Graph, engines: seq<string>, compiled: set<Release>, s: Sets, one: Sets)
    requires SetsOf(graphs, engines, compiled, s) && GraphSets(g, engines, compiled, one)
    ensures SetsOf(graphs + [g], engines, compiled,
              Sets(s.workspace + one.workspace, s.direct + one.direct, s.reachable + one.reachable,
                   s.procMacro + one.procMacro))
  {
    hide Says, Holds;
    forall fact, p
      ensures Holds(fact, graphs + [g], engines, p) <==> Holds(fact, graphs, engines, p) || Says(fact, g, engines, p)
    {
      HoldsSnoc(fact, graphs, g, engines, p);
    }
  }

  lemma HoldsSnoc(fact: Fact, graphs: seq<Graph>, g: Graph, engines: seq<string>, p: Release)
    ensures Holds(fact, graphs + [g], engines, p) <==> Holds(fact, graphs, engines, p) || Says(fact, g, engines, p)
  {
    hide Says;
    var all := graphs + [g];
    if Says(fact, g, engines, p) {
      assert Says(fact, all[|graphs|], engines, p);
    }
    if Holds(fact, graphs, engines, p) {
      var k :| 0 <= k < |graphs| && Says(fact, graphs[k], engines, p);
      assert Says(fact, all[k], engines, p);
    }
  }

  // --- classify ---------------------------------------------------------------

  ghost predicate InTableCore(policy: Policy, name: string) { name in policy.table && policy.table[name] }

  // The names our own packages bear, and the references counted for the packages taken directly.
  function OwnNames(s: Sets): set<string> { set p | p in s.workspace :: p.name }

  function Referenced(policy: Policy, s: Sets, name: string): bool {
    name !in OwnNames(s) && policy.references(name) > 0
  }

  function CriterionOf(policy: Policy, s: Sets, p: Release): Criterion {
    if p in s.workspace then R0
    else if p.name in policy.table && policy.table[p.name] then R2
    else if p in s.direct && Referenced(policy, s, p.name) then R1
    else if p.name in policy.table then Classified
    else if p in s.direct then LifecycleOnly
    else if p in s.procMacro then ProcMacro
    else if p !in s.reachable then NotReachable
    else NotTextSemantics
  }

  function TierOf(c: Criterion): Tier {
    if c == R0 || c == R2 then Core else if c == R1 then Implementation else Periphery
  }

  predicate IsUnclassified(policy: Policy, criteria: map<Release, Criterion>, p: Release)
    requires p in criteria
  {
    policy.nameNet(p.name) && p.name !in policy.table && criteria[p] != R0 && criteria[p] != R1
  }

  predicate OnExactEdge(policy: Policy, s: Sets, criteria: map<Release, Criterion>, p: Release)
    requires p in criteria
  {
    (criteria[p] == R1 || criteria[p] == R2) && p.name !in OwnNames(s) && policy.exactEdge(p.name)
  }

  predicate UnreachableCoreName(policy: Policy, s: Sets, p: Release) {
    p.name in policy.table && policy.table[p.name] && p !in s.reachable
  }

  // --- the same in terms of the graphs ----------------------------------------

  // One of the compiled packages of our own bears this name.
  ghost predicate Own(graphs: seq<Graph>, policy: Policy, compiled: set<Release>, name: string) {
    exists q :: q in compiled && q.name == name && Holds(InWorkspace, graphs, policy.engines, q)
  }

  ghost predicate IsR2(graphs: seq<Graph>, policy: Policy, p: Release) {
    !Holds(InWorkspace, graphs, policy.engines, p) && InTableCore(policy, p.name)
  }

  ghost predicate IsR1(graphs: seq<Graph>, policy: Policy, compiled: set<Release>, p: Release) {
    && !Holds(InWorkspace, graphs, policy.engines, p) && !InTableCore(policy, p.name)
    && Holds(TakenDirectly, graphs, policy.engines, p)
    && !Own(graphs, policy, compiled, p.name) && policy.references(p.name) > 0
  }

  // The three refusals of the tool, for one package.
  ghost predicate Acceptable(graphs: seq<Graph>, policy: Policy, compiled: set<Release>, p: Release) {
    && (policy.nameNet(p.name) && p.name !in policy.table ==>
          Holds(InWorkspace, graphs, policy.engines, p) || IsR1(graphs, policy, compiled, p))
    && ((IsR1(graphs, policy, compiled, p) || IsR2(graphs, policy, p)) && !Own(graphs, policy, compiled, p.name) ==>
          !policy.exactEdge(p.name))
    && (InTableCore(policy, p.name) ==> Holds(Linked, graphs, policy.engines, p))
  }

  lemma OwnNamesMean(graphs: seq<Graph>, policy: Policy, compiled: set<Release>, s: Sets, name: string)
    requires SetsOf(graphs, policy.engines, compiled, s)
    ensures name in OwnNames(s) <==> Own(graphs, policy, compiled, name)
  {
    hide Holds;
    if Own(graphs, policy, compiled, name) {
      var q :| q in compiled && q.name == name && Holds(InWorkspace, graphs, policy.engines, q);
      assert q in s.workspace;
    }
  }

  lemma AcceptableOne(graphs: seq<Graph>, policy: Policy, compiled: set<Release>, s: Sets,
                      criteria: map<Release, Criterion>, p: Release)
    requires SetsOf(graphs, policy.engines, compiled, s) && p in compiled && p in criteria
    requires criteria[p] == CriterionOf(policy, s, p)
    ensures Acceptable(graphs, policy, compiled, p) <==>
              !IsUnclassified(policy, criteria, p) && !OnExactEdge(policy, s, criteria, p)
                  && !UnreachableCoreName(policy, s, p)
  {
    hide Holds, Own, OwnNames;
    OwnNamesMean(graphs, policy, compiled, s, p.name);
  }

  method Classify(compiled: set<Release>, graphs: seq<Graph>, policy: Policy, packages: seq<Release>)
    returns (r: Result<(map<Release, Tier>, map<Release, Criterion>)>)
    requires forall k :: 0 <= k < |graphs| ==> Described(graphs[k])
    requires forall p :: p in packages <==> p in compiled
    ensures r.Ok? <==> forall p :: p in compiled ==> Acceptable(graphs, policy, compiled, p)
    ensures r.Ok? ==>
              var (tiers, criteria) := r.value;
              && tiers.Keys == criteria.Keys == compiled
              && forall p :: p in compiled ==> Judged(graphs, policy, compiled, tiers[p], criteria[p], p)
  {
    hide SetsOf, CriterionOf, TierOf, Acceptable, IsUnclassified, OnExactEdge;
    var s := ScanGraphs(graphs, policy.engines, compiled);
    var tiers: map<Release, Tier> := map[];
    var criteria: map<Release, Criterion> := map[];
    for i := 0 to |packages|
      invariant forall p :: p in criteria <==> p in packages[..i]
      invariant forall p :: p in tiers <==> p in packages[..i]
      invariant forall p :: p in criteria ==>
                criteria[p] == CriterionOf(policy, s, p) && tiers[p] == TierOf(criteria[p])
    {
      assert packages[..i + 1] == packages[..i] + [packages[i]];
      var criterion := CriterionOf(policy, s, packages[i]);
      criteria := criteria[packages[i] := criterion];
      tiers := tiers[packages[i] := TierOf(criterion)];
    }
    assert packages[..|packages|] == packages;
    forall p | p in compiled
      ensures Acceptable(graphs, policy, compiled, p) <==>
                !IsUnclassified(policy, criteria, p) && !OnExactEdge(policy, s, criteria, p)
                    && !UnreachableCoreName(policy, s, p)
    {
      AcceptableOne(graphs, policy, compiled, s, criteria, p);
    }
    if exists p :: p in compiled && IsUnclassified(policy, criteria, p) { return Err(Unclassified); }
    if exists p :: p in compiled && OnExactEdge(policy, s, criteria, p) { return Err(ExactEdge); }
    if exists p :: p in compiled && UnreachableCoreName(policy, s, p) { return Err(UnreachableCore); }
    r := Ok((tiers, criteria));
    forall p | p in compiled
      ensures Judged(graphs, policy, compiled, tiers[p], criteria[p], p)
    {
      JudgedOne(graphs, policy, compiled, s, criteria, p);
    }
  }

  // What an accepted judgement says of `p`.
  ghost predicate Judged(graphs: seq<Graph>, policy: Policy, compiled: set<Release>, tier: Tier, c: Criterion,
                         p: Release)
  {
    var outside := !Holds(InWorkspace, graphs, policy.engines, p) && !IsR1(graphs, policy, compiled, p);
    var unlisted := outside && p.name !in policy.table && !Holds(TakenDirectly, graphs, policy.engines, p);
    && (c == R0 <==> Holds(InWorkspace, graphs, policy.engines, p))
    && (c == R2 <==> IsR2(graphs, policy, p))
    && (c == R1 <==> IsR1(graphs, policy, compiled, p))
    && (c == Classified <==> outside && p.name in policy.table && !policy.table[p.name])
    && (c == LifecycleOnly <==>
          outside && p.name !in policy.table && Holds(TakenDirectly, graphs, policy.engines, p))
    && (c == ProcMacro <==> unlisted && Holds(IsMacro, graphs, policy.engines, p))
    && (c == NotReachable <==>
          unlisted && !Holds(IsMacro, graphs, policy.engines, p) && !Holds(Linked, graphs, policy.engines, p))
    && (c == NotTextSemantics <==>
          unlisted && !Holds(IsMacro, graphs, policy.engines, p) && Holds(Linked, graphs, policy.engines, p))
    && (tier == Core <==> c == R0 || c == R2)
    && (tier == Implementation <==> c == R1)
    && (policy.nameNet(p.name) ==> c == R0 || c == R1 || p.name in policy.table)
  }

  lemma JudgedOne(graphs: seq<Graph>, policy: Policy, compiled: set<Release>, s: Sets,
                  criteria: map<Release, Criterion>, p: Release)
    requires SetsOf(graphs, policy.engines, compiled, s) && p in compiled && p in criteria
    requires criteria[p] == CriterionOf(policy, s, p) && !IsUnclassified(policy, criteria, p)
    ensures Judged(graphs, policy, compiled, TierOf(criteria[p]), criteria[p], p)
  {
    hide Holds, Own, OwnNames;
    OwnNamesMean(graphs, policy, compiled, s, p.name);
  }

  // An R2 package is at the end of a path from an engine crate that no proc macro interrupts.
  lemma R2IsLinked(graphs: seq<Graph>, policy: Policy, compiled: set<Release>, tier: Tier, p: Release)
    requires Acceptable(graphs, policy, compiled, p) && Judged(graphs, policy, compiled, tier, R2, p)
    ensures exists k, path :: 0 <= k < |graphs| && LinkPath(graphs[k], policy.engines, path, p)
  {
    hide Reaches, EngineRoots;
    var k :| 0 <= k < |graphs| && Says(Linked, graphs[k], policy.engines, p);
    var g := graphs[k];
    var x :| x in g.packages && ReleaseOf(g, x) == p && SaysOfNode(Linked, g, policy.engines, x);
    ReachableMeans(g, EngineRoots(g, policy.engines), {NoKind}, x);
    var path :| IsPath(y => Edges(g, {NoKind}, y), path) && path[0] in EngineRoots(g, policy.engines)
        && path[|path| - 1] == x
                && forall i :: 0 <= i < |path| - 1 ==> !IsProcMacro(g, path[i]);
    assert LinkPath(g, policy.engines, path, p);
  }

  ghost predicate LinkPath(g: Graph, engines: seq<string>, path: seq<Id>, p: Release) {
    && IsPath(y => Edges(g, {NoKind}, y), path)
    && path[0] in EngineRoots(g, engines)
    && (forall i :: 0 <= i < |path| - 1 ==> !IsProcMacro(g, path[i]))
    && path[|path| - 1] in g.packages && ReleaseOf(g, path[|path| - 1]) == p
  }
}
