/** The three dependency closures over Cargo's resolve graph.

  Each generator walks the graph with its own edge rule and its own worklist; all three are proved
  to end with exactly what their rule reaches.
 */
module DependencyClosures {
  import opened Wrappers

  type Id = string

  // The kind of one declared dependency edge; Cargo writes a normal edge as null.
  datatype Kind = NoKind | NormalKind | DevKind | BuildKind

  datatype Dependency = Dependency(pkg: Id, kinds: seq<Kind>)

  datatype Package = Package(name: string, version: string, procMacro: bool)

  datatype Graph = Graph(
    packages: map<Id, Package>, members: set<Id>, order: seq<Id>, nodes: map<Id, seq<Dependency>>)

  // --- edge rules -------------------------------------------------------------

  function Targets(deps: seq<Dependency>, keep: Dependency -> bool): (r: seq<Id>)
    ensures forall y :: y in r <==> exists d :: d in deps && keep(d) && d.pkg == y
  {
    if deps == [] then [] else (if keep(deps[0]) then [deps[0].pkg] else []) + Targets(deps[1..], keep)
  }

  function DepsOf(g: Graph, x: Id): seq<Dependency> { if x in g.nodes then g.nodes[x] else [] }

  // `Graph.edges`: an edge without recorded kinds counts as a normal one.
  predicate KeepsKinds(kinds: set<Kind>, d: Dependency) {
    if d.kinds == [] then NoKind in kinds else exists k :: k in d.kinds && k in kinds
  }

  function Edges(g: Graph, kinds: set<Kind>, x: Id): seq<Id> {
    Targets(DepsOf(g, x), d => KeepsKinds(kinds, d))
  }

  // `_normal_closure`: an edge without recorded kinds is not followed.
  predicate IsNormal(d: Dependency) { exists k :: k in d.kinds && (k == NoKind || k == NormalKind) }

  function NormalEdges(g: Graph, x: Id): seq<Id> { Targets(DepsOf(g, x), d => IsNormal(d)) }

  // `public_closure`: everything but purely development edges.
  predicate IsPublic(d: Dependency) { !(d.kinds != [] && forall k :: k in d.kinds ==> k == DevKind) }

  function PublicEdges(g: Graph, x: Id): seq<Id> { Targets(DepsOf(g, x), d => IsPublic(d)) }

  predicate IsProcMacro(g: Graph, x: Id) { x in g.packages && g.packages[x].procMacro }

  // Nothing is followed out of a proc macro.
  function LinkedEdges(g: Graph, kinds: set<Kind>, x: Id): seq<Id> {
    if IsProcMacro(g, x) then [] else Edges(g, kinds, x)
  }

  // --- reachability -----------------------------------------------------------

  ghost predicate IsPath(next: Id -> seq<Id>, p: seq<Id>) {
    p != [] && forall i, j :: 0 <= i < |p| && j == i + 1 < |p| ==> p[j] in next(p[i])
  }

  ghost predicate Reaches(next: Id -> seq<Id>, roots: seq<Id>, x: Id) {
    exists p :: IsPath(next, p) && p[0] in roots && p[|p| - 1] == x
  }

  ghost predicate Closed(next: Id -> seq<Id>, s: set<Id>) {
    forall x, y :: x in s && y in next(x) ==> y in s
  }

  ghost predicate Exactly(next: Id -> seq<Id>, roots: seq<Id>, s: set<Id>) {
    forall x :: x in s <==> Reaches(next, roots, x)
  }

  lemma ReachesRoot(next: Id -> seq<Id>, roots: seq<Id>, x: Id)
    requires x in roots
    ensures Reaches(next, roots, x)
  {
    assert IsPath(next, [x]);
  }

  lemma ReachesStep(next: Id -> seq<Id>, roots: seq<Id>, x: Id, y: Id)
    requires Reaches(next, roots, x) && y in next(x)
    ensures Reaches(next, roots, y)
  {
    var p :| IsPath(next, p) && p[0] in roots && p[|p| - 1] == x;
    assert IsPath(next, p + [y]);
  }

  lemma {:induction false} PathInClosed(next: Id -> seq<Id>, s: set<Id>, p: seq<Id>)
    requires IsPath(next, p) && Closed(next, s) && p[0] in s
    ensures p[|p| - 1] in s
  {
    if |p| > 1 {
      var front := p[..|p| - 1];
      assert IsPath(next, front);
      PathInClosed(next, s, front);
      assert p[|p| - 1] in next(p[|p| - 2]);
    }
  }

  // The reached set is the least one that holds the roots and is closed.
  lemma LeastClosed(next: Id -> seq<Id>, roots: seq<Id>, s: set<Id>, other: set<Id>)
    requires Exactly(next, roots, s)
    ensures Closed(next, s) && forall x :: x in roots ==> x in s
    ensures (forall x :: x in roots ==> x in other) && Closed(next, other) ==> s <= other
  {
    forall x | x in roots ensures x in s { ReachesRoot(next, roots, x); }
    forall x, y | x in s && y in next(x) ensures y in s { ReachesStep(next, roots, x, y); }
    if (forall x :: x in roots ==> x in other) && Closed(next, other) {
      forall x | x in s
        ensures x in other
      {
        var p :| IsPath(next, p) && p[0] in roots && p[|p| - 1] == x;
        PathInClosed(next, other, p);
      }
    }
  }

  lemma MoreEdges(less: Id -> seq<Id>, more: Id -> seq<Id>, roots: seq<Id>, x: Id)
    requires forall a, b :: b in less(a) ==> b in more(a)
    requires Reaches(less, roots, x)
    ensures Reaches(more, roots, x)
  {
    var p :| IsPath(less, p) && p[0] in roots && p[|p| - 1] == x;
    assert IsPath(more, p);
  }

  // --- the worklist -----------------------------------------------------------

  // Between two steps: everything found is reached, and everything still to be found is listed.
  ghost predicate Working(next: Id -> seq<Id>, roots: seq<Id>, seen: set<Id>, pending: seq<Id>) {
    && (forall x :: x in seen || x in pending ==> Reaches(next, roots, x))
    && (forall x :: x in roots ==> x in seen || x in pending)
    && (forall x, y :: x in seen && y in next(x) ==> y in seen || y in pending)
  }

  lemma WorkStarts(next: Id -> seq<Id>, roots: seq<Id>)
    ensures Working(next, roots, {}, roots)
  {
    forall x | x in roots ensures Reaches(next, roots, x) { ReachesRoot(next, roots, x); }
  }

  // `x` leaves the list; if it is new, what it leads to enters.
  lemma WorkSteps(next: Id -> seq<Id>, roots: seq<Id>, seen: set<Id>, pending: seq<Id>, x: Id, rest: seq<Id>)
    requires Working(next, roots, seen, pending)
    requires forall y :: y in pending <==> y in rest || y == x
    ensures x in seen ==> Working(next, roots, seen, rest)
    ensures Working(next, roots, seen + {x}, rest + next(x))
  {
    hide Reaches;
    assert x in pending;
    forall y | y in next(x) ensures Reaches(next, roots, y) { ReachesStep(next, roots, x, y); }
  }

  lemma WorkDone(next: Id -> seq<Id>, roots: seq<Id>, seen: set<Id>)
    requires Working(next, roots, seen, [])
    ensures Exactly(next, roots, seen)
  {
    forall x | Reaches(next, roots, x)
      ensures x in seen
    {
      var p :| IsPath(next, p) && p[0] in roots && p[|p| - 1] == x;
      PathInClosed(next, seen, p);
    }
  }

  // Everything the graph can lead to, from which the walks draw.
  function Universe(g: Graph, roots: seq<Id>): set<Id> {
    (set x | x in roots) + g.nodes.Keys + (set n, i | n in g.nodes && 0 <= i < |g.nodes[n]| :: g.nodes[n][i].pkg)
  }

  ghost predicate Within(pending: seq<Id>, universe: set<Id>) { forall x :: x in pending ==> x in universe }

  lemma TargetsWithin(g: Graph, roots: seq<Id>, x: Id, keep: Dependency -> bool)
    ensures Within(Targets(DepsOf(g, x), keep), Universe(g, roots))
  {
    forall y | y in Targets(DepsOf(g, x), keep)
      ensures y in Universe(g, roots)
    {
      var d :| d in DepsOf(g, x) && keep(d) && d.pkg == y;
      var i :| 0 <= i < |g.nodes[x]| && g.nodes[x][i] == d;
    }
  }

  lemma Shrinks(universe: set<Id>, seen: set<Id>, x: Id)
    requires x in universe && x !in seen
    ensures |universe - (seen + {x})| < |universe - seen|
  {
    assert universe - seen == (universe - (seen + {x})) + {x};
  }

  // --- Graph.reachable --------------------------------------------------------

  // Depth first; `None` is the failed look-up of a package the graph does not describe.
  method Reachable(g: Graph, roots: seq<Id>, kinds: set<Kind>) returns (r: Option<set<Id>>)
    ensures r.Some? <==> forall x :: Reaches(y => LinkedEdges(g, kinds, y), roots, x) ==> x in g.packages
    ensures r.Some? ==> Exactly(y => LinkedEdges(g, kinds, y), roots, r.value)
  {
    hide Working, Reaches, Universe, LinkedEdges, Exactly;
    ghost var next := y => LinkedEdges(g, kinds, y);
    ghost var universe := Universe(g, roots);
    var seen: set<Id> := {};
    var queue := roots;
    WorkStarts(next, roots);
    RootsWithin(g, roots);
    while queue != []
      invariant Working(next, roots, seen, queue) && Within(queue, universe)
      invariant forall x :: x in seen ==> x in g.packages
      decreases |universe - seen|, |queue|
    {
      var identifier, rest := queue[|queue| - 1], queue[..|queue| - 1];
      assert queue == rest + [identifier];
      WorkSteps(next, roots, seen, queue, identifier, rest);
      queue := rest;
      if identifier in seen { continue; }
      Shrinks(universe, seen, identifier);
      if identifier !in g.packages {
        PendingReached(next, roots, seen, rest + [identifier], identifier);
        return None;
      }
      seen := seen + {identifier};
      if g.packages[identifier].procMacro {
        assert LinkedEdges(g, kinds, identifier) == [] by { NoLinks(g, kinds, identifier); }
        assert rest + [] == rest;
        continue;
      }
      SameLinks(g, kinds, roots, identifier);
      queue := queue + Edges(g, kinds, identifier);
    }
    WorkDone(next, roots, seen);
    ExactMembers(next, roots, seen);
    r := Some(seen);
  }

  lemma RootsWithin(g: Graph, roots: seq<Id>)
    ensures Within(roots, Universe(g, roots))
  {
  }

  lemma PendingReached(next: Id -> seq<Id>, roots: seq<Id>, seen: set<Id>, pending: seq<Id>, x: Id)
    requires Working(next, roots, seen, pending) && x in pending
    ensures Reaches(next, roots, x)
  {
  }

  lemma ExactMembers(next: Id -> seq<Id>, roots: seq<Id>, s: set<Id>)
    requires Exactly(next, roots, s)
    ensures forall x :: x in s <==> Reaches(next, roots, x)
  {
  }

  lemma NoLinks(g: Graph, kinds: set<Kind>, x: Id)
    requires x in g.packages && g.packages[x].procMacro
    ensures LinkedEdges(g, kinds, x) == []
  {
  }

  lemma SameLinks(g: Graph, kinds: set<Kind>, roots: seq<Id>, x: Id)
    requires x in g.packages && !g.packages[x].procMacro
    ensures LinkedEdges(g, kinds, x) == Edges(g, kinds, x) && Within(Edges(g, kinds, x), Universe(g, roots))
  {
    TargetsWithin(g, roots, x, d => KeepsKinds(kinds, d));
  }

  // Read on paths: exactly the nodes at the end of a path none of whose earlier nodes is a proc macro.
  lemma ReachableMeans(g: Graph, roots: seq<Id>, kinds: set<Kind>, x: Id)
    ensures Reaches(y => LinkedEdges(g, kinds, y), roots, x) <==>
              exists p :: IsPath(y => Edges(g, kinds, y), p) && p[0] in roots && p[|p| - 1] == x
                          && forall i :: 0 <= i < |p| - 1 ==> !IsProcMacro(g, p[i])
  {
    hide Edges;
    var next, raw := y => LinkedEdges(g, kinds, y), y => Edges(g, kinds, y);
    if Reaches(next, roots, x) {
      var p :| IsPath(next, p) && p[0] in roots && p[|p| - 1] == x;
      forall i, j | 0 <= i < |p| && j == i + 1 < |p|
        ensures p[j] in raw(p[i]) && !IsProcMacro(g, p[i])
      {
        assert p[j] in next(p[i]);
      }
      assert IsPath(raw, p);
      forall i | 0 <= i < |p| - 1
        ensures !IsProcMacro(g, p[i])
      {
        var j := i + 1;
        assert p[j] in next(p[i]);
      }
    }
    if exists p ::
      IsPath(raw, p) && p[0] in roots && p[|p| - 1] == x && forall i :: 0 <= i < |p| - 1 ==> !IsProcMacro(g, p[i])
    {
      var p :|
        IsPath(raw, p) && p[0] in roots && p[|p| - 1] == x && forall i :: 0 <= i < |p| - 1 ==> !IsProcMacro(g, p[i]);
      forall i, j | 0 <= i < |p| && j == i + 1 < |p|
        ensures p[j] in next(p[i])
      {
        assert p[j] in raw(p[i]);
      }
      assert IsPath(next, p);
    }
  }

  // --- _normal_closure --------------------------------------------------------

  // Depth first over normal edges; `None` is the refusal of a package without a resolve node.
  method NormalClosure(g: Graph, root: Id) returns (r: Option<set<Id>>)
    ensures r.Some? <==> forall x :: Reaches(y => NormalEdges(g, y), [root], x) ==> x in g.nodes
    ensures r.Some? ==> Exactly(y => NormalEdges(g, y), [root], r.value)
  {
    hide Working, Reaches, Universe, NormalEdges, Exactly;
    ghost var next := y => NormalEdges(g, y);
    ghost var universe := Universe(g, [root]);
    var seen: set<Id> := {};
    var pending := [root];
    WorkStarts(next, [root]);
    RootsWithin(g, [root]);
    while pending != []
      invariant Working(next, [root], seen, pending) && Within(pending, universe)
      invariant forall x :: x in seen ==> x in g.nodes
      decreases |universe - seen|, |pending|
    {
      var packageId, rest := pending[|pending| - 1], pending[..|pending| - 1];
      assert pending == rest + [packageId];
      WorkSteps(next, [root], seen, pending, packageId, rest);
      pending := rest;
      if packageId in seen { continue; }
      Shrinks(universe, seen, packageId);
      if packageId !in g.nodes {
        PendingReached(next, [root], seen, rest + [packageId], packageId);
        return None;
      }
      seen := seen + {packageId};
      NormalWithin(g, [root], packageId);
      pending := pending + NormalEdges(g, packageId);
    }
    WorkDone(next, [root], seen);
    ExactMembers(next, [root], seen);
    r := Some(seen);
  }

  lemma NormalWithin(g: Graph, roots: seq<Id>, x: Id)
    ensures Within(NormalEdges(g, x), Universe(g, roots))
  {
    TargetsWithin(g, roots, x, d => IsNormal(d));
  }

  // --- public_closure ---------------------------------------------------------

  // Breadth first over all but development edges, recording each package's targets as it goes.
  method PublicClosure(g: Graph, root: Id) returns (r: Option<(set<Id>, map<Id, set<Id>>)>)
    ensures r.Some? <==> forall x :: Reaches(y => PublicEdges(g, y), [root], x) ==> x in g.nodes
    ensures r.Some? ==> Exactly(y => PublicEdges(g, y), [root], r.value.0)
    ensures r.Some? ==> r.value.1.Keys == r.value.0
    ensures r.Some? ==> forall x :: x in r.value.1 ==> r.value.1[x] == PublicTargets(g, x)
  {
    hide Working, Reaches, Universe, PublicEdges, Exactly, PublicTargets, Within;
    ghost var next := y => PublicEdges(g, y);
    ghost var universe := Universe(g, [root]);
    var seen: set<Id> := {};
    var queue := [root];
    var targets: map<Id, set<Id>> := map[];
    WorkStarts(next, [root]);
    RootsWithin(g, [root]);
    while queue != []
      invariant Working(next, [root], seen, queue) && Within(queue, universe)
      invariant forall x :: x in seen ==> x in g.nodes
      invariant targets.Keys == seen
      invariant forall x :: x in targets ==> targets[x] == PublicTargets(g, x)
      decreases |universe - seen|, |queue|
    {
      FirstLeaves(next, [root], seen, queue, universe);
      var packageId := queue[0];
      queue := queue[1..];
      if packageId in seen { continue; }
      Shrinks(universe, seen, packageId);
      if packageId !in g.nodes { return None; }
      seen := seen + {packageId};
      PublicWithin(g, [root], packageId);
      WithinAppend(queue, PublicEdges(g, packageId), universe);
      queue := queue + PublicEdges(g, packageId);
      targets := targets[packageId := PublicTargets(g, packageId)];
    }
    WorkDone(next, [root], seen);
    ExactMembers(next, [root], seen);
    r := Some((seen, targets));
  }

  function PublicTargets(g: Graph, x: Id): set<Id> { set y | y in PublicEdges(g, x) }

  lemma WithinAppend(a: seq<Id>, b: seq<Id>, universe: set<Id>)
    requires Within(a, universe) && Within(b, universe)
    ensures Within(a + b, universe)
  {
  }

  // The front of the queue leaves it.
  lemma FirstLeaves(next: Id -> seq<Id>, roots: seq<Id>, seen: set<Id>, queue: seq<Id>, universe: set<Id>)
    requires Working(next, roots, seen, queue) && Within(queue, universe) && queue != []
    ensures Reaches(next, roots, queue[0]) && queue[0] in universe && Within(queue[1..], universe)
    ensures queue[0] in seen ==> Working(next, roots, seen, queue[1..])
    ensures Working(next, roots, seen + {queue[0]}, queue[1..] + next(queue[0]))
  {
    hide Reaches, Working;
    var x, rest := queue[0], queue[1..];
    assert queue == [x] + rest;
    WorkSteps(next, roots, seen, queue, x, rest);
    PendingReached(next, roots, seen, queue, x);
  }

  lemma PublicWithin(g: Graph, roots: seq<Id>, x: Id)
    ensures Within(PublicEdges(g, x), Universe(g, roots))
  {
    TargetsWithin(g, roots, x, d => IsPublic(d));
  }

  // The normal closure from a root lies inside the public one of the same graph.
  lemma NormalInsidePublic(g: Graph, root: Id, normal: set<Id>, public: set<Id>)
    requires Exactly(y => NormalEdges(g, y), [root], normal)
    requires Exactly(y => PublicEdges(g, y), [root], public)
    ensures normal <= public
  {
    hide Reaches;
    forall a, b | b in NormalEdges(g, a)
      ensures b in PublicEdges(g, a)
    {
      var d :| d in DepsOf(g, a) && IsNormal(d) && d.pkg == b;
      assert IsPublic(d);
    }
    forall x | x in normal
      ensures x in public
    {
      MoreEdges(y => NormalEdges(g, y), y => PublicEdges(g, y), [root], x);
    }
  }
}
