/** Which edges the three walks follow, read off the graph's own entries, and what they cannot see. */
module EdgeRules {
  import opened DependencyClosures

  // --- the edges themselves ---------------------------------------------------

  // A normal edge is one that some entry lists with a null or a normal kind.
  lemma NormalEdgesMean(g: Graph, x: Id, y: Id)
    ensures y in NormalEdges(g, x) <==>
              && x in g.nodes
              && exists i ::
                   && 0 <= i < |g.nodes[x]| && g.nodes[x][i].pkg == y
                   && (NoKind in g.nodes[x][i].kinds || NormalKind in g.nodes[x][i].kinds)
  {
    if x in g.nodes {
      var deps := g.nodes[x];
      forall i | 0 <= i < |deps|
        ensures IsNormal(deps[i]) <==> NoKind in deps[i].kinds || NormalKind in deps[i].kinds
      {
      }
    }
  }

  // A public edge is one that some entry lists without kinds, or with a kind other than development.
  lemma PublicEdgesMean(g: Graph, x: Id, y: Id)
    ensures y in PublicEdges(g, x) <==>
              && x in g.nodes
              && exists i ::
                   && 0 <= i < |g.nodes[x]| && g.nodes[x][i].pkg == y
                   && (g.nodes[x][i].kinds == [] || NoKind in g.nodes[x][i].kinds
                       || NormalKind in g.nodes[x][i].kinds || BuildKind in g.nodes[x][i].kinds)
  {
    if x in g.nodes {
      var deps := g.nodes[x];
      forall i | 0 <= i < |deps|
        ensures IsPublic(deps[i]) <==> deps[i].kinds == [] || NoKind in deps[i].kinds
                                       || NormalKind in deps[i].kinds || BuildKind in deps[i].kinds
      {
        var d := deps[i];
        if d.kinds != [] && forall k :: k in d.kinds ==> k == DevKind { assert d.kinds[0] in d.kinds; }
        if !(forall k :: k in d.kinds ==> k == DevKind) { var k :| k in d.kinds && k != DevKind; }
      }
    }
  }

  // An edge of the judged graph: an entry lists one of the kinds, or none while null is among them.
  // No edge leads out of a proc macro.
  lemma LinkedEdgesMean(g: Graph, kinds: set<Kind>, x: Id, y: Id)
    ensures y in LinkedEdges(g, kinds, x) <==>
              && x in g.nodes && (x in g.packages ==> !g.packages[x].procMacro)
              && exists i ::
                   && 0 <= i < |g.nodes[x]| && g.nodes[x][i].pkg == y
                   && ((g.nodes[x][i].kinds == [] && NoKind in kinds)
                       || exists j :: 0 <= j < |g.nodes[x][i].kinds| && g.nodes[x][i].kinds[j] in kinds)
  {
    if x in g.nodes {
      var deps := g.nodes[x];
      forall i | 0 <= i < |deps|
        ensures KeepsKinds(kinds, deps[i]) <==>
                  (deps[i].kinds == [] && NoKind in kinds)
                  || exists j :: 0 <= j < |deps[i].kinds| && deps[i].kinds[j] in kinds
      {
        var d := deps[i];
        if exists k :: k in d.kinds && k in kinds {
          var k :| k in d.kinds && k in kinds;
          var j :| 0 <= j < |d.kinds| && d.kinds[j] == k;
        }
        if exists j :: 0 <= j < |d.kinds| && d.kinds[j] in kinds {
          var j :| 0 <= j < |d.kinds| && d.kinds[j] in kinds;
          assert d.kinds[j] in d.kinds;
        }
      }
    }
  }

  // --- what a closure cannot see ----------------------------------------------

  function Mapped(g: Graph, change: Dependency -> Dependency): Graph {
    g.(nodes := map x | x in g.nodes ::
         seq(|g.nodes[x]|, i requires 0 <= i < |g.nodes[x]| => change(g.nodes[x][i])))
  }

  // A change of entries that keeps every package and every decision keeps the edges.
  lemma {:induction false} SameTargets(a: seq<Dependency>, b: seq<Dependency>, keep: Dependency -> bool)
    requires |a| == |b| && forall i :: 0 <= i < |a| ==> b[i].pkg == a[i].pkg && keep(b[i]) == keep(a[i])
    ensures Targets(b, keep) == Targets(a, keep)
  {
    if a != [] {
      assert a[0].pkg == b[0].pkg;
      SameTargets(a[1..], b[1..], keep);
    }
  }

  lemma MappedDeps(g: Graph, change: Dependency -> Dependency, x: Id)
    ensures |DepsOf(Mapped(g, change), x)| == |DepsOf(g, x)|
    ensures forall i :: 0 <= i < |DepsOf(g, x)| ==> DepsOf(Mapped(g, change), x)[i] == change(DepsOf(g, x)[i])
  {
  }

  lemma SameWalk(a: Id -> seq<Id>, b: Id -> seq<Id>, roots: seq<Id>, s: set<Id>)
    requires forall x :: a(x) == b(x)
    ensures Exactly(a, roots, s) <==> Exactly(b, roots, s)
  {
    hide Reaches;
    forall x
      ensures Reaches(a, roots, x) <==> Reaches(b, roots, x)
    {
      if Reaches(a, roots, x) { MoreEdges(a, b, roots, x); }
      if Reaches(b, roots, x) { MoreEdges(b, a, roots, x); }
    }
  }

  // Entries that list neither a null nor a normal kind might as well list nothing.
  function NormalOnly(d: Dependency): Dependency {
    if NoKind in d.kinds || NormalKind in d.kinds then d else d.(kinds := [])
  }

  lemma NormalClosureSees(g: Graph, root: Id, s: set<Id>)
    ensures Exactly(y => NormalEdges(Mapped(g, d => NormalOnly(d)), y), [root], s) <==>
              Exactly(y => NormalEdges(g, y), [root], s)
  {
    hide Exactly, Mapped, Targets;
    var h := Mapped(g, d => NormalOnly(d));
    forall x
      ensures NormalEdges(h, x) == NormalEdges(g, x)
    {
      MappedDeps(g, d => NormalOnly(d), x);
      SameTargets(DepsOf(g, x), DepsOf(h, x), d => IsNormal(d));
    }
    SameWalk(y => NormalEdges(h, y), y => NormalEdges(g, y), [root], s);
  }

  // All that matters of an entry's kinds is whether they are development kinds alone.
  function PublicKind(d: Dependency): Dependency {
    if d.kinds == [] || NoKind in d.kinds || NormalKind in d.kinds || BuildKind in d.kinds then d.(kinds := [NoKind])
    else d.(kinds := [DevKind])
  }

  lemma PublicClosureSees(g: Graph, root: Id, s: set<Id>)
    ensures Exactly(y => PublicEdges(Mapped(g, d => PublicKind(d)), y), [root], s) <==>
              Exactly(y => PublicEdges(g, y), [root], s)
  {
    hide Exactly, Mapped, Targets, IsPublic, PublicKind;
    var h := Mapped(g, d => PublicKind(d));
    forall x
      ensures PublicEdges(h, x) == PublicEdges(g, x)
    {
      MappedDeps(g, d => PublicKind(d), x);
      forall i | 0 <= i < |DepsOf(g, x)|
        ensures DepsOf(h, x)[i].pkg == DepsOf(g, x)[i].pkg && IsPublic(DepsOf(h, x)[i]) == IsPublic(DepsOf(g, x)[i])
      {
        KindIsPublic(DepsOf(g, x)[i]);
      }
      SameTargets(DepsOf(g, x), DepsOf(h, x), d => IsPublic(d));
    }
    SameWalk(y => PublicEdges(h, y), y => PublicEdges(g, y), [root], s);
  }

  lemma KindIsPublic(d: Dependency)
    ensures PublicKind(d).pkg == d.pkg && IsPublic(PublicKind(d)) == IsPublic(d)
  {
    if d.kinds != [] { assert d.kinds[0] in d.kinds; }
    assert NoKind in [NoKind];
  }

  // Entries without kinds might as well list a null kind.
  function Filled(d: Dependency): Dependency { if d.kinds == [] then d.(kinds := [NoKind]) else d }

  lemma ReachableSees(g: Graph, roots: seq<Id>, kinds: set<Kind>, s: set<Id>)
    ensures Exactly(y => LinkedEdges(Mapped(g, d => Filled(d)), kinds, y), roots, s) <==>
              Exactly(y => LinkedEdges(g, kinds, y), roots, s)
  {
    hide Exactly, Mapped, Targets, KeepsKinds, Filled;
    var h := Mapped(g, d => Filled(d));
    forall x
      ensures LinkedEdges(h, kinds, x) == LinkedEdges(g, kinds, x)
    {
      MappedDeps(g, d => Filled(d), x);
      forall i | 0 <= i < |DepsOf(g, x)|
        ensures DepsOf(h, x)[i].pkg == DepsOf(g, x)[i].pkg
        ensures KeepsKinds(kinds, DepsOf(h, x)[i]) == KeepsKinds(kinds, DepsOf(g, x)[i])
      {
        FilledKept(kinds, DepsOf(g, x)[i]);
      }
      SameTargets(DepsOf(g, x), DepsOf(h, x), d => KeepsKinds(kinds, d));
      MappedPackages(g, d => Filled(d));
    }
    SameWalk(y => LinkedEdges(h, kinds, y), y => LinkedEdges(g, kinds, y), roots, s);
  }

  lemma MappedPackages(g: Graph, change: Dependency -> Dependency)
    ensures Mapped(g, change).packages == g.packages
  {
  }

  lemma FilledKept(kinds: set<Kind>, d: Dependency)
    ensures Filled(d).pkg == d.pkg && KeepsKinds(kinds, Filled(d)) == KeepsKinds(kinds, d)
  {
    assert NoKind in [NoKind];
  }
}
