/** Part windows and shards: how the units of a campaign divide the work. */
module ChunkParts {
  import opened ChunkCounters
  import opened ChunkStream
  import opened ChunkUnit

  // --- parts tile the stream --------------------------------------------------

  // `skip_docs` and `max_docs` of part `index` (command_run).
  function PartJudged(accepted: seq<string>, partDocs: nat, index: nat): seq<string> {
    Window(accepted, index * partDocs, partDocs)
  }

  function Tiled(accepted: seq<string>, partDocs: nat, parts: nat): seq<string> {
    if parts == 0 then [] else Tiled(accepted, partDocs, parts - 1) + PartJudged(accepted, partDocs, parts - 1)
  }

  // Parts 0..n-1 judge the first n * partDocs accepted documents, in order and once each.
  lemma {:induction false} PartsTile(accepted: seq<string>, partDocs: nat, parts: nat)
    requires partDocs >= 1
    ensures Tiled(accepted, partDocs, parts)
         == accepted[..if parts * partDocs < |accepted| then parts * partDocs else |accepted|]
  {
    if parts > 0 {
      PartsTile(accepted, partDocs, parts - 1);
      var before, now := (parts - 1) * partDocs, parts * partDocs;
      assert now == before + partDocs;
    }
  }

  // The `docs_seen` of part `index` when it is full: from the end of the part before to its own.
  function PartSeen(gate: Gate, docs: seq<string>, partDocs: nat, index: nat): int {
    Position(gate, docs, index * partDocs + partDocs) - Position(gate, docs, index * partDocs)
  }

  function SeenUpTo(gate: Gate, docs: seq<string>, partDocs: nat, parts: nat): int {
    if parts == 0 then 0 else SeenUpTo(gate, docs, partDocs, parts - 1) + PartSeen(gate, docs, partDocs, parts - 1)
  }

  // Consecutive full parts: their `docs_seen` add up to the stream position of the last judged
  // document, although the count starts again inside the loop.
  lemma {:induction false} SeenAddsUp(gate: Gate, docs: seq<string>, partDocs: nat, parts: nat)
    ensures SeenUpTo(gate, docs, partDocs, parts) == Position(gate, docs, parts * partDocs)
  {
    if parts > 0 {
      SeenAddsUp(gate, docs, partDocs, parts - 1);
      assert (parts - 1) * partDocs + partDocs == parts * partDocs;
    }
  }

  // A full part judges `partDocs` documents and reads at least as many.
  lemma FullPart(gate: Gate, docs: seq<string>, partDocs: nat, index: nat)
    requires partDocs >= 1 && index * partDocs + partDocs <= |Accepted(gate, docs)|
    ensures |PartJudged(Accepted(gate, docs), partDocs, index)| == partDocs
    ensures PartSeen(gate, docs, partDocs, index) >= partDocs
  {
    hide Accepted, Position;
    var skip := index * partDocs;
    assert skip >= 0;
    Between(gate, docs, skip, skip + partDocs);
  }

  lemma Between(gate: Gate, docs: seq<string>, m: nat, n: nat)
    requires m <= n <= |Accepted(gate, docs)|
    ensures Position(gate, docs, n) - Position(gate, docs, m) >= n - m
  {
    hide Accepted, Position;
    PositionExact(gate, docs, m);
    PositionExact(gate, docs, n);
    PositionMonotone(gate, docs, m, n);
    var p, q := Position(gate, docs, m), Position(gate, docs, n);
    assert docs[..q] == docs[..p] + docs[p..q];
    AcceptedAppend(gate, docs[..p], docs[p..q]);
  }

  // The families of a part, loaded anew.
  method LoadFamilies(specs: seq<(Arm, Encoders)>) returns (families: seq<Family>)
    ensures |families| == |specs| && fresh(families) && Distinct(families) && AllTallied(families, [])
    ensures forall i :: 0 <= i < |specs| ==> families[i].arm == specs[i].0 && families[i].encoders == specs[i].1
  {
    hide ColumnsOf;
    families := [];
    for k := 0 to |specs|
      invariant |families| == k && fresh(families) && Distinct(families) && AllTallied(families, [])
      invariant forall i :: 0 <= i < k ==> families[i].arm == specs[i].0 && families[i].encoders == specs[i].1
    {
      var family := new Family(specs[k].0, specs[k].1);
      ZeroTallied(family);
      families := families + [family];
    }
  }

  lemma ZeroTallied(f: Family)
    requires f.counters == Zero(f.arm)
    ensures Tallied(f, [])
  {
    hide Zero, ColumnsOf, Add, One;
    ZeroColumns(f.arm);
  }

  // Parts 0..n-1, each run on its own: together they judge the first n * partDocs accepted documents
  // in order, and while they are full their `docs_seen` add up to the position of the last of them.
  method RunParts(specs: seq<(Arm, Encoders)>, docs: seq<string>, gate: Gate, chunkChars: nat, minChunk: nat,
                  partDocs: nat, parts: nat)
    returns (seen: nat, judged: seq<string>)
    requires chunkChars > 0 && partDocs >= 1
    ensures var accepted := Accepted(gate, docs);
            judged == accepted[..if parts * partDocs < |accepted| then parts * partDocs else |accepted|]
    ensures parts * partDocs <= |Accepted(gate, docs)| ==> seen == Position(gate, docs, parts * partDocs)
  {
    hide AllTallied, Position, Accepted, Window, Chars, Judgements;
    ghost var accepted := Accepted(gate, docs);
    seen, judged := 0, [];
    SeenAddsUp(gate, docs, partDocs, 0);
    for i := 0 to parts
      invariant judged == Tiled(accepted, partDocs, i)
      invariant i * partDocs <= |accepted| ==> seen == SeenUpTo(gate, docs, partDocs, i)
    {
      var families := LoadFamilies(specs);
      var stream, stopped := RunUnit(families, docs, gate, chunkChars, minChunk, partDocs, i * partDocs);
      assert i * partDocs + partDocs == (i + 1) * partDocs;
      if (i + 1) * partDocs <= |accepted| {
        FullPart(gate, docs, partDocs, i);
      }
      judged := judged + stream.fed;
      seen := seen + stream.docsSeen;
    }
    PartsTile(accepted, partDocs, parts);
    SeenAddsUp(gate, docs, partDocs, parts);
  }

  // --- the shard rule ---------------------------------------------------------

  predicate InShard(position: nat, index: nat, total: nat)
    requires total > 0
  {
    position % total == index
  }

  // The selected positions of a listing with `count` names, in order.
  function ShardPositions(count: nat, index: nat, total: nat): seq<nat>
    requires index < total
  {
    if count == 0 then []
    else ShardPositions(count - 1, index, total) + if InShard(count - 1, index, total) then [count - 1] else []
  }

  // `[name for position, name in enumerate(names) if position % total == index]`
  function Shard(names: seq<string>, index: nat, total: nat): seq<string>
    requires index < total
  {
    if names == [] then []
    else
      Shard(names[..|names| - 1], index, total)
      + if InShard(|names| - 1, index, total) then [names[|names| - 1]] else []
  }

  lemma {:induction false} PositionsAscend(count: nat, index: nat, total: nat)
    requires index < total
    ensures var ps := ShardPositions(count, index, total);
            && (forall q :: 0 <= q < |ps| ==> ps[q] < count)
            && (forall q, r :: 0 <= q < r < |ps| ==> ps[q] < ps[r])
            && (forall p :: 0 <= p < count ==> (p in ps <==> InShard(p, index, total)))
  {
    hide InShard;
    if count > 0 {
      PositionsAscend(count - 1, index, total);
      var before := ShardPositions(count - 1, index, total);
      assert forall p :: p in before ==> p < count - 1;
    }
  }

  // A shard keeps the listing's order and takes exactly its own positions.
  lemma {:induction false} ShardPicks(names: seq<string>, index: nat, total: nat)
    requires index < total
    ensures var ps := ShardPositions(|names|, index, total);
            && |Shard(names, index, total)| == |ps|
            && (forall q :: 0 <= q < |ps| ==> ps[q] < |names| && Shard(names, index, total)[q] == names[ps[q]])
            && (forall q, r :: 0 <= q < r < |ps| ==> ps[q] < ps[r])
            && (forall p :: 0 <= p < |names| ==> (p in ps <==> InShard(p, index, total)))
  {
    hide InShard;
    PositionsAscend(|names|, index, total);
    if names != [] {
      var front := names[..|names| - 1];
      ShardPicks(front, index, total);
      assert forall p :: 0 <= p < |front| ==> front[p] == names[p];
    }
  }

  // Every position of a listing belongs to exactly one of the shards.
  lemma ShardsPartition(names: seq<string>, total: nat, p: nat)
    requires total > 0 && p < |names|
    ensures p % total < total
    ensures forall index :: 0 <= index < total ==>
              (p in ShardPositions(|names|, index, total) <==> index == p % total)
  {
    forall index | 0 <= index < total
      ensures p in ShardPositions(|names|, index, total) <==> index == p % total
    {
      ShardPicks(names, index, total);
    }
  }
}
