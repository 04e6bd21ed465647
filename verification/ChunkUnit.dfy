/** Which documents a unit judges: the length gate, the part window, and the shard rule. */
module ChunkUnit {
  import opened ChunkCounters
  import opened ChunkStream

  datatype Gate = Gate(minChars: nat, maxChars: nat)

  predicate Passes(gate: Gate, text: string) { gate.minChars <= |text| <= gate.maxChars }

  function Accepted(gate: Gate, docs: seq<string>): (r: seq<string>)
    ensures |r| <= |docs|
  {
    if docs == [] then []
    else Accepted(gate, docs[..|docs| - 1]) + if Passes(gate, docs[|docs| - 1]) then [docs[|docs| - 1]] else []
  }

  // The documents of a window: the first `skip` accepted documents are passed over, and the loop
  // stops at the end of the first step that brings the count to `maxDocs`.
  function Window(accepted: seq<string>, skip: nat, maxDocs: nat): seq<string> {
    var limit := if maxDocs == 0 then 1 else maxDocs;
    if |accepted| <= skip then []
    else if |accepted| - skip <= limit then accepted[skip..]
    else accepted[skip..skip + limit]
  }

  // How many documents have been read when the n-th accepted one has.
  function Position(gate: Gate, docs: seq<string>, n: nat): (p: nat)
    ensures p <= |docs|
  {
    if n == 0 || docs == [] then 0
    else if |Accepted(gate, docs[..|docs| - 1])| >= n then Position(gate, docs[..|docs| - 1], n)
    else |docs|
  }

  function ChunkCount(length: nat, chunkChars: nat): (k: nat)
    requires chunkChars > 0
    ensures k >= 2 && k * chunkChars >= length
    ensures k == 2 || (k - 1) * chunkChars < length
  {
    var parts := (length + chunkChars - 1) / chunkChars;
    if parts < 2 then 2 else parts
  }

  function Judgements(texts: seq<string>, chunkChars: nat, minChunk: nat): (js: seq<Judgement>)
    requires chunkChars > 0
    ensures |js| == |texts|
  {
    seq(|texts|, i requires 0 <= i < |texts| => Judgement(texts[i], ChunkCount(|texts[i]|, chunkChars), minChunk))
  }

  function Chars(texts: seq<string>): nat {
    if texts == [] then 0 else Chars(texts[..|texts| - 1]) + |texts[|texts| - 1]|
  }

  lemma AcceptedAppend(gate: Gate, a: seq<string>, b: seq<string>)
    ensures Accepted(gate, a + b) == Accepted(gate, a) + Accepted(gate, b)
  {
    if b == [] {
      assert a + b == a;
    } else {
      assert (a + b)[..|a + b| - 1] == a + b[..|b| - 1];
      AcceptedAppend(gate, a, b[..|b| - 1]);
    }
  }

  // The gate takes the documents whose length lies in its range, both ends included, as often as they
  // come; `AcceptedAppend` keeps their order.
  lemma {:induction false} AcceptedMeans(gate: Gate, docs: seq<string>, d: string)
    ensures multiset(Accepted(gate, docs))[d]
         == if gate.minChars <= |d| <= gate.maxChars then multiset(docs)[d] else 0
  {
    if docs != [] {
      var front, last := docs[..|docs| - 1], docs[|docs| - 1];
      AcceptedMeans(gate, front, d);
      assert docs == front + [last];
    }
  }

  // The n-th accepted document sits at its position, whatever follows it.
  lemma {:induction false} PositionExact(gate: Gate, docs: seq<string>, n: nat)
    requires n <= |Accepted(gate, docs)|
    ensures |Accepted(gate, docs[..Position(gate, docs, n)])| == n
    ensures n > 0 ==> Position(gate, docs, n) > 0 && Passes(gate, docs[Position(gate, docs, n) - 1])
  {
    if n > 0 {
      var front := docs[..|docs| - 1];
      if |Accepted(gate, front)| >= n {
        PositionExact(gate, front, n);
        assert docs[..Position(gate, docs, n)] == front[..Position(gate, docs, n)];
      } else {
        assert docs[..|docs|] == docs;
      }
    }
  }

  lemma {:induction false} PositionPrefix(gate: Gate, docs: seq<string>, i: nat, n: nat)
    requires i <= |docs| && n <= |Accepted(gate, docs[..i])|
    ensures Position(gate, docs, n) == Position(gate, docs[..i], n)
    decreases |docs| - i
  {
    if i < |docs| {
      assert docs[..i + 1][..i] == docs[..i];
      assert docs[..i + 1] == docs[..i] + [docs[i]];
      PositionPrefix(gate, docs, i + 1, n);
    } else {
      assert docs[..i] == docs;
    }
  }

  lemma {:induction false} PositionMonotone(gate: Gate, docs: seq<string>, m: nat, n: nat)
    requires m <= n
    ensures Position(gate, docs, m) <= Position(gate, docs, n)
    decreases |docs|
  {
    if m > 0 && docs != [] {
      PositionMonotone(gate, docs[..|docs| - 1], m, n);
    }
  }

  // --- the stream and the loop ------------------------------------------------

  datatype Stop = SourceExhausted | MaxDocs

  class Stream {
    var docsSeen: nat
    var docsSkipped: nat
    var docsPassedOver: nat
    var docsJudged: nat
    var chars: nat
    var fed: seq<string>  // what the digest was updated with, one entry a document

    constructor ()
      ensures docsSeen == docsSkipped == docsPassedOver == docsJudged == chars == 0 && fed == []
    {
      docsSeen, docsSkipped, docsPassedOver, docsJudged, chars := 0, 0, 0, 0, 0;
      fed := [];
    }

    method Judged(text: string)
      modifies `docsJudged, `chars, `fed
      ensures docsJudged == old(docsJudged) + 1 && chars == old(chars) + |text| && fed == old(fed) + [text]
    {
      docsJudged := docsJudged + 1;
      chars := chars + |text|;
      fed := fed + [text];
    }
  }

  // The counts after reading the documents `read`, of which `accepted` passed the gate.
  ghost predicate Facts(gate: Gate, read: seq<string>, accepted: seq<string>, skip: nat,
                        seen: int, skipped: int, passedOver: int, fed: seq<string>)
  {
    && accepted == Accepted(gate, read)
    && passedOver == (if |accepted| < skip then |accepted| else skip)
    && fed == (if |accepted| <= skip then [] else accepted[skip..])
    && (|accepted| < skip ==> seen == |read| == skipped + passedOver)
    && (|accepted| >= skip ==> seen == |read| - Position(gate, read, skip) == skipped + |fed|)
  }

  lemma FactsStart(gate: Gate, skip: nat)
    ensures Facts(gate, [], [], skip, 0, 0, 0, [])
  {
  }

  lemma FactsSkip(gate: Gate, read: seq<string>, accepted: seq<string>, skip: nat,
                  seen: int, skipped: int, passedOver: int, fed: seq<string>, text: string)
    requires Facts(gate, read, accepted, skip, seen, skipped, passedOver, fed) && !Passes(gate, text)
    ensures Facts(gate, read + [text], accepted, skip, seen + 1, skipped + 1, passedOver, fed)
  {
    Seen(gate, read, text, skip);
  }

  // A document passed over; the one that completes the skip starts the counts again.
  lemma FactsPassOver(gate: Gate, read: seq<string>, accepted: seq<string>, skip: nat,
                      seen: int, skipped: int, passedOver: int, fed: seq<string>, text: string)
    requires Facts(gate, read, accepted, skip, seen, skipped, passedOver, fed) && Passes(gate, text)
    requires passedOver < skip
    ensures passedOver + 1 < skip ==> Facts(gate, read + [text], accepted + [text], skip, seen + 1, skipped,
              passedOver + 1, fed)
    ensures passedOver + 1 == skip ==> Facts(gate, read + [text], accepted + [text], skip, 0, 0, passedOver + 1, fed)
  {
    Seen(gate, read, text, skip);
  }

  lemma FactsJudge(gate: Gate, read: seq<string>, accepted: seq<string>, skip: nat,
                   seen: int, skipped: int, passedOver: int, fed: seq<string>, text: string)
    requires Facts(gate, read, accepted, skip, seen, skipped, passedOver, fed) && Passes(gate, text)
    requires passedOver >= skip
    ensures Facts(gate, read + [text], accepted + [text], skip, seen + 1, skipped, passedOver, fed + [text])
  {
    Seen(gate, read, text, skip);
    if |accepted| == skip {
      assert accepted + [text] == accepted[..skip] + [text];
    }
    assert (accepted + [text])[skip..] == accepted[skip..] + [text];
  }

  ghost predicate Distinct(families: seq<Family>) {
    forall i, j :: 0 <= i < j < |families| ==> families[i] != families[j]
  }

  ghost predicate Tallied(f: Family, js: seq<Judgement>)
    reads f
  {
    f.Valid() && f.counters == Tally(f.arm, f.encoders, js)
  }

  ghost predicate AllTallied(families: seq<Family>, js: seq<Judgement>)
    reads families
  {
    forall i :: 0 <= i < |families| ==> Tallied(families[i], js)
  }

  lemma TallySnoc(arm: Arm, e: Encoders, js: seq<Judgement>, j: Judgement)
    ensures Tally(arm, e, js + [j]) == Add(Tally(arm, e, js), One(arm, e, j))
  {
    assert (js + [j])[..|js + [j]| - 1] == js;
  }

  method JudgeAll(families: seq<Family>, j: Judgement, ghost js: seq<Judgement>)
    requires Distinct(families) && AllTallied(families, js)
    modifies families
    ensures AllTallied(families, js + [j])
  {
    hide Tally, Add, One, Family.Valid, Runs, Differs;
    for k := 0 to |families|
      invariant forall i :: 0 <= i < k ==> Tallied(families[i], js + [j])
      invariant forall i :: k <= i < |families| ==> Tallied(families[i], js)
    {
      var finding := families[k].Judge(j);
      TallySnoc(families[k].arm, families[k].encoders, js, j);
    }
  }

  // A text the window takes: every family judges it, then the stream counts it.
  method JudgeText(stream: Stream, families: seq<Family>, text: string, chunkChars: nat, minChunk: nat)
    requires chunkChars > 0 && Distinct(families) && AllTallied(families, Judgements(stream.fed, chunkChars, minChunk))
    requires stream.docsJudged == |stream.fed| && stream.chars == Chars(stream.fed)
    modifies families, stream`docsJudged, stream`chars, stream`fed
    ensures stream.fed == old(stream.fed) + [text]
    ensures stream.docsJudged == |stream.fed| && stream.chars == Chars(stream.fed)
    ensures AllTallied(families, Judgements(stream.fed, chunkChars, minChunk))
  {
    hide AllTallied, Tallied, Family.Valid, Chars, Judgements, ChunkCount;
    JudgementsSnoc(stream.fed, text, chunkChars, minChunk);
    JudgeAll(families, Judgement(text, ChunkCount(|text|, chunkChars), minChunk),
             Judgements(stream.fed, chunkChars, minChunk));
    stream.Judged(text);
  }

  // One document read: skipped by its length, passed over, or judged.
  method ReadOne(stream: Stream, families: seq<Family>, text: string, gate: Gate, chunkChars: nat, minChunk: nat,
                 skipDocs: nat, ghost read: seq<string>, ghost accepted: seq<string>)
    returns (judged: bool, ghost now: seq<string>)
    requires chunkChars > 0 && Distinct(families) && AllTallied(families, Judgements(stream.fed, chunkChars, minChunk))
    requires stream.docsJudged == |stream.fed| && stream.chars == Chars(stream.fed)
    requires Facts(gate, read, accepted, skipDocs, stream.docsSeen, stream.docsSkipped, stream.docsPassedOver,
               stream.fed)
    modifies families, stream
    ensures stream.docsJudged == |stream.fed| && stream.chars == Chars(stream.fed)
    ensures AllTallied(families, Judgements(stream.fed, chunkChars, minChunk))
    ensures Facts(gate, read + [text], now, skipDocs, stream.docsSeen, stream.docsSkipped, stream.docsPassedOver,
              stream.fed)
    ensures stream.fed == if judged then old(stream.fed) + [text] else old(stream.fed)
    ensures judged ==> Passes(gate, text)
  {
    hide AllTallied, Distinct, Tallied, Tally, Family.Valid, Facts, Passes, Chars, Judgements, ChunkCount;
    ghost var seen, skipped, passedOver, fed := stream.docsSeen, stream.docsSkipped, stream.docsPassedOver, stream.fed;
    judged, now := false, accepted;
    stream.docsSeen := stream.docsSeen + 1;
    if !Passes(gate, text) {
      FactsSkip(gate, read, accepted, skipDocs, seen, skipped, passedOver, fed, text);
      stream.docsSkipped := stream.docsSkipped + 1;
      return;
    }
    now := accepted + [text];
    if stream.docsPassedOver < skipDocs {
      FactsPassOver(gate, read, accepted, skipDocs, seen, skipped, passedOver, fed, text);
      stream.docsPassedOver := stream.docsPassedOver + 1;
      if stream.docsPassedOver == skipDocs {
        stream.docsSeen := 0;
        stream.docsSkipped := 0;
      }
      return;
    }
    FactsJudge(gate, read, accepted, skipDocs, seen, skipped, passedOver, fed, text);
    JudgeText(stream, families, text, chunkChars, minChunk);
    judged := true;
  }

  // One unit, without a time budget. The stream's facts and every family's counters are those of
  // the window, and the window accounting holds whether the unit fills it or runs out.
  method RunUnit(families: seq<Family>, docs: seq<string>, gate: Gate, chunkChars: nat, minChunk: nat,
                 maxDocs: nat, skipDocs: nat)
    returns (stream: Stream, stopped: Stop)
    requires chunkChars > 0 && Distinct(families) && AllTallied(families, [])
    modifies families
    ensures fresh(stream)
    ensures stream.fed == Window(Accepted(gate, docs), skipDocs, maxDocs)
    ensures stream.docsJudged == |stream.fed| && stream.chars == Chars(stream.fed)
    ensures AllTallied(families, Judgements(stream.fed, chunkChars, minChunk))
    ensures stopped == MaxDocs <==> stream.fed != [] && |stream.fed| >= maxDocs
    ensures |Accepted(gate, docs)| >= skipDocs ==>
              && stream.docsSeen == stream.docsSkipped + stream.docsJudged
              && stream.docsPassedOver == skipDocs
              && stream.docsSeen == (if stopped == MaxDocs then Position(gate, docs, skipDocs + stream.docsJudged)
                                     else |docs|) - Position(gate, docs, skipDocs)
    ensures |Accepted(gate, docs)| < skipDocs ==>
              && stream.docsSeen == |docs| == stream.docsSkipped + stream.docsPassedOver
              && stream.docsPassedOver == |Accepted(gate, docs)|
  {
    hide AllTallied, Distinct, Tallied, Tally, Family.Valid, Facts, Passes, Position, Accepted, Chars, Judgements,
         ChunkCount, Window;
    stream := new Stream();
    stopped := SourceExhausted;
    var n := 0;
    ghost var accepted: seq<string> := [];
    FactsStart(gate, skipDocs);
    Empties(chunkChars, minChunk);
    assert docs[..0] == [];
    while n < |docs|
      invariant 0 <= n <= |docs| && fresh(stream) && stopped == SourceExhausted
      invariant Facts(gate, docs[..n], accepted, skipDocs, stream.docsSeen, stream.docsSkipped,
                stream.docsPassedOver, stream.fed)
      invariant stream.docsJudged == |stream.fed| && stream.chars == Chars(stream.fed)
      invariant stream.fed != [] ==> |stream.fed| < maxDocs
      invariant AllTallied(families, Judgements(stream.fed, chunkChars, minChunk))
    {
      ghost var read := docs[..n];
      assert docs[..n + 1] == read + [docs[n]];
      var judged;
      judged, accepted := ReadOne(stream, families, docs[n], gate, chunkChars, minChunk, skipDocs, read, accepted);
      n := n + 1;
      if judged && stream.docsJudged >= maxDocs {
        stopped := MaxDocs;
        break;
      }
    }
    if stopped == SourceExhausted {
      assert docs[..n] == docs;
      Exhausted(gate, docs, accepted, skipDocs, maxDocs, stream.docsSeen, stream.docsSkipped, stream.docsPassedOver,
                stream.fed);
    } else {
      Stopped(gate, docs, n, accepted, skipDocs, maxDocs, stream.docsSeen, stream.docsSkipped, stream.docsPassedOver,
              stream.fed);
    }
  }

  // Every family of a unit has counted the unit's documents, and its columns are consistent.
  lemma FamilyCountsUnit(f: Family, js: seq<Judgement>)
    requires Tallied(f, js)
    ensures f.counters.docs == |js| && Consistent(f.counters)
    ensures RanColumns(f.counters, f.arm.RunsPython(), f.arm.RunsNative(), f.arm.RunsPython() && f.arm.RunsNative())
  {
    TallyFacts(f.arm, f.encoders, js);
  }

  lemma Empties(chunkChars: nat, minChunk: nat)
    requires chunkChars > 0
    ensures Judgements([], chunkChars, minChunk) == [] && Chars([]) == 0
  {
  }

  lemma JudgementsSnoc(texts: seq<string>, text: string, chunkChars: nat, minChunk: nat)
    requires chunkChars > 0
    ensures Judgements(texts + [text], chunkChars, minChunk)
         == Judgements(texts, chunkChars, minChunk) + [Judgement(text, ChunkCount(|text|, chunkChars), minChunk)]
    ensures Chars(texts + [text]) == Chars(texts) + |text|
  {
    assert (texts + [text])[..|texts + [text]| - 1] == texts;
  }

  lemma Exhausted(gate: Gate, docs: seq<string>, accepted: seq<string>, skip: nat, maxDocs: nat,
                  seen: int, skipped: int, passedOver: int, fed: seq<string>)
    requires Facts(gate, docs, accepted, skip, seen, skipped, passedOver, fed)
    requires fed != [] ==> |fed| < maxDocs
    ensures fed == Window(Accepted(gate, docs), skip, maxDocs)
    ensures |Accepted(gate, docs)| >= skip ==>
              seen == skipped + |fed| && passedOver == skip && seen == |docs| - Position(gate, docs, skip)
    ensures |Accepted(gate, docs)| < skip ==>
              seen == |docs| == skipped + passedOver && passedOver == |Accepted(gate, docs)|
  {
  }

  lemma LastAccepted(gate: Gate, read: seq<string>)
    requires read != [] && Passes(gate, read[|read| - 1])
    ensures Accepted(gate, read) != [] && Position(gate, read, |Accepted(gate, read)|) == |read|
  {
  }

  // At the stop: the documents read so far end with the last judged one.
  lemma Stopped(gate: Gate, docs: seq<string>, n: nat, accepted: seq<string>, skip: nat, maxDocs: nat,
                seen: int, skipped: int, passedOver: int, fed: seq<string>)
    requires 0 < n <= |docs| && Passes(gate, docs[n - 1])
    requires Facts(gate, docs[..n], accepted, skip, seen, skipped, passedOver, fed)
    requires fed != [] && |fed| >= maxDocs && (|fed| > 1 ==> |fed| - 1 < maxDocs)
    ensures fed == Window(Accepted(gate, docs), skip, maxDocs)
    ensures |Accepted(gate, docs)| >= skip && seen == skipped + |fed| && passedOver == skip
    ensures seen == Position(gate, docs, skip + |fed|) - Position(gate, docs, skip)
  {
    hide Accepted, Passes;
    LastAccepted(gate, docs[..n]);
    PositionPrefix(gate, docs, n, |accepted|);
    PositionPrefix(gate, docs, n, skip);
    assert docs[..n][..n - 1] == docs[..n - 1] && docs[..n] == docs[..n - 1] + [docs[n - 1]];
    assert docs == docs[..n] + docs[n..];
    AcceptedAppend(gate, docs[..n], docs[n..]);
  }

  // What one more document does to the position of the window's opening.
  lemma Seen(gate: Gate, read: seq<string>, text: string, skip: nat)
    ensures var now := read + [text];
            && Accepted(gate, now) == Accepted(gate, read) + (if Passes(gate, text) then [text] else [])
            && (|Accepted(gate, read)| >= skip ==> Position(gate, now, skip) == Position(gate, read, skip))
            && (|Accepted(gate, read)| < skip <= |Accepted(gate, now)| ==> Position(gate, now, skip) == |now|)
  {
    var now := read + [text];
    assert now[..|now| - 1] == read;
    assert now[|now| - 1] == text;
  }
}
