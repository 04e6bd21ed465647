/** Every counter of a family as a sum over the documents it judged, in the encoders' own terms. */
module ChunkSums {
  import opened ChunkCounters
  import opened ChunkStream
  import opened Wrappers

  ghost function Sum(js: seq<Judgement>, f: Judgement -> nat): nat {
    if js == [] then 0 else Sum(js[..|js| - 1], f) + f(js[|js| - 1])
  }

  // What is read of a document: what the Python path says, unless only the native one was run.
  ghost function Leading(arm: Arm, e: Encoders, j: Judgement): Encoded {
    if arm == On then e.native(j.text, j.k, j.minChunk) else e.python(j.text, j.k, j.minChunk)
  }

  ghost function Chunked(r: Encoded): nat { if r.chunks > 1 then 1 else 0 }

  ghost function FellBack(r: Encoded): nat { if |r.serialReason| > 0 then 1 else 0 }

  ghost function GaveReason(r: Encoded, reason: string): nat {
    if reason != "" && r.serialReason == reason then 1 else 0
  }

  ghost predicate LeadSums(arm: Arm, e: Encoders, js: seq<Judgement>, c: Counters) {
    && c.docs == |js| && c.chars == Sum(js, (j: Judgement) => |j.text|)
    && c.tokens == Sum(js, (j: Judgement) => |Leading(arm, e, j).ids|)
    && c.chunks == Sum(js, (j: Judgement) => Leading(arm, e, j).chunks)
    && c.chunkedDocs == Sum(js, (j: Judgement) => Chunked(Leading(arm, e, j)))
    && c.cutMisses == Sum(js, (j: Judgement) => Leading(arm, e, j).cutMisses)
    && c.literalRejects == Sum(js, (j: Judgement) => Leading(arm, e, j).literalRejects)
    && c.normRejects == Sum(js, (j: Judgement) => Leading(arm, e, j).normRejects)
    && c.serialFallbacks == Sum(js, (j: Judgement) => FellBack(Leading(arm, e, j)))
    && forall reason ::
         Count(c.serialReasons, reason) == Sum(js, (j: Judgement) => GaveReason(Leading(arm, e, j), reason))
  }

  lemma LeadOne(arm: Arm, e: Encoders, j: Judgement)
    ensures var one, r := One(arm, e, j), Leading(arm, e, j);
            && one.docs == 1 && one.chars == |j.text| && one.tokens == |r.ids| && one.chunks == r.chunks
            && one.chunkedDocs == Chunked(r) && one.cutMisses == r.cutMisses && one.literalRejects == r.literalRejects
            && one.normRejects == r.normRejects && one.serialFallbacks == FellBack(r)
            && forall reason :: Count(one.serialReasons, reason) == GaveReason(r, reason)
  {
  }

  lemma AddCounts(a: Counters, b: Counters)
    ensures var r := Add(a, b);
            && r.docs == a.docs + b.docs && r.chars == a.chars + b.chars && r.tokens == a.tokens + b.tokens
            && r.chunks == a.chunks + b.chunks && r.chunkedDocs == a.chunkedDocs + b.chunkedDocs
            && r.cutMisses == a.cutMisses + b.cutMisses && r.literalRejects == a.literalRejects + b.literalRejects
            && r.normRejects == a.normRejects + b.normRejects
            && r.serialFallbacks == a.serialFallbacks + b.serialFallbacks
            && forall reason ::
                 Count(r.serialReasons, reason) == Count(a.serialReasons, reason) + Count(b.serialReasons, reason)
  {
    hide AddMismatches, AddNative;
  }

  // The counters of the leading path are sums over the documents.
  lemma {:induction false} TallyLeads(arm: Arm, e: Encoders, js: seq<Judgement>)
    ensures LeadSums(arm, e, js, Tally(arm, e, js))
  {
    hide Add, One, Zero, Leading, Chunked, FellBack, GaveReason, Count;
    if js == [] {
      NothingLed(arm, e);
    } else {
      var front, j := js[..|js| - 1], js[|js| - 1];
      TallyLeads(arm, e, front);
      LeadOne(arm, e, j);
      AddCounts(Tally(arm, e, front), One(arm, e, j));
    }
  }

  lemma NothingLed(arm: Arm, e: Encoders)
    ensures LeadSums(arm, e, [], Zero(arm))
  {
    hide Sum, Leading, Chunked, FellBack, GaveReason;
    SumNothing();
  }

  lemma SumNothing()
    ensures forall f :: Sum([], f) == 0
  {
  }

  // Which sides a column compares, and on which arms it runs.
  ghost predicate ColumnSum(column: Option<nat>, runs: bool, js: seq<Judgement>, differs: Judgement -> bool) {
    column == if runs then Some(Sum(js, (j: Judgement) => if differs(j) then 1 else 0)) else None
  }

  ghost function PythonIds(e: Encoders, j: Judgement): seq<int> { e.python(j.text, j.k, j.minChunk).ids }

  ghost function NativeIds(e: Encoders, j: Judgement): seq<int> { e.native(j.text, j.k, j.minChunk).ids }

  lemma {:induction false} WhereIsSum(e: Encoders, column: Column, js: seq<Judgement>, differs: Judgement -> bool)
    requires forall j :: differs(j) <==> Differs(e, column, j)
    ensures Where(e, column, js) == Sum(js, (j: Judgement) => if differs(j) then 1 else 0)
  {
    hide Differs;
    if js != [] { WhereIsSum(e, column, js[..|js| - 1], differs); }
  }

  // The four columns of a family, document by document.
  lemma TallyCompares(arm: Arm, e: Encoders, js: seq<Judgement>)
    ensures var m := Tally(arm, e, js).mismatches;
            && ColumnSum(m.pythonVsOracle, arm != On, js, (j: Judgement) => PythonIds(e, j) != e.oracle(j.text))
            && ColumnSum(m.nativeVsOracle, arm != Off, js, (j: Judgement) => NativeIds(e, j) != e.oracle(j.text))
            && ColumnSum(m.pythonVsNative, arm == Both, js, (j: Judgement) => PythonIds(e, j) != NativeIds(e, j))
            && ColumnSum(m.serialVsOracle, true, js, (j: Judgement) => e.serial(j.text) != e.oracle(j.text))
  {
    hide Tally, Where, Sum;
    TallyFacts(arm, e, js);
    var m := Tally(arm, e, js).mismatches;
    WhereIsSum(e, PythonVsOracle, js, (j: Judgement) => PythonIds(e, j) != e.oracle(j.text));
    WhereIsSum(e, NativeVsOracle, js, (j: Judgement) => NativeIds(e, j) != e.oracle(j.text));
    WhereIsSum(e, PythonVsNative, js, (j: Judgement) => PythonIds(e, j) != NativeIds(e, j));
    WhereIsSum(e, SerialVsOracle, js, (j: Judgement) => e.serial(j.text) != e.oracle(j.text));
    assert Get(m, PythonVsOracle) == if Runs(arm, PythonVsOracle) then Some(Where(e, PythonVsOracle, js)) else None;
    assert Get(m, NativeVsOracle) == if Runs(arm, NativeVsOracle) then Some(Where(e, NativeVsOracle, js)) else None;
    assert Get(m, PythonVsNative) == if Runs(arm, PythonVsNative) then Some(Where(e, PythonVsNative, js)) else None;
    assert Get(m, SerialVsOracle) == Some(Where(e, SerialVsOracle, js));
  }

  // The native path's own counters, wherever it ran; where both ran, the plans that differ.
  ghost function PlanDiffers(arm: Arm, e: Encoders, j: Judgement): nat {
    var n, p := e.native(j.text, j.k, j.minChunk), e.python(j.text, j.k, j.minChunk);
    if arm == Both && (n.chunks != p.chunks || n.cuts != p.cuts || n.serialReason != p.serialReason) then 1 else 0
  }

  ghost function NativeReading(e: Encoders, j: Judgement): Encoded { e.native(j.text, j.k, j.minChunk) }

  ghost predicate NativeSums(arm: Arm, e: Encoders, js: seq<Judgement>, c: NativeCounters) {
    && c.chunks == Sum(js, (j: Judgement) => NativeReading(e, j).chunks)
    && c.chunkedDocs == Sum(js, (j: Judgement) => Chunked(NativeReading(e, j)))
    && c.serialFallbacks == Sum(js, (j: Judgement) => FellBack(NativeReading(e, j)))
    && c.planDisagreements == Sum(js, (j: Judgement) => PlanDiffers(arm, e, j))
    && forall reason ::
         Count(c.serialReasons, reason) == Sum(js, (j: Judgement) => GaveReason(NativeReading(e, j), reason))
  }

  lemma NativeOne(arm: Arm, e: Encoders, j: Judgement)
    requires arm != Off
    ensures One(arm, e, j).native.Some?
    ensures var one, r := One(arm, e, j).native.value, NativeReading(e, j);
            && one.chunks == r.chunks && one.chunkedDocs == Chunked(r) && one.serialFallbacks == FellBack(r)
            && one.planDisagreements == PlanDiffers(arm, e, j)
            && forall reason :: Count(one.serialReasons, reason) == GaveReason(r, reason)
  {
  }

  lemma AddNativeCounts(a: Counters, b: Counters)
    requires a.native.Some? && b.native.Some?
    ensures Add(a, b).native.Some?
    ensures var x, y, r := a.native.value, b.native.value, Add(a, b).native.value;
            && r.chunks == x.chunks + y.chunks && r.chunkedDocs == x.chunkedDocs + y.chunkedDocs
            && r.serialFallbacks == x.serialFallbacks + y.serialFallbacks
            && r.planDisagreements == x.planDisagreements + y.planDisagreements
            && forall reason ::
                 Count(r.serialReasons, reason) == Count(x.serialReasons, reason) + Count(y.serialReasons, reason)
  {
  }

  lemma {:induction false} TallyNative(arm: Arm, e: Encoders, js: seq<Judgement>)
    ensures arm == Off ==> Tally(arm, e, js).native.None?
    ensures arm != Off ==> Tally(arm, e, js).native.Some? && NativeSums(arm, e, js, Tally(arm, e, js).native.value)
  {
    hide Add, One, Zero, Chunked, FellBack, GaveReason, PlanDiffers, Count, NativeReading;
    if arm == Off {
      TallyFacts(arm, e, js);
    } else if js == [] {
      NothingNative(arm, e);
    } else {
      var front, j := js[..|js| - 1], js[|js| - 1];
      TallyNative(arm, e, front);
      NativeOne(arm, e, j);
      AddNativeCounts(Tally(arm, e, front), One(arm, e, j));
    }
  }

  lemma NothingNative(arm: Arm, e: Encoders)
    requires arm != Off
    ensures Zero(arm).native.Some? && NativeSums(arm, e, [], Zero(arm).native.value)
  {
    hide Sum, PlanDiffers, Chunked, FellBack, GaveReason, NativeReading;
    SumNothing();
  }
}
