/** The counters of the chunk-cut campaign, as a commutative monoid.

  A family's counters grow by one document at a time, and the readings merge the counters of many
  units. Both are the same addition, in which a column that did not run is `None`.
 */
module ChunkCounters {
  import opened Wrappers

  // Which paths a unit judges: the Python path alone, the native path alone, or both.
  datatype Arm = Off | On | Both {
    predicate RunsPython() { this != On }
    predicate RunsNative() { this != Off }
  }

  datatype Mismatches = Mismatches(
    pythonVsOracle: Option<nat>, nativeVsOracle: Option<nat>,
    pythonVsNative: Option<nat>, serialVsOracle: Option<nat>)

  datatype NativeCounters = NativeCounters(
    chunks: nat, chunkedDocs: nat, serialFallbacks: nat, serialReasons: map<string, nat>, planDisagreements: nat)

  datatype Counters = Counters(
    docs: nat, chars: nat, tokens: nat, chunks: nat, chunkedDocs: nat,
    cutMisses: nat, literalRejects: nat, normRejects: nat,
    serialFallbacks: nat, serialReasons: map<string, nat>,
    native: Option<NativeCounters>, mismatches: Mismatches)

  const NO_NATIVE := NativeCounters(0, 0, 0, map[], 0)
  const NO_COLUMNS := Mismatches(None, None, None, None)
  const EMPTY := Counters(0, 0, 0, 0, 0, 0, 0, 0, 0, map[], None, NO_COLUMNS)

  // --- addition ---------------------------------------------------------------

  function Count(m: map<string, nat>, reason: string): nat { if reason in m then m[reason] else 0 }

  function AddReasons(a: map<string, nat>, b: map<string, nat>): map<string, nat> {
    map r | r in a.Keys + b.Keys :: Count(a, r) + Count(b, r)
  }

  function AddColumn(a: Option<nat>, b: Option<nat>): Option<nat> {
    if a.None? then b else if b.None? then a else Some(a.value + b.value)
  }

  function AddMismatches(a: Mismatches, b: Mismatches): Mismatches {
    Mismatches(
      AddColumn(a.pythonVsOracle, b.pythonVsOracle), AddColumn(a.nativeVsOracle, b.nativeVsOracle),
      AddColumn(a.pythonVsNative, b.pythonVsNative), AddColumn(a.serialVsOracle, b.serialVsOracle))
  }

  function AddNativeCounters(a: NativeCounters, b: NativeCounters): NativeCounters {
    NativeCounters(
      a.chunks + b.chunks, a.chunkedDocs + b.chunkedDocs, a.serialFallbacks + b.serialFallbacks,
      AddReasons(a.serialReasons, b.serialReasons), a.planDisagreements + b.planDisagreements)
  }

  function AddNative(a: Option<NativeCounters>, b: Option<NativeCounters>): Option<NativeCounters> {
    if a.None? then b else if b.None? then a else Some(AddNativeCounters(a.value, b.value))
  }

  function Add(a: Counters, b: Counters): Counters {
    Counters(
      a.docs + b.docs, a.chars + b.chars, a.tokens + b.tokens, a.chunks + b.chunks, a.chunkedDocs + b.chunkedDocs,
      a.cutMisses + b.cutMisses, a.literalRejects + b.literalRejects, a.normRejects + b.normRejects,
      a.serialFallbacks + b.serialFallbacks, AddReasons(a.serialReasons, b.serialReasons),
      AddNative(a.native, b.native), AddMismatches(a.mismatches, b.mismatches))
  }

  lemma AddReasonsAt(a: map<string, nat>, b: map<string, nat>, r: string)
    ensures Count(AddReasons(a, b), r) == Count(a, r) + Count(b, r)
    ensures r in AddReasons(a, b) <==> r in a || r in b
  {
  }

  lemma SameReasons(a: map<string, nat>, b: map<string, nat>)
    requires forall r :: Count(a, r) == Count(b, r) && (r in a <==> r in b)
    ensures a == b
  {
    forall r | r in a
      ensures r in b && a[r] == b[r]
    {
      assert Count(a, r) == Count(b, r);
    }
  }

  lemma AddReasonsLaws(a: map<string, nat>, b: map<string, nat>, c: map<string, nat>)
    ensures AddReasons(a, b) == AddReasons(b, a)
    ensures AddReasons(AddReasons(a, b), c) == AddReasons(a, AddReasons(b, c))
  {
    hide AddReasons, Count;
    var left, right := AddReasons(AddReasons(a, b), c), AddReasons(a, AddReasons(b, c));
    forall r
      ensures Count(AddReasons(a, b), r) == Count(AddReasons(b, a), r)
      ensures (r in AddReasons(a, b) <==> r in AddReasons(b, a))
      ensures Count(left, r) == Count(right, r) && (r in left <==> r in right)
    {
      AddReasonsAt(a, b, r);
      AddReasonsAt(b, a, r);
      AddReasonsAt(b, c, r);
      AddReasonsAt(AddReasons(a, b), c, r);
      AddReasonsAt(a, AddReasons(b, c), r);
    }
    SameReasons(AddReasons(a, b), AddReasons(b, a));
    SameReasons(left, right);
  }

  lemma AddNoReasons(a: map<string, nat>)
    ensures AddReasons(a, map[]) == a == AddReasons(map[], a)
  {
  }

  lemma AddNativeLaws(a: Option<NativeCounters>, b: Option<NativeCounters>, c: Option<NativeCounters>)
    ensures AddNative(a, b) == AddNative(b, a)
    ensures AddNative(AddNative(a, b), c) == AddNative(a, AddNative(b, c))
  {
    var e := NO_NATIVE;
    var x, y, z := if a.Some? then a.value else e, if b.Some? then b.value else e, if c.Some? then c.value else e;
    AddReasonsLaws(x.serialReasons, y.serialReasons, z.serialReasons);
  }

  lemma AddLaws(a: Counters, b: Counters, c: Counters)
    ensures Add(a, b) == Add(b, a)
    ensures Add(Add(a, b), c) == Add(a, Add(b, c))
    ensures Add(a, EMPTY) == a == Add(EMPTY, a)
  {
    hide AddReasons, AddNative;
    AddReasonsLaws(a.serialReasons, b.serialReasons, c.serialReasons);
    AddNativeLaws(a.native, b.native, c.native);
    EmptyNative(a.native);
    AddNoReasons(a.serialReasons);
  }

  lemma EmptyNative(a: Option<NativeCounters>)
    ensures AddNative(a, None) == a == AddNative(None, a)
  {
  }

  // --- what every reading keeps -----------------------------------------------

  function Read(column: Option<nat>): nat { if column.None? then 0 else column.value }

  // Two unequal paths cannot both equal the oracle; no column counts more documents than there were.
  ghost predicate Consistent(c: Counters) {
    && Read(c.mismatches.pythonVsNative) <= Read(c.mismatches.pythonVsOracle) + Read(c.mismatches.nativeVsOracle)
    && Read(c.mismatches.pythonVsOracle) <= c.docs
    && Read(c.mismatches.nativeVsOracle) <= c.docs
    && Read(c.mismatches.pythonVsNative) <= c.docs
    && Read(c.mismatches.serialVsOracle) <= c.docs
    && c.chunkedDocs <= c.docs
    && c.serialFallbacks <= c.docs
    && (forall r :: r in c.serialReasons ==> 1 <= c.serialReasons[r] <= c.serialFallbacks)
  }

  lemma AddConsistent(a: Counters, b: Counters)
    requires Consistent(a) && Consistent(b)
    ensures Consistent(Add(a, b))
  {
  }

  // The columns that ran.
  ghost predicate RanColumns(c: Counters, python: bool, native: bool, both: bool) {
    && (c.mismatches.pythonVsOracle.Some? <==> python)
    && (c.mismatches.nativeVsOracle.Some? <==> native)
    && (c.mismatches.pythonVsNative.Some? <==> both)
    && (c.native.Some? <==> native)
  }
}
