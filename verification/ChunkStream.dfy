/** Judging one unit of the chunk-cut campaign: the document stream and the families' counters. */
module ChunkStream {
  import opened ChunkCounters
  import opened Wrappers

  datatype Encoded = Encoded(
    ids: seq<int>, chunks: nat, cuts: seq<nat>, cutMisses: nat,
    literalRejects: nat, normRejects: nat, serialReason: string)

  // The encoders a family is judged with; their results are taken as given.
  datatype Encoders = Encoders(
    serial: string -> seq<int>, oracle: string -> seq<int>,
    python: (string, nat, nat) -> Encoded, native: (string, nat, nat) -> Encoded)

  datatype Judgement = Judgement(text: string, k: nat, minChunk: nat)

  datatype Column = PythonVsOracle | NativeVsOracle | PythonVsNative | SerialVsOracle

  // --- what one document adds -------------------------------------------------

  function Lead(arm: Arm, e: Encoders, j: Judgement): Encoded {
    if arm.RunsPython() then e.python(j.text, j.k, j.minChunk) else e.native(j.text, j.k, j.minChunk)
  }

  function Bit(b: bool): nat { if b then 1 else 0 }

  function OneReason(reason: string): map<string, nat> { if reason == "" then map[] else map[reason := 1] }

  predicate Differs(e: Encoders, column: Column, j: Judgement) {
    var python, native := e.python(j.text, j.k, j.minChunk).ids, e.native(j.text, j.k, j.minChunk).ids;
    var oracle := e.oracle(j.text);
    match column
    case PythonVsOracle => python != oracle
    case NativeVsOracle => native != oracle
    case PythonVsNative => python != native
    case SerialVsOracle => e.serial(j.text) != oracle
  }

  predicate Runs(arm: Arm, column: Column) {
    match column
    case PythonVsOracle => arm.RunsPython()
    case NativeVsOracle => arm.RunsNative()
    case PythonVsNative => arm.RunsPython() && arm.RunsNative()
    case SerialVsOracle => true
  }

  function OneColumn(arm: Arm, e: Encoders, column: Column, j: Judgement): Option<nat> {
    if Runs(arm, column) then Some(Bit(Differs(e, column, j))) else None
  }

  function OneNative(arm: Arm, e: Encoders, j: Judgement): Option<NativeCounters> {
    if !arm.RunsNative() then None else
      var n, p := e.native(j.text, j.k, j.minChunk), e.python(j.text, j.k, j.minChunk);
      Some(NativeCounters(
             n.chunks, Bit(n.chunks >= 2), Bit(n.serialReason != ""), OneReason(n.serialReason),
             Bit(arm.RunsPython() && (n.chunks, n.cuts, n.serialReason) != (p.chunks, p.cuts, p.serialReason))))
  }

  // The reading of a single document.
  function One(arm: Arm, e: Encoders, j: Judgement): Counters {
    var lead := Lead(arm, e, j);
    Counters(
      1, |j.text|, |lead.ids|, lead.chunks, Bit(lead.chunks >= 2),
      lead.cutMisses, lead.literalRejects, lead.normRejects,
      Bit(lead.serialReason != ""), OneReason(lead.serialReason), OneNative(arm, e, j),
      Mismatches(OneColumn(arm, e, PythonVsOracle, j), OneColumn(arm, e, NativeVsOracle, j),
                 OneColumn(arm, e, PythonVsNative, j), OneColumn(arm, e, SerialVsOracle, j)))
  }

  function ZeroColumn(arm: Arm, column: Column): Option<nat> { if Runs(arm, column) then Some(0) else None }

  function Zero(arm: Arm): Counters {
    EMPTY.(native := if arm.RunsNative() then Some(NO_NATIVE) else None,
           mismatches := Mismatches(ZeroColumn(arm, PythonVsOracle), ZeroColumn(arm, NativeVsOracle),
                                    ZeroColumn(arm, PythonVsNative), ZeroColumn(arm, SerialVsOracle)))
  }

  // The counters of a family that has judged `js`.
  function Tally(arm: Arm, e: Encoders, js: seq<Judgement>): Counters {
    if js == [] then Zero(arm) else Add(Tally(arm, e, js[..|js| - 1]), One(arm, e, js[|js| - 1]))
  }

  ghost function Where(e: Encoders, column: Column, js: seq<Judgement>): nat {
    if js == [] then 0 else Where(e, column, js[..|js| - 1]) + Bit(Differs(e, column, js[|js| - 1]))
  }

  ghost function Get(m: Mismatches, column: Column): Option<nat> {
    match column
    case PythonVsOracle => m.pythonVsOracle
    case NativeVsOracle => m.nativeVsOracle
    case PythonVsNative => m.pythonVsNative
    case SerialVsOracle => m.serialVsOracle
  }

  // Over any run: one document counted for each judged, every column that runs counts exactly the
  // documents on which its two sides differ, the others stay `None`, and the columns are consistent.
  lemma {:induction false} TallyFacts(arm: Arm, e: Encoders, js: seq<Judgement>)
    ensures Tally(arm, e, js).docs == |js|
    ensures forall column :: Get(Tally(arm, e, js).mismatches, column)
                          == if Runs(arm, column) then Some(Where(e, column, js)) else None
    ensures Tally(arm, e, js).native.Some? <==> arm.RunsNative()
    ensures Consistent(Tally(arm, e, js))
  {
    hide Consistent, Add, One, Zero, OneColumn, Differs, Runs, Bit;
    ZeroConsistent(arm);
    if js == [] {
      ZeroRows(arm);
    } else {
      var front, j := js[..|js| - 1], js[|js| - 1];
      TallyFacts(arm, e, front);
      OneConsistent(arm, e, j);
      AddConsistent(Tally(arm, e, front), One(arm, e, j));
      AddRows(arm, e, Tally(arm, e, front), j);
    }
  }

  lemma ZeroRows(arm: Arm)
    ensures Zero(arm).docs == 0 && (Zero(arm).native.Some? <==> arm.RunsNative())
    ensures forall column :: Get(Zero(arm).mismatches, column) == if Runs(arm, column) then Some(0) else None
  {
  }

  // What one more document does to the columns.
  lemma AddRows(arm: Arm, e: Encoders, c: Counters, j: Judgement)
    ensures var r := Add(c, One(arm, e, j));
            && r.docs == c.docs + 1
            && (r.native.Some? <==> c.native.Some? || arm.RunsNative())
            && forall column ::
                 Get(r.mismatches, column) == AddColumn(Get(c.mismatches, column), OneColumn(arm, e, column, j))
    ensures forall column ::
              OneColumn(arm, e, column, j) == if Runs(arm, column) then Some(Bit(Differs(e, column, j))) else None
  {
    hide AddReasons, OneReason, OneColumn, AddNativeCounters, Bit, AddColumn;
    AddRowsColumns(Add(c, One(arm, e, j)).mismatches, c.mismatches, One(arm, e, j).mismatches);
    forall column
      ensures OneColumn(arm, e, column, j) == if Runs(arm, column) then Some(Bit(Differs(e, column, j))) else None
    {
      OneColumnIs(arm, e, column, j);
    }
  }

  lemma OneColumnIs(arm: Arm, e: Encoders, column: Column, j: Judgement)
    ensures OneColumn(arm, e, column, j) == if Runs(arm, column) then Some(Bit(Differs(e, column, j))) else None
  {
  }

  lemma AddRowsColumns(r: Mismatches, a: Mismatches, b: Mismatches)
    requires r == AddMismatches(a, b)
    ensures forall column :: Get(r, column) == AddColumn(Get(a, column), Get(b, column))
  {
  }

  lemma ZeroConsistent(arm: Arm)
    ensures Consistent(Zero(arm))
  {
  }

  lemma OneConsistent(arm: Arm, e: Encoders, j: Judgement)
    ensures Consistent(One(arm, e, j))
  {
  }

  // --- a family ---------------------------------------------------------------

  datatype Finding = Finding(unequal: seq<Column>, k: nat, minChunk: nat, firstDifference: nat, text: string)

  // The two lists agree up to `first`, and not behind it, unless one of them ends there.
  ghost predicate PartAt(shown: seq<int>, oracle: seq<int>, first: nat) {
    && first <= |shown| && first <= |oracle| && shown[..first] == oracle[..first]
    && (first < |shown| && first < |oracle| ==> shown[first] != oracle[first])
  }

  // The first place at which two id lists part.
  method FirstDifference(shown: seq<int>, oracle: seq<int>) returns (first: nat)
    ensures PartAt(shown, oracle, first)
  {
    first := 0;
    while first < |shown| && first < |oracle| && shown[first] == oracle[first]
      invariant first <= |shown| && first <= |oracle| && shown[..first] == oracle[..first]
    {
      first := first + 1;
    }
  }

  lemma AddKeepsColumns(a: Counters, b: Counters, arm: Arm)
    requires ColumnsOf(a, arm) && ColumnsOf(b, arm)
    ensures ColumnsOf(Add(a, b), arm)
  {
    hide AddReasons, AddNativeCounters;
  }

  // Exactly the columns and the native counters of the arm are kept.
  ghost predicate ColumnsOf(c: Counters, arm: Arm) {
    RanColumns(c, arm.RunsPython(), arm.RunsNative(),
               arm.RunsPython() && arm.RunsNative()) && c.mismatches.serialVsOracle.Some?
  }

  lemma ZeroColumns(arm: Arm)
    ensures ColumnsOf(Zero(arm), arm)
  {
    hide Zero;
    ZeroRows(arm);
    var m := Zero(arm).mismatches;
    assert Get(m, PythonVsOracle).Some? <==> Runs(arm, PythonVsOracle);
    assert Get(m, NativeVsOracle).Some? <==> Runs(arm, NativeVsOracle);
    assert Get(m, PythonVsNative).Some? <==> Runs(arm, PythonVsNative);
    assert Get(m, SerialVsOracle).Some? <==> Runs(arm, SerialVsOracle);
  }

  // What each of the three counting steps of a judgement leaves.
  ghost function WithLead(c: Counters, j: Judgement, lead: Encoded): Counters {
    c.(docs := c.docs + 1, chars := c.chars + |j.text|,
       tokens := c.tokens + |lead.ids|, chunks := c.chunks + lead.chunks,
       chunkedDocs := c.chunkedDocs + Bit(lead.chunks >= 2), cutMisses := c.cutMisses + lead.cutMisses,
       literalRejects := c.literalRejects + lead.literalRejects, normRejects := c.normRejects + lead.normRejects,
       serialFallbacks := c.serialFallbacks + Bit(lead.serialReason != ""),
       serialReasons := AddReasons(c.serialReasons, OneReason(lead.serialReason)))
  }

  ghost function WithNative(c: Counters, encoded: Encoded, python: Option<Encoded>): Counters
    requires c.native.Some?
  {
    c.(native := Some(AddNativeCounters(c.native.value, NativeCounters(
         encoded.chunks, Bit(encoded.chunks >= 2), Bit(encoded.serialReason != ""), OneReason(encoded.serialReason),
         Bit(python.Some? && (encoded.chunks, encoded.cuts, encoded.serialReason)
                          != (python.value.chunks, python.value.cuts, python.value.serialReason))))))
  }

  ghost function WithColumns(c: Counters, serial: seq<int>, oracle: seq<int>, python: Option<Encoded>,
                             native: Option<Encoded>): Counters
  {
    c.(mismatches := AddMismatches(c.mismatches, Mismatches(
         if python.Some? then Some(Bit(python.value.ids != oracle)) else None,
         if native.Some? then Some(Bit(native.value.ids != oracle)) else None,
         if python.Some? && native.Some? then Some(Bit(python.value.ids != native.value.ids)) else None,
         Some(Bit(serial != oracle)))))
  }

  lemma WholeStep(arm: Arm, e: Encoders, j: Judgement, c: Counters)
    requires ColumnsOf(c, arm)
    ensures var python := if arm.RunsPython() then Some(e.python(j.text, j.k, j.minChunk)) else None;
            var native := if arm.RunsNative() then Some(e.native(j.text, j.k, j.minChunk)) else None;
            var lead := WithLead(c, j, Lead(arm, e, j));
            && lead.native.Some? == arm.RunsNative()
            && var counted := if native.Some? then WithNative(lead, native.value, python) else lead;
               && ColumnsOf(lead, arm) && ColumnsOf(counted, arm)
               && var now := WithColumns(counted, e.serial(j.text), e.oracle(j.text), python, native);
                  now == Add(c, One(arm, e, j)) && ColumnsOf(now, arm)
  {
    hide AddReasons, AddNativeCounters, AddColumn, OneReason;
    AddKeepsColumns(c, One(arm, e, j), arm);
  }

  // One more occurrence of a reason; the empty one is not counted.
  lemma ReasonAdded(reasons: map<string, nat>, reason: string)
    ensures AddReasons(reasons, OneReason(reason))
         == if reason == "" then reasons else reasons[reason := Count(reasons, reason) + 1]
  {
    var sum := AddReasons(reasons, OneReason(reason));
    if reason == "" {
      assert sum.Keys == reasons.Keys;
      assert sum == reasons;
    } else {
      assert sum == reasons[reason := Count(reasons, reason) + 1];
    }
  }

  class Family {
    const arm: Arm
    const encoders: Encoders
    var counters: Counters

    constructor (arm: Arm, encoders: Encoders)
      ensures this.arm == arm && this.encoders == encoders && counters == Zero(arm)
    {
      this.arm := arm;
      this.encoders := encoders;
      counters := Zero(arm);
    }

    ghost predicate Valid() reads this { ColumnsOf(counters, arm) }

    method Judge(j: Judgement) returns (finding: Option<Finding>)
      requires Valid()
      modifies this
      ensures Valid()
      ensures counters == Add(old(counters), One(arm, encoders, j))
      ensures finding.Some? <==> exists column :: Runs(arm, column) && Differs(encoders, column, j)
      ensures finding.Some? ==>
                && finding.value.text == j.text && finding.value.k == j.k && finding.value.minChunk == j.minChunk
                && PartAt(Lead(arm, encoders, j).ids, encoders.oracle(j.text), finding.value.firstDifference)
                && forall column :: column in finding.value.unequal <==>
                   Runs(arm, column) && Differs(encoders, column, j)
    {
      hide PartAt, Add, One, WithLead, WithNative, WithColumns;
      var serial, oracle := encoders.serial(j.text), encoders.oracle(j.text);
      var python, native: Option<Encoded> := None, None;
      if arm.RunsPython() { python := Some(encoders.python(j.text, j.k, j.minChunk)); }
      if arm.RunsNative() { native := Some(encoders.native(j.text, j.k, j.minChunk)); }
      var lead := if python.Some? then python.value else native.value;
      WholeStep(arm, encoders, j, counters);
      CountLead(j, lead);
      if native.Some? {
        CountNative(native.value, python);
      }
      var unequal := CountMismatches(serial, oracle, python, native);
      forall column
        ensures column in unequal <==> Runs(arm, column) && Differs(encoders, column, j)
      {
        match column case PythonVsOracle => case NativeVsOracle => case PythonVsNative => case SerialVsOracle =>
      }
      if unequal == [] {
        assert forall column :: !(column in unequal);
        return None;
      }
      assert unequal[0] in unequal;
      var first := FirstDifference(lead.ids, oracle);
      finding := Some(Finding(unequal, j.k, j.minChunk, first, j.text));
    }

    method CountLead(j: Judgement, lead: Encoded)
      modifies this
      ensures counters == WithLead(old(counters), j, lead)
    {
      hide AddReasons, OneReason, Count, ColumnsOf;
      ReasonAdded(counters.serialReasons, lead.serialReason);
      counters := counters.(docs := counters.docs + 1);
      counters := counters.(chars := counters.chars + |j.text|);
      counters := counters.(tokens := counters.tokens + |lead.ids|);
      counters := counters.(chunks := counters.chunks + lead.chunks);
      counters := counters.(chunkedDocs := counters.chunkedDocs + if lead.chunks >= 2 then 1 else 0);
      counters := counters.(cutMisses := counters.cutMisses + lead.cutMisses);
      counters := counters.(literalRejects := counters.literalRejects + lead.literalRejects);
      counters := counters.(normRejects := counters.normRejects + lead.normRejects);
      if lead.serialReason != "" {
        var reasons := counters.serialReasons;
        counters := counters.(serialFallbacks := counters.serialFallbacks + 1,
                              serialReasons := reasons[lead.serialReason := Count(reasons, lead.serialReason) + 1]);
      }
    }

    method CountNative(encoded: Encoded, python: Option<Encoded>)
      requires counters.native.Some?
      modifies this
      ensures counters == WithNative(old(counters), encoded, python)
    {
      hide AddReasons, OneReason, Count, ColumnsOf;
      var native := counters.native.value;
      ReasonAdded(native.serialReasons, encoded.serialReason);
      native := native.(chunks := native.chunks + encoded.chunks);
      native := native.(chunkedDocs := native.chunkedDocs + if encoded.chunks >= 2 then 1 else 0);
      if encoded.serialReason != "" {
        var reasons := native.serialReasons;
        native := native.(serialFallbacks := native.serialFallbacks + 1,
                          serialReasons := reasons[encoded.serialReason := Count(reasons, encoded.serialReason) + 1]);
      }
      if python.Some? && (encoded.chunks, encoded.cuts, encoded.serialReason)
                      != (python.value.chunks, python.value.cuts, python.value.serialReason) {
        native := native.(planDisagreements := native.planDisagreements + 1);
      }
      counters := counters.(native := Some(native));
    }

    method CountMismatches(serial: seq<int>, oracle: seq<int>, python: Option<Encoded>, native: Option<Encoded>)
      returns (unequal: seq<Column>)
      requires Valid() && (python.Some? <==> arm.RunsPython()) && (native.Some? <==> arm.RunsNative())
      modifies this
      ensures counters == WithColumns(old(counters), serial, oracle, python, native)
      ensures PythonVsOracle in unequal <==> python.Some? && python.value.ids != oracle
      ensures NativeVsOracle in unequal <==> native.Some? && native.value.ids != oracle
      ensures PythonVsNative in unequal <==> python.Some? && native.Some? && python.value.ids != native.value.ids
      ensures SerialVsOracle in unequal <==> serial != oracle
    {
      var m := counters.mismatches;
      unequal := [];
      if python.Some? && python.value.ids != oracle {
        m := m.(pythonVsOracle := Some(m.pythonVsOracle.value + 1));
        unequal := unequal + [PythonVsOracle];
      }
      if native.Some? && native.value.ids != oracle {
        m := m.(nativeVsOracle := Some(m.nativeVsOracle.value + 1));
        unequal := unequal + [NativeVsOracle];
      }
      if python.Some? && native.Some? && python.value.ids != native.value.ids {
        m := m.(pythonVsNative := Some(m.pythonVsNative.value + 1));
        unequal := unequal + [PythonVsNative];
      }
      if serial != oracle {
        m := m.(serialVsOracle := Some(m.serialVsOracle.value + 1));
        unequal := unequal + [SerialVsOracle];
      }
      counters := counters.(mismatches := m);
    }
  }
}
