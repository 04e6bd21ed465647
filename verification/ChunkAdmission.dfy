/** Deriving the chunked-admission table from the campaign readings. */
module ChunkAdmission {
  import opened ChunkCounters
  import opened Wrappers

  datatype Level = Adversarial | Corpus

  datatype ReadingRow = ReadingRow(
    family: string, artifact: string, normalizer: string, face: Option<string>,
    paths: seq<string>, nativeCounters: bool, mismatches: Mismatches, count: Option<nat>)

  datatype CorpusEntry = CorpusEntry(docs: Option<nat>, chars: Option<nat>)

  datatype Excluded = Excluded(family: string, artifact: string)

  datatype Readings = Readings(
    corpus: seq<ReadingRow>, adversarial: seq<ReadingRow>, excluded: seq<Excluded>, entries: seq<CorpusEntry>)

  datatype Status = Certified | AdversarialOnly | CorpusOnly

  datatype TableRow = TableRow(
    artifact: string, face: Option<string>, normalizer: string, status: Status, paths: seq<string>,
    pythonEvidence: set<Level>, nativeEvidence: set<Level>, corpusDocs: nat, adversarialStrings: nat)

  datatype Derived = Derived(rows: map<string, TableRow>, docs: nat, chars: nat, mismatches: nat)

  datatype Error = OutsideRoster | WrongArtifact | BadNormalizer | BadFace | NormalizerDiffers | FaceDiffers
                 | AppearsTwice | NothingJudged | BadPaths | NativeWithoutCounters | RecordedMismatch
                 | PythonIncomplete | CertifiedWithoutFace | NotRosterArtifact | ExcludedButJudged | BadCorpus

  datatype Result<+T> = Ok(value: T) | Err(error: Error)

  const FACE_LENGTH := 64
  const BOTH: set<Level> := {Adversarial, Corpus}

  // --- what a single row must satisfy -----------------------------------------

  predicate ValidPaths(paths: seq<string>) {
    && paths != []
    && (forall i, j :: 0 <= i < j < |paths| ==> paths[i] != paths[j])
    && (forall i :: 0 <= i < |paths| ==> paths[i] == "python" || paths[i] == "native")
  }

  predicate Clean(m: Mismatches) {
    && Read(m.pythonVsOracle) == 0 && Read(m.nativeVsOracle) == 0
    && Read(m.pythonVsNative) == 0 && Read(m.serialVsOracle) == 0
  }

  predicate PythonComplete(row: ReadingRow) {
    "python" in row.paths && row.mismatches.pythonVsOracle.Some? && row.mismatches.serialVsOracle.Some?
  }

  predicate NativeComplete(row: ReadingRow) {
    "native" in row.paths && row.mismatches.nativeVsOracle.Some? && row.mismatches.pythonVsNative.Some?
  }

  ghost predicate RowOk(roster: map<string, string>, level: Level, row: ReadingRow) {
    && row.family in roster && row.artifact == roster[row.family]
    && (row.normalizer == "none" || row.normalizer == "nfc")
    && (row.face.Some? ==> |row.face.value| == FACE_LENGTH)
    && row.count.Some? && row.count.value > 0
    && ValidPaths(row.paths)
    && (level == Corpus && "native" in row.paths ==> row.nativeCounters)
    && Clean(row.mismatches)
    && PythonComplete(row)
  }

  // The lists of paths a row may record.
  lemma ListsOfPaths(paths: seq<string>)
    ensures ValidPaths(paths) <==> paths in {["python"], ["native"], ["python", "native"], ["native", "python"]}
  {
    assert "python" != "native" by { assert "python"[0] != "native"[0]; }
    if |paths| > 2 {
      var a, b, c := paths[0], paths[1], paths[2];
      assert {a, b, c} <= {"python", "native"} ==> a == b || a == c || b == c;
    } else if |paths| == 2 {
      var a, b := paths[0], paths[1];
      assert paths == [a, b];
    } else if |paths| == 1 {
      assert paths == [paths[0]];
    }
  }

  // A single row in its own fields: it runs the Python path, perhaps with the native one, the oracle
  // and the serial route were compared and never differed, and no other comparison did.
  lemma RowOkMeans(roster: map<string, string>, level: Level, row: ReadingRow)
    ensures RowOk(roster, level, row) <==>
              && row.family in roster && roster[row.family] == row.artifact
              && row.normalizer in {"none", "nfc"} && (row.face.None? || |row.face.value| == 64)
              && row.count.Some? && row.count.value >= 1
              && row.paths in {["python"], ["python", "native"], ["native", "python"]}
              && (level == Adversarial || "native" !in row.paths || row.nativeCounters)
              && row.mismatches.pythonVsOracle == Some(0) && row.mismatches.serialVsOracle == Some(0)
              && row.mismatches.nativeVsOracle in {None, Some(0)} && row.mismatches.pythonVsNative in {None, Some(0)}
  {
    hide ValidPaths;
    ListsOfPaths(row.paths);
    assert "python" != "native" by { assert "python"[0] != "native"[0]; }
    assert "python" !in ["native"];
  }

  // --- the specification, family by family ------------------------------------

  // The row of a family in a list; in an admissible list there is at most one.
  function Find(rows: seq<ReadingRow>, family: string): Option<ReadingRow> {
    if rows == [] then None
    else if rows[|rows| - 1].family == family then Some(rows[|rows| - 1])
    else Find(rows[..|rows| - 1], family)
  }

  ghost predicate OneEach(rows: seq<ReadingRow>) {
    forall i, j :: 0 <= i < j < |rows| ==> rows[i].family != rows[j].family
  }

  // The two levels agree on the normalizer, and on the face when both recorded one.
  predicate Compatible(c: Option<ReadingRow>, a: Option<ReadingRow>) {
    c.Some? && a.Some? ==>
      && c.value.normalizer == a.value.normalizer
      && (c.value.face.Some? && a.value.face.Some? ==> c.value.face == a.value.face)
  }

  function FaceOf(c: Option<ReadingRow>, a: Option<ReadingRow>): Option<string> {
    if c.Some? && c.value.face.Some? then c.value.face else if a.Some? then a.value.face else None
  }

  // Every row is in order, no family appears twice in a list, and the two lists do not contradict.
  ghost predicate ListsOk(roster: map<string, string>, corpus: seq<ReadingRow>, adversarial: seq<ReadingRow>) {
    && (forall i :: 0 <= i < |corpus| ==> RowOk(roster, Corpus, corpus[i]))
    && (forall i :: 0 <= i < |adversarial| ==> RowOk(roster, Adversarial, adversarial[i]))
    && OneEach(corpus) && OneEach(adversarial)
    && (forall f :: Compatible(Find(corpus, f), Find(adversarial, f)))
  }

  ghost predicate Admissible(roster: map<string, string>, r: Readings) {
    && ListsOk(roster, r.corpus, r.adversarial)
    && (forall f :: Find(r.corpus, f).Some? && Find(r.adversarial, f).Some? ==>
          FaceOf(Find(r.corpus, f), Find(r.adversarial, f)).Some?)
    && (forall i :: 0 <= i < |r.excluded| ==> ExcludedOk(roster, r, r.excluded[i]))
    && r.entries != [] && forall i :: 0 <= i < |r.entries| ==> r.entries[i].docs.Some? && r.entries[i].chars.Some?
  }

  ghost predicate ExcludedOk(roster: map<string, string>, r: Readings, e: Excluded) {
    && e.family in roster && e.artifact == roster[e.family]
    && Find(r.corpus, e.family).None? && Find(r.adversarial, e.family).None?
  }

  // The table row of a family, from its corpus row and its adversarial row.
  ghost predicate RowFor(c: Option<ReadingRow>, a: Option<ReadingRow>, row: TableRow) {
    && (c.Some? || a.Some?)
    && (c.Some? ==>
          && row.artifact == c.value.artifact && row.normalizer == c.value.normalizer
          && Some(row.corpusDocs) == c.value.count)
    && (a.Some? ==>
          && row.artifact == a.value.artifact && row.normalizer == a.value.normalizer
          && Some(row.adversarialStrings) == a.value.count)
    && (c.None? ==> row.corpusDocs == 0) && (a.None? ==> row.adversarialStrings == 0)
    && row.face == FaceOf(c, a)
    && (Corpus in row.pythonEvidence <==> c.Some?) && (Adversarial in row.pythonEvidence <==> a.Some?)
    && (Corpus in row.nativeEvidence <==> c.Some? && NativeComplete(c.value))
    && (Adversarial in row.nativeEvidence <==> a.Some? && NativeComplete(a.value))
    && (row.status == Certified <==> c.Some? && a.Some?)
    && (row.status == AdversarialOnly <==> c.None?)
    && row.paths == (if row.status != Certified then []
                     else if NativeComplete(c.value) && NativeComplete(a.value) then ["python", "native"]
                     else ["python"])
  }

  ghost predicate TableFor(r: Readings, rows: map<string, TableRow>) {
    && (forall f :: f in rows <==> Find(r.corpus, f).Some? || Find(r.adversarial, f).Some?)
    && (forall f :: f in rows ==> RowFor(Find(r.corpus, f), Find(r.adversarial, f), rows[f]))
  }

  // --- facts about the lookup -------------------------------------------------

  lemma {:induction false} FindFacts(rows: seq<ReadingRow>, family: string)
    ensures Find(rows, family).None? <==> forall i :: 0 <= i < |rows| ==> rows[i].family != family
    ensures Find(rows, family).Some? ==> Find(rows, family).value in rows && Find(rows, family).value.family == family
  {
    if rows != [] {
      FindFacts(rows[..|rows| - 1], family);
      assert rows == rows[..|rows| - 1] + [rows[|rows| - 1]];
    }
  }

  lemma FindIsTheRow(rows: seq<ReadingRow>, i: nat)
    requires OneEach(rows) && i < |rows|
    ensures Find(rows, rows[i].family) == Some(rows[i])
  {
    FindFacts(rows, rows[i].family);
    var found := Find(rows, rows[i].family).value;
    var j :| 0 <= j < |rows| && rows[j] == found;
  }

  lemma FindSnoc(rows: seq<ReadingRow>, row: ReadingRow, family: string)
    ensures Find(rows + [row], family) == if row.family == family then Some(row) else Find(rows, family)
  {
    assert (rows + [row])[..|rows + [row]| - 1] == rows;
  }

  // --- derive -----------------------------------------------------------------

  datatype Known = Known(
    artifact: string, face: Option<string>, normalizer: string, corpusDocs: nat, adversarialStrings: nat)

  datatype Levels = Levels(python: set<Level>, native: set<Level>)

  datatype State = State(facts: map<string, Known>, levels: map<string, Levels>, mismatches: nat)

  // What is known of a family once the rows `c` and `a` have been taken.
  ghost predicate KnownFrom(c: Option<ReadingRow>, a: Option<ReadingRow>, k: Known, l: Levels) {
    && (c.Some? || a.Some?)
    && (c.Some? ==>
          && k.artifact == c.value.artifact && k.normalizer == c.value.normalizer
          && Some(k.corpusDocs) == c.value.count)
    && (a.Some? ==>
          && k.artifact == a.value.artifact && k.normalizer == a.value.normalizer
          && Some(k.adversarialStrings) == a.value.count)
    && (c.None? ==> k.corpusDocs == 0) && (a.None? ==> k.adversarialStrings == 0)
    && k.face == FaceOf(c, a)
    && (Corpus in l.python <==> c.Some?) && (Adversarial in l.python <==> a.Some?)
    && (Corpus in l.native <==> c.Some? && NativeComplete(c.value))
    && (Adversarial in l.native <==> a.Some? && NativeComplete(a.value))
  }

  ghost predicate Taken(roster: map<string, string>, corpus: seq<ReadingRow>, adversarial: seq<ReadingRow>, s: State) {
    && ListsOk(roster, corpus, adversarial)
    && s.mismatches == 0
    && s.facts.Keys == s.levels.Keys
    && (forall f :: f in s.facts <==> Find(corpus, f).Some? || Find(adversarial, f).Some?)
    && (forall f :: f in s.facts ==> KnownFrom(Find(corpus, f), Find(adversarial, f), s.facts[f], s.levels[f]))
  }

  // `_family_row` and `_face`
  function RowProblem(roster: map<string, string>, row: ReadingRow): Option<Error> {
    if row.family !in roster then Some(OutsideRoster)
    else if row.artifact != roster[row.family] then Some(WrongArtifact)
    else if row.normalizer != "none" && row.normalizer != "nfc" then Some(BadNormalizer)
    else if row.face.Some? && |row.face.value| != FACE_LENGTH then Some(BadFace)
    else None
  }

  // `enroll`
  method Enroll(s: State, row: ReadingRow) returns (r: Result<State>)
    requires s.facts.Keys == s.levels.Keys
    ensures row.family !in s.facts ==>
              r == Ok(s.(facts := s.facts[row.family := Known(row.artifact, row.face, row.normalizer, 0, 0)],
                         levels := s.levels[row.family := Levels({}, {})]))
    ensures row.family in s.facts ==>
              var known := s.facts[row.family];
              && (r.Ok? <==> known.normalizer == row.normalizer
                             && (row.face.Some? && known.face.Some? ==> known.face == row.face))
              && (r.Ok? ==>
                    r.value == s.(facts := s.facts[
                      row.family := known.(face := if known.face.Some? then known.face else row.face)]))
  {
    if row.family !in s.facts {
      var known := Known(row.artifact, row.face, row.normalizer, 0, 0);
      return Ok(s.(facts := s.facts[row.family := known], levels := s.levels[row.family := Levels({}, {})]));
    }
    var known := s.facts[row.family];
    if known.normalizer != row.normalizer {
      return Err(NormalizerDiffers);
    }
    if row.face.Some? && known.face.Some? && known.face != row.face {
      return Err(FaceDiffers);
    }
    if known.face.None? {
      known := known.(face := row.face);
    }
    r := Ok(s.(facts := s.facts[row.family := known]));
  }

  // A row is evidence for the Python path, and for the native path when it is complete there.
  function JudgedLevels(l: Levels, row: ReadingRow, level: Level): Levels {
    Levels(l.python + {level}, if NativeComplete(row) then l.native + {level} else l.native)
  }

  // `judged`
  method Judged(s: State, row: ReadingRow, level: Level) returns (r: Result<State>)
    requires row.family in s.levels && ValidPaths(row.paths)
    ensures r.Ok? <==> Clean(row.mismatches) && PythonComplete(row)
    ensures r.Ok? ==>
              r.value == s.(levels := s.levels[row.family := JudgedLevels(s.levels[row.family], row, level)])
  {
    if !Clean(row.mismatches) {
      return Err(RecordedMismatch);
    }
    if !PythonComplete(row) {
      return Err(PythonIncomplete);
    }
    var l := s.levels[row.family];
    l := l.(python := l.python + {level});
    if NativeComplete(row) {
      l := l.(native := l.native + {level});
    }
    assert l == JudgedLevels(s.levels[row.family], row, level);
    r := Ok(s.(levels := s.levels[row.family := l]));
  }

  function Total(m: Mismatches): nat {
    Read(m.pythonVsOracle) + Read(m.nativeVsOracle) + Read(m.pythonVsNative) + Read(m.serialVsOracle)
  }

  // The two lists after one more row of the given level.
  function WithCorpus(corpus: seq<ReadingRow>, level: Level, row: ReadingRow): seq<ReadingRow> {
    if level == Corpus then corpus + [row] else corpus
  }

  function WithAdversarial(adversarial: seq<ReadingRow>, level: Level, row: ReadingRow): seq<ReadingRow> {
    if level == Adversarial then adversarial + [row] else adversarial
  }

  function ListOf(corpus: seq<ReadingRow>, adversarial: seq<ReadingRow>, level: Level): seq<ReadingRow> {
    if level == Corpus then corpus else adversarial
  }

  ghost predicate MayJoin(corpus: seq<ReadingRow>, adversarial: seq<ReadingRow>, level: Level, row: ReadingRow) {
    && Find(ListOf(corpus, adversarial, level), row.family).None?
    && Compatible(if level == Corpus then Some(row) else Find(corpus, row.family),
                  if level == Corpus then Find(adversarial, row.family) else Some(row))
  }

  function CountAt(known: Known, level: Level): nat {
    if level == Corpus then known.corpusDocs else known.adversarialStrings
  }

  function SetCount(known: Known, level: Level, count: nat): Known {
    if level == Corpus then known.(corpusDocs := count) else known.(adversarialStrings := count)
  }

  // The body of the two loops of `derive`.
  method TakeRow(roster: map<string, string>, s: State, row: ReadingRow, level: Level,
                 ghost corpus: seq<ReadingRow>, ghost adversarial: seq<ReadingRow>)
    returns (r: Result<State>)
    requires Taken(roster, corpus, adversarial, s)
    ensures r.Ok? <==> RowOk(roster, level, row) && MayJoin(corpus, adversarial, level, row)
    ensures r.Ok? ==> Taken(roster, WithCorpus(corpus, level, row), WithAdversarial(adversarial, level, row), r.value)
  {
    hide Taken, Find, OneEach, ValidPaths, MayJoin, KnownFrom, CountAt, SetCount, Clean, PythonComplete, NativeComplete,
         Total, WithCorpus, WithAdversarial;
    TakenAt(roster, corpus, adversarial, s, row.family);
    JoinsExactly(roster, corpus, adversarial, s, row, level);
    var problem := RowProblem(roster, row);
    if problem.Some? { return Err(problem.value); }
    var enrolled := Enroll(s, row);
    if enrolled.Err? { return enrolled; }
    var now := enrolled.value;
    EnrolledCount(s, row, level);
    if CountAt(now.facts[row.family], level) != 0 { return Err(AppearsTwice); }
    if row.count.None? || row.count.value == 0 { return Err(NothingJudged); }
    if !ValidPaths(row.paths) { return Err(BadPaths); }
    if level == Corpus && "native" in row.paths && !row.nativeCounters { return Err(NativeWithoutCounters); }
    var judged := Judged(now, row, level);
    if judged.Err? { return judged; }
    now := judged.value;
    now := now.(mismatches := now.mismatches + Total(row.mismatches),
                facts := now.facts[row.family := SetCount(now.facts[row.family], level, row.count.value)]);
    CleanTotal(row.mismatches);
    TakenNext(roster, corpus, adversarial, s, row, level, now);
    r := Ok(now);
  }

  lemma CleanTotal(m: Mismatches)
    requires Clean(m)
    ensures Total(m) == 0
  {
  }

  // What is known of the row's family once the row is enrolled, and at which levels.
  function KnownWith(s: State, row: ReadingRow): Known {
    if row.family !in s.facts then Known(row.artifact, row.face, row.normalizer, 0, 0)
    else
      var known := s.facts[row.family];
      known.(face := if known.face.Some? then known.face else row.face)
  }

  function LevelsWith(s: State, row: ReadingRow): Levels {
    if row.family !in s.levels then Levels({}, {}) else s.levels[row.family]
  }

  predicate Joins(s: State, row: ReadingRow) {
    row.family in s.facts ==>
      var known := s.facts[row.family];
      && known.normalizer == row.normalizer
      && (row.face.Some? && known.face.Some? ==> known.face == row.face)
  }

  lemma EnrolledCount(s: State, row: ReadingRow, level: Level)
    ensures CountAt(KnownWith(s, row), level)
         == if row.family in s.facts then CountAt(s.facts[row.family], level) else 0
  {
  }

  // A row may join exactly when enrolling does not fail and nothing is counted at its level yet.
  lemma JoinsExactly(roster: map<string, string>, corpus: seq<ReadingRow>, adversarial: seq<ReadingRow>, s: State,
                     row: ReadingRow, level: Level)
    requires Taken(roster, corpus, adversarial, s)
    ensures MayJoin(corpus, adversarial, level, row) <==>
              Joins(s, row) && (row.family in s.facts ==> CountAt(s.facts[row.family], level) == 0)
  {
    hide Taken, Find, ValidPaths, Clean, PythonComplete, NativeComplete;
    TakenAt(roster, corpus, adversarial, s, row.family);
  }

  lemma RowKnown(roster: map<string, string>, corpus: seq<ReadingRow>, adversarial: seq<ReadingRow>, s: State,
                 row: ReadingRow, level: Level)
    requires Taken(roster, corpus, adversarial, s) && RowOk(roster, level, row)
    requires MayJoin(corpus, adversarial, level, row)
    ensures KnownFrom(if level == Corpus then Some(row) else Find(corpus, row.family),
                      if level == Corpus then Find(adversarial, row.family) else Some(row),
                      SetCount(KnownWith(s, row), level, row.count.value),
                      JudgedLevels(LevelsWith(s, row), row, level))
  {
    hide Taken, Find, ValidPaths, Clean, PythonComplete, NativeComplete;
    TakenAt(roster, corpus, adversarial, s, row.family);
  }

  lemma TakenAt(roster: map<string, string>, corpus: seq<ReadingRow>, adversarial: seq<ReadingRow>, s: State,
                family: string)
    requires Taken(roster, corpus, adversarial, s)
    ensures s.facts.Keys == s.levels.Keys && s.mismatches == 0
    ensures var c, a := Find(corpus, family), Find(adversarial, family);
            && (family in s.facts <==> c.Some? || a.Some?)
            && (family in s.facts ==> KnownFrom(c, a, s.facts[family], s.levels[family]))
            && (c.Some? ==> RowOk(roster, Corpus, c.value) && c.value.family == family)
            && (a.Some? ==> RowOk(roster, Adversarial, a.value) && a.value.family == family)
  {
    FindFacts(corpus, family);
    FindFacts(adversarial, family);
  }

  // Where a family is found once the row is taken.
  lemma FindWith(corpus: seq<ReadingRow>, adversarial: seq<ReadingRow>, row: ReadingRow, level: Level, f: string)
    ensures Find(WithCorpus(corpus, level, row), f)
         == if level == Corpus && f == row.family then Some(row) else Find(corpus, f)
    ensures Find(WithAdversarial(adversarial, level, row), f)
         == if level == Adversarial && f == row.family then Some(row) else Find(adversarial, f)
  {
    hide Find;
    FindSnoc(corpus, row, f);
    FindSnoc(adversarial, row, f);
  }

  lemma ListsNext(roster: map<string, string>, corpus: seq<ReadingRow>, adversarial: seq<ReadingRow>,
                  row: ReadingRow, level: Level)
    requires ListsOk(roster, corpus, adversarial) && RowOk(roster, level, row)
    requires MayJoin(corpus, adversarial, level, row)
    ensures ListsOk(roster, WithCorpus(corpus, level, row), WithAdversarial(adversarial, level, row))
  {
    hide Find, RowOk, Compatible;
    var c', a' := WithCorpus(corpus, level, row), WithAdversarial(adversarial, level, row);
    FindFacts(ListOf(corpus, adversarial, level), row.family);
    forall f
      ensures Compatible(Find(c', f), Find(a', f))
    {
      FindWith(corpus, adversarial, row, level, f);
    }
  }

  // Taking the row changes its own family and nothing else.
  lemma TakenNext(roster: map<string, string>, corpus: seq<ReadingRow>, adversarial: seq<ReadingRow>, s: State,
                  row: ReadingRow, level: Level, now: State)
    requires Taken(roster, corpus, adversarial, s) && RowOk(roster, level, row)
    requires MayJoin(corpus, adversarial, level, row)
    requires now.mismatches == 0 && s.facts.Keys == s.levels.Keys
    requires now.facts == s.facts[row.family := SetCount(KnownWith(s, row), level, row.count.value)]
    requires now.levels == s.levels[row.family := JudgedLevels(LevelsWith(s, row), row, level)]
    ensures Taken(roster, WithCorpus(corpus, level, row), WithAdversarial(adversarial, level, row), now)
  {
    hide Find, RowOk, KnownFrom, MayJoin, ListsOk, WithCorpus, WithAdversarial, KnownWith, LevelsWith, SetCount,
         JudgedLevels;
    RowKnown(roster, corpus, adversarial, s, row, level);
    ListsNext(roster, corpus, adversarial, row, level);
    forall f
      ensures f in now.facts <==> Find(WithCorpus(corpus, level, row), f).Some?
                                  || Find(WithAdversarial(adversarial, level, row), f).Some?
      ensures f in now.facts ==> KnownFrom(Find(WithCorpus(corpus, level, row), f),
                                           Find(WithAdversarial(adversarial, level, row), f),
                                           now.facts[f], now.levels[f])
    {
      FindWith(corpus, adversarial, row, level, f);
    }
  }

  method TakeAll(roster: map<string, string>, s: State, rows: seq<ReadingRow>, level: Level,
                 ghost corpus: seq<ReadingRow>)
    returns (r: Result<State>)
    requires level == Corpus ==> corpus == []
    requires Taken(roster, corpus, [], s)
    ensures var c, a := if level == Corpus then rows else corpus, if level == Corpus then [] else rows;
            (r.Ok? <==> ListsOk(roster, c, a)) && (r.Ok? ==> Taken(roster, c, a, r.value))
  {
    hide RowOk, MayJoin, OneEach, Find, Compatible, KnownFrom;
    var now := s;
    for k := 0 to |rows|
      invariant Taken(roster, if level == Corpus then rows[..k] else corpus,
                      if level == Corpus then [] else rows[..k], now)
    {
      ghost var c, a := if level == Corpus then rows[..k] else corpus, if level == Corpus then [] else rows[..k];
      assert rows[..k + 1] == rows[..k] + [rows[k]];
      var step := TakeRow(roster, now, rows[k], level, c, a);
      if step.Err? {
        Refused(roster, corpus, rows, k, level);
        return step;
      }
      now := step.value;
    }
    assert rows[..|rows|] == rows;
    r := Ok(now);
  }

  // A refused row refuses every list that continues from it.
  lemma Refused(roster: map<string, string>, corpus: seq<ReadingRow>, rows: seq<ReadingRow>, k: nat, level: Level)
    requires level == Corpus ==> corpus == []
    requires k < |rows|
    requires var c, a := if level == Corpus then rows[..k] else corpus, if level == Corpus then [] else rows[..k];
             !(RowOk(roster, level, rows[k]) && MayJoin(c, a, level, rows[k]))
    ensures !ListsOk(roster, if level == Corpus then rows else corpus, if level == Corpus then [] else rows)
  {
    hide RowOk, Find, Compatible;
    var row := rows[k];
    if OneEach(rows) {
      FindFacts(rows[..k], row.family);
      FindIsTheRow(rows, k);
      assert Find([], row.family).None? by { FindFacts([], row.family); }
    }
  }

  // --- the rows of the table --------------------------------------------------

  function StatusOf(l: Levels): Status {
    if l.python == BOTH then Certified else if l.python == {Adversarial} then AdversarialOnly else CorpusOnly
  }

  function MakeRow(k: Known, l: Levels): TableRow {
    var status := StatusOf(l);
    TableRow(k.artifact, k.face, k.normalizer, status,
             if status != Certified then [] else if l.native == BOTH then ["python", "native"] else ["python"],
             l.python, l.native, k.corpusDocs, k.adversarialStrings)
  }

  lemma LevelSets(s: set<Level>)
    ensures s == BOTH <==> Adversarial in s && Corpus in s
    ensures s == {Adversarial} <==> Adversarial in s && Corpus !in s
  {
    forall x | x in s
      ensures x in BOTH
    {
      match x case Adversarial => case Corpus =>
    }
  }

  lemma MakeRowMeets(c: Option<ReadingRow>, a: Option<ReadingRow>, k: Known, l: Levels)
    requires KnownFrom(c, a, k, l)
    ensures RowFor(c, a, MakeRow(k, l))
    ensures StatusOf(l) == Certified <==> c.Some? && a.Some?
  {
    LevelSets(l.python);
    LevelSets(l.native);
  }

  method MakeRows(s: State, families: seq<string>) returns (r: Result<map<string, TableRow>>)
    requires s.facts.Keys == s.levels.Keys && forall f :: f in families <==> f in s.facts
    ensures r.Ok? <==> forall f :: f in s.facts && StatusOf(s.levels[f]) == Certified ==> s.facts[f].face.Some?
    ensures r.Ok? ==> r.value.Keys == s.facts.Keys && forall f :: f in s.facts ==>
              r.value[f] == MakeRow(s.facts[f], s.levels[f])
  {
    hide MakeRow, StatusOf;
    var rows: map<string, TableRow> := map[];
    for i := 0 to |families|
      invariant forall f :: f in rows <==> f in families[..i]
      invariant forall f :: f in rows ==> rows[f] == MakeRow(s.facts[f], s.levels[f])
      invariant forall f :: f in rows && StatusOf(s.levels[f]) == Certified ==> s.facts[f].face.Some?
    {
      var f := families[i];
      assert families[..i + 1] == families[..i] + [f];
      if StatusOf(s.levels[f]) == Certified && s.facts[f].face.None? {
        return Err(CertifiedWithoutFace);
      }
      rows := rows[f := MakeRow(s.facts[f], s.levels[f])];
    }
    assert families[..|families|] == families;
    r := Ok(rows);
  }

  method CheckExcluded(roster: map<string, string>, rows: map<string, TableRow>,
                       excluded: seq<Excluded>) returns (problem: Option<Error>)
    ensures problem.None? <==> forall i :: 0 <= i < |excluded| ==>
              excluded[i].family in roster && excluded[i].artifact == roster[excluded[i].family]
                  && excluded[i].family !in rows
  {
    for i := 0 to |excluded|
      invariant forall j :: 0 <= j < i ==>
                  excluded[j].family in roster && excluded[j].artifact == roster[excluded[j].family]
                      && excluded[j].family !in rows
    {
      if excluded[i].family !in roster || excluded[i].artifact != roster[excluded[i].family] {
        return Some(NotRosterArtifact);
      }
      if excluded[i].family in rows { return Some(ExcludedButJudged); }
    }
    problem := None;
  }

  function DocsTotal(entries: seq<CorpusEntry>): nat {
    if entries == [] then 0 else DocsTotal(entries[..|entries| - 1]) + Read(entries[|entries| - 1].docs)
  }

  function CharsTotal(entries: seq<CorpusEntry>): nat {
    if entries == [] then 0 else CharsTotal(entries[..|entries| - 1]) + Read(entries[|entries| - 1].chars)
  }

  method Totals(entries: seq<CorpusEntry>) returns (r: Result<(nat, nat)>)
    ensures r.Ok? <==> entries != [] && forall i :: 0 <= i < |entries| ==>
              entries[i].docs.Some? && entries[i].chars.Some?
    ensures r.Ok? ==> r.value == (DocsTotal(entries), CharsTotal(entries))
  {
    var docs, chars := 0, 0;
    for i := 0 to |entries|
      invariant forall j :: 0 <= j < i ==> entries[j].docs.Some? && entries[j].chars.Some?
      invariant docs == DocsTotal(entries[..i]) && chars == CharsTotal(entries[..i])
    {
      assert entries[..i + 1][..i] == entries[..i];
      if entries[i].docs.None? || entries[i].chars.None? { return Err(BadCorpus); }
      docs := docs + entries[i].docs.value;
      chars := chars + entries[i].chars.value;
    }
    assert entries[..|entries|] == entries;
    if entries == [] { return Err(BadCorpus); }
    r := Ok((docs, chars));
  }

  // The families in the order their first rows come.
  function Families(rows: seq<ReadingRow>): (r: seq<string>)
    ensures forall f :: f in r <==> Find(rows, f).Some?
  {
    if rows == [] then []
    else
      var front := Families(rows[..|rows| - 1]);
      if rows[|rows| - 1].family in front then front else front + [rows[|rows| - 1].family]
  }

  lemma {:induction false} FindAppend(a: seq<ReadingRow>, b: seq<ReadingRow>, f: string)
    ensures Find(a + b, f).Some? <==> Find(a, f).Some? || Find(b, f).Some?
  {
    FindFacts(a, f);
    FindFacts(b, f);
    FindFacts(a + b, f);
    if Find(a, f).Some? { assert Find(a, f).value in a + b; }
    if Find(b, f).Some? { assert Find(b, f).value in a + b; }
  }

  lemma NothingTaken(roster: map<string, string>)
    ensures Taken(roster, [], [], State(map[], map[], 0))
  {
  }

  lemma CorpusAlone(roster: map<string, string>, corpus: seq<ReadingRow>, adversarial: seq<ReadingRow>)
    requires ListsOk(roster, corpus, adversarial)
    ensures ListsOk(roster, corpus, [])
  {
  }

  lemma TakenIsTable(roster: map<string, string>, corpus: seq<ReadingRow>, adversarial: seq<ReadingRow>, s: State)
    requires Taken(roster, corpus, adversarial, s)
    ensures s.facts.Keys == s.levels.Keys && s.mismatches == 0
    ensures forall f :: f in s.facts <==> Find(corpus, f).Some? || Find(adversarial, f).Some?
    ensures forall f :: f in s.facts ==>
              var c, a := Find(corpus, f), Find(adversarial, f);
              && RowFor(c, a, MakeRow(s.facts[f], s.levels[f]))
              && (StatusOf(s.levels[f]) == Certified <==> c.Some? && a.Some?)
              && s.facts[f].face == FaceOf(c, a)
  {
    hide Find, RowFor, MakeRow, StatusOf, ListsOk, FaceOf;
    forall f | f in s.facts
      ensures RowFor(Find(corpus, f), Find(adversarial, f), MakeRow(s.facts[f], s.levels[f]))
      ensures StatusOf(s.levels[f]) == Certified <==> Find(corpus, f).Some? && Find(adversarial, f).Some?
    {
      MakeRowMeets(Find(corpus, f), Find(adversarial, f), s.facts[f], s.levels[f]);
    }
  }

  // `derive` succeeds exactly on admissible readings; then every family's row is the one the
  // specification gives it, and no mismatch was recorded anywhere. `order` is the order in which
  // the dictionary of facts is walked.
  method Derive(roster: map<string, string>, readings: Readings) returns (r: Result<Derived>)
    ensures r.Ok? <==> Admissible(roster, readings)
    ensures r.Ok? ==> TableFor(readings, r.value.rows) && r.value.mismatches == 0
    ensures r.Ok? ==> r.value.docs == DocsTotal(readings.entries) && r.value.chars == CharsTotal(readings.entries)
  {
    hide Taken, ListsOk, RowFor, Find, MakeRow, StatusOf, FaceOf;
    var s := State(map[], map[], 0);
    NothingTaken(roster);
    var first := TakeAll(roster, s, readings.corpus, Corpus, []);
    if first.Err? {
      if ListsOk(roster, readings.corpus, readings.adversarial) {
        CorpusAlone(roster, readings.corpus, readings.adversarial);
      }
      return Err(first.error);
    }
    var second := TakeAll(roster, first.value, readings.adversarial, Adversarial, readings.corpus);
    if second.Err? {
      return Err(second.error);
    }
    s := second.value;
    TakenIsTable(roster, readings.corpus, readings.adversarial, s);
    var order := Families(readings.corpus + readings.adversarial);
    forall f
      ensures f in order <==> f in s.facts
    {
      FindAppend(readings.corpus, readings.adversarial, f);
    }
    var rows := MakeRows(s, order);
    if rows.Err? { return Err(rows.error); }
    var problem := CheckExcluded(roster, rows.value, readings.excluded);
    if problem.Some? { return Err(problem.value); }
    var totals := Totals(readings.entries);
    if totals.Err? { return Err(totals.error); }
    r := Ok(Derived(rows.value, totals.value.0, totals.value.1, s.mismatches));
  }

  // --- what the table says ----------------------------------------------------

  // A certified row was judged on both levels and always carries a loader face. It lists the native
  // path exactly when both levels ran it and compared it with the oracle and with the Python path;
  // one level's native evidence is that level's own reading, and no row lacks the Python one.
  lemma CertifiedMeans(roster: map<string, string>, readings: Readings, rows: map<string, TableRow>, f: string)
    requires Admissible(roster, readings) && TableFor(readings, rows) && f in rows
    ensures var c, a := Find(readings.corpus, f), Find(readings.adversarial, f);
            && (rows[f].status == Certified <==> c.Some? && a.Some?)
            && ("python" in rows[f].paths <==> rows[f].status == Certified)
            && ("native" in rows[f].paths <==>
                  c.Some? && a.Some?
                  && "native" in c.value.paths && "native" in a.value.paths
                  && c.value.mismatches.nativeVsOracle.Some? && c.value.mismatches.pythonVsNative.Some?
                  && a.value.mismatches.nativeVsOracle.Some? && a.value.mismatches.pythonVsNative.Some?)
            && (Corpus in rows[f].nativeEvidence <==>
                  c.Some? && "native" in c.value.paths
                  && c.value.mismatches.nativeVsOracle.Some? && c.value.mismatches.pythonVsNative.Some?)
            && (Adversarial in rows[f].nativeEvidence <==>
                  a.Some? && "native" in a.value.paths
                  && a.value.mismatches.nativeVsOracle.Some? && a.value.mismatches.pythonVsNative.Some?)
            && (c.Some? ==>
                  && "python" in c.value.paths && rows[f].corpusDocs > 0
                  && c.value.mismatches.pythonVsOracle == c.value.mismatches.serialVsOracle == Some(0))
            && (a.Some? ==>
                  && "python" in a.value.paths && rows[f].adversarialStrings > 0
                  && a.value.mismatches.pythonVsOracle == a.value.mismatches.serialVsOracle == Some(0))
            && (forall path :: path in rows[f].paths ==> path == "python" || path == "native")
            && (rows[f].status == Certified ==> rows[f].face.Some? && rows[f].pythonEvidence == BOTH)
            && f in roster && rows[f].artifact == roster[f]
  {
    hide Compatible, OneEach, ValidPaths, ExcludedOk, Find;
    LevelSets(rows[f].pythonEvidence);
    LevelSets(rows[f].nativeEvidence);
    FindFacts(readings.corpus, f);
    FindFacts(readings.adversarial, f);
  }

  lemma FindOrder(a: seq<ReadingRow>, b: seq<ReadingRow>, f: string)
    requires multiset(a) == multiset(b) && OneEach(a)
    ensures OneEach(b)
    ensures Find(a, f) == Find(b, f)
  {
    hide Find;
    OneEachOrder(a, b);
    FindFacts(a, f);
    FindFacts(b, f);
    if Find(a, f).Some? {
      var x := Find(a, f).value;
      assert x in multiset(b);
      var i :| 0 <= i < |b| && b[i] == x;
      FindIsTheRow(b, i);
    } else {
      forall i | 0 <= i < |b|
        ensures b[i].family != f
      {
        var x := b[i];
        assert x in multiset(a);
      }
    }
  }

  lemma OneEachOrder(a: seq<ReadingRow>, b: seq<ReadingRow>)
    requires multiset(a) == multiset(b) && OneEach(a)
    ensures OneEach(b)
  {
    forall i, j | 0 <= i < j < |b|
      ensures b[i].family != b[j].family
    {
      var x, y := b[i], b[j];
      assert x in multiset(a) && y in multiset(a);
      var p :| 0 <= p < |a| && a[p] == x;
      var q :| 0 <= q < |a| && a[q] == y;
      if p == q {
        Twice(b, i, j);
        AtMostOnce(a, p);
      }
    }
  }

  lemma Twice(b: seq<ReadingRow>, i: nat, j: nat)
    requires i < j < |b| && b[i] == b[j]
    ensures multiset(b)[b[i]] >= 2
  {
    assert b == b[..j] + [b[j]] + b[j + 1..];
    assert b[i] in b[..j];
    assert multiset(b) == multiset(b[..j]) + multiset{b[j]} + multiset(b[j + 1..]);
  }

  lemma AtMostOnce(a: seq<ReadingRow>, p: nat)
    requires OneEach(a) && p < |a|
    ensures multiset(a)[a[p]] == 1
  {
    assert a == a[..p] + [a[p]] + a[p + 1..];
    assert a[p] !in a[..p];
    assert a[p] !in a[p + 1..];
    assert multiset(a) == multiset(a[..p]) + multiset{a[p]} + multiset(a[p + 1..]);
  }

  // Reordering either list changes neither whether the derivation succeeds nor any row.
  lemma DeriveOrder(roster: map<string, string>, a: Readings, b: Readings)
    requires multiset(a.corpus) == multiset(b.corpus) && multiset(a.adversarial) == multiset(b.adversarial)
    requires a.excluded == b.excluded && a.entries == b.entries
    requires Admissible(roster, a)
    ensures Admissible(roster, b)
    ensures forall f :: Find(a.corpus, f) == Find(b.corpus, f) && Find(a.adversarial, f) == Find(b.adversarial, f)
  {
    hide Find, RowOk, Compatible, FaceOf;
    forall f
      ensures Find(a.corpus, f) == Find(b.corpus, f) && Find(a.adversarial, f) == Find(b.adversarial, f)
    {
      FindOrder(a.corpus, b.corpus, f);
      FindOrder(a.adversarial, b.adversarial, f);
    }
    OneEachOrder(a.corpus, b.corpus);
    OneEachOrder(a.adversarial, b.adversarial);
    RowsOrder(roster, Corpus, a.corpus, b.corpus);
    RowsOrder(roster, Adversarial, a.adversarial, b.adversarial);
  }

  lemma RowsOrder(roster: map<string, string>, level: Level, a: seq<ReadingRow>, b: seq<ReadingRow>)
    requires multiset(a) == multiset(b) && forall i :: 0 <= i < |a| ==> RowOk(roster, level, a[i])
    ensures forall i :: 0 <= i < |b| ==> RowOk(roster, level, b[i])
  {
    hide RowOk;
    forall i | 0 <= i < |b|
      ensures RowOk(roster, level, b[i])
    {
      var x := b[i];
      assert x in multiset(a);
    }
  }

  // The specification leaves no freedom: two tables for the same readings are the same table.
  lemma TableUnique(readings: Readings, rows: map<string, TableRow>, others: map<string, TableRow>)
    requires TableFor(readings, rows) && TableFor(readings, others)
    ensures rows == others
  {
    hide Find;
    assert rows.Keys == others.Keys;
    forall f | f in rows
      ensures rows[f] == others[f]
    {
      RowUnique(Find(readings.corpus, f), Find(readings.adversarial, f), rows[f], others[f]);
    }
  }

  lemma RowUnique(c: Option<ReadingRow>, a: Option<ReadingRow>, x: TableRow, y: TableRow)
    requires RowFor(c, a, x) && RowFor(c, a, y)
    ensures x == y
  {
    SameLevels(x.pythonEvidence, y.pythonEvidence);
    SameLevels(x.nativeEvidence, y.nativeEvidence);
  }

  lemma SameLevels(s: set<Level>, t: set<Level>)
    requires (Corpus in s <==> Corpus in t) && (Adversarial in s <==> Adversarial in t)
    ensures s == t
  {
    forall x: Level
      ensures x in s <==> x in t
    {
      match x case Adversarial => case Corpus =>
    }
  }
}
