/** The splitters' class tables: overlapping writes by mask, and what the finished tables say. */
module ClassTables {
  import opened Normalizer

  // The general categories as probed from the reference engine, one mask each.
  datatype Masks = Masks(
    letter: int -> bool, upper: int -> bool, title: int -> bool, lower: int -> bool, modifier: int -> bool,
    other: int -> bool, mark: int -> bool, number: int -> bool, punct: int -> bool, symbol: int -> bool)

  predicate IsWhite(c: int) {
    0x9 <= c <= 0xD || c == 0x20 || c == 0x85 || c == 0xA0 || c == 0x1680 || 0x2000 <= c <= 0x200A
    || c == 0x2028 || c == 0x2029 || c == 0x202F || c == 0x205F || c == 0x3000
  }

  // The twenty-five codepoints of the property White_Space (section 4.1 of the Unicode Standard).
  lemma WhiteIs(c: int)
    ensures IsWhite(c) <==>
              c in {9, 10, 11, 12, 13, 32, 133, 160, 5760, 8192, 8193, 8194, 8195, 8196, 8197, 8198, 8199, 8200, 8201,
                    8202, 8232, 8233, 8239, 8287, 12288}
  {
  }

  // `table[mask] = value`
  method Write(table: array<int>, mask: int -> bool, value: int)
    modifies table
    ensures forall c :: 0 <= c < table.Length ==> table[c] == if mask(c) then value else old(table[c])
  {
    for c := 0 to table.Length
      invariant forall k :: 0 <= k < c ==> table[k] == if mask(k) then value else old(table[k])
      invariant forall k :: c <= k < table.Length ==> table[k] == old(table[k])
    {
      if mask(c) { table[c] := value; }
    }
  }

  // --- o200k ------------------------------------------------------------------

  const CLS_P := 0
  const CLS_U := 1
  const CLS_L := 2
  const CLS_C := 3
  const CLS_N := 4
  const CLS_S := 5
  const CLS_M := 6
  const CLS_HL := 7
  const CLS_HN := 8
  const CLS_HP := 9

  predicate OtherLetter(m: Masks, c: int) { m.modifier(c) || m.other(c) }

  function O200kClass(m: Masks, c: int): int {
    if IsWhite(c) then CLS_S
    else if m.number(c) then CLS_N
    else if m.mark(c) then CLS_M
    else if OtherLetter(m, c) then CLS_C
    else if m.lower(c) then CLS_L
    else if m.upper(c) || m.title(c) then CLS_U
    else CLS_P
  }

  // The categories a codepoint belongs to are disjoint, and whitespace is in none of those below.
  predicate Separate(m: Masks, c: int) {
    && !(m.upper(c) && (m.title(c) || m.lower(c) || m.modifier(c) || m.other(c) || m.mark(c) || m.number(c)))
    && !(m.title(c) && (m.lower(c) || m.modifier(c) || m.other(c) || m.mark(c) || m.number(c)))
    && !(m.lower(c) && (m.modifier(c) || m.other(c) || m.mark(c) || m.number(c)))
    && !(m.modifier(c) && (m.other(c) || m.mark(c) || m.number(c)))
    && !(m.other(c) && (m.mark(c) || m.number(c))) && !(m.mark(c) && m.number(c))
    && !(IsWhite(c) && (m.upper(c) || m.title(c) || m.lower(c) || m.modifier(c) || m.other(c) || m.mark(c)
                        || m.number(c)))
  }

  // What a class says of its codepoint, in both directions.
  predicate SevenAt(m: Masks, c: int, kind: int) {
    && (kind == CLS_U <==> m.upper(c) || m.title(c))
    && (kind == CLS_L <==> m.lower(c))
    && (kind == CLS_C <==> m.modifier(c) || m.other(c))
    && (kind == CLS_M <==> m.mark(c))
    && (kind == CLS_N <==> m.number(c))
    && (kind == CLS_S <==> IsWhite(c))
    && (kind == CLS_P <==>
          !(m.upper(c) || m.title(c) || m.lower(c) || m.modifier(c) || m.other(c) || m.mark(c) || m.number(c)
            || IsWhite(c)))
  }

  lemma SeparateIsPartition(m: Masks, c: int)
    requires Separate(m, c)
    ensures SevenAt(m, c, O200kClass(m, c))
  {
  }

  method WriteSevenClasses(m: Masks, table: array<int>)
    requires table.Length == CODEPOINT_COUNT
    modifies table
    ensures forall c :: 0 <= c < table.Length ==> table[c] == O200kClass(m, c)
  {
    Write(table, _ => true, CLS_P);
    Write(table, c => m.upper(c) || m.title(c), CLS_U);
    Write(table, m.lower, CLS_L);
    Write(table, c => m.modifier(c) || m.other(c), CLS_C);
    Write(table, m.mark, CLS_M);
    Write(table, m.number, CLS_N);
    Write(table, c => IsWhite(c), CLS_S);
  }

  method BuildO200k(m: Masks) returns (table: array<int>)
    ensures fresh(table) && table.Length == CODEPOINT_COUNT
    ensures forall c :: 0 <= c < table.Length ==> table[c] == O200kClass(m, c)
    ensures forall c :: 0 <= c < table.Length && Separate(m, c) ==> SevenAt(m, c, table[c])
  {
    hide SevenAt, Separate, O200kClass;
    table := new int[CODEPOINT_COUNT];
    WriteSevenClasses(m, table);
    forall c | 0 <= c < table.Length && Separate(m, c) ensures SevenAt(m, c, table[c]) { SeparateIsPartition(m, c); }
  }

  // --- kimi -------------------------------------------------------------------

  datatype HanCounts = HanCounts(letters: nat, numbers: nat, punct: nat, all: nat)

  predicate HanLetter(m: Masks, han: int -> bool, c: int) { han(c) && OtherLetter(m, c) }

  predicate HanNumber(m: Masks, han: int -> bool, c: int) { han(c) && m.number(c) }

  predicate HanPunct(m: Masks, han: int -> bool, c: int) { han(c) && !m.letter(c) && !m.number(c) }

  function CountOf(mask: int -> bool, n: nat): nat {
    if n == 0 then 0 else CountOf(mask, n - 1) + if mask(n - 1) then 1 else 0
  }

  predicate Counted(m: Masks, han: int -> bool, expected: HanCounts) {
    && CountOf(c => HanLetter(m, han, c), CODEPOINT_COUNT) == expected.letters
    && CountOf(c => HanNumber(m, han, c), CODEPOINT_COUNT) == expected.numbers
    && CountOf(c => HanPunct(m, han, c), CODEPOINT_COUNT) == expected.punct
    && CountOf(han, CODEPOINT_COUNT) == expected.all
  }

  // Every Han codepoint has exactly one subclass and is not whitespace.
  predicate Subclassed(m: Masks, han: int -> bool, c: int) {
    && !(HanLetter(m, han, c) && HanNumber(m, han, c))
    && !(HanLetter(m, han, c) && HanPunct(m, han, c))
    && (han(c) ==> (HanLetter(m, han, c) || HanNumber(m, han, c) || HanPunct(m, han, c)) && !IsWhite(c))
  }

  // Outside Han the other letters and the marks meet no class that is written after them.
  predicate Unmixed(m: Masks, han: int -> bool, c: int) {
    && (!han(c) && OtherLetter(m, c) ==> !m.mark(c) && !m.number(c) && !IsWhite(c))
    && (!han(c) && m.mark(c) ==> !m.number(c) && !IsWhite(c))
  }

  function KimiClass(m: Masks, han: int -> bool, c: int): int {
    if HanPunct(m, han, c) then CLS_HP
    else if HanNumber(m, han, c) then CLS_HN
    else if HanLetter(m, han, c) then CLS_HL
    else O200kClass(m, c)
  }

  // The subclass of a Han codepoint: numbers, other letters, and what is neither letter nor number.
  predicate HanAt(m: Masks, c: int, kind: int) {
    && (kind == CLS_HN <==> m.number(c)) && (kind == CLS_HL <==> m.modifier(c) || m.other(c))
    && (kind == CLS_HP <==> !m.letter(c) && !m.number(c)) && (kind == CLS_HN || kind == CLS_HL || kind == CLS_HP)
  }

  lemma SubclassedMeans(m: Masks, han: int -> bool, c: int)
    requires Subclassed(m, han, c) && han(c)
    ensures HanAt(m, c, KimiClass(m, han, c))
  {
  }

  lemma OutsideHan(m: Masks, han: int -> bool, c: int)
    requires !han(c)
    ensures KimiClass(m, han, c) == O200kClass(m, c)
  {
    hide O200kClass;
  }

  // The checks the tool makes on the finished table.
  predicate FinalChecks(m: Masks, han: int -> bool, table: seq<int>)
    requires |table| == CODEPOINT_COUNT
  {
    && (forall c :: 0 <= c < |table| ==> (table[c] >= CLS_HL <==> han(c)))
    && (forall c :: 0 <= c < |table| ==> !(table[c] == CLS_U && han(c)))
    && (forall c :: 0 <= c < |table| ==> (table[c] == CLS_C <==> OtherLetter(m, c) && !han(c)))
    && (forall c :: 0 <= c < |table| ==> (table[c] == CLS_M <==> m.mark(c) && !han(c) && !OtherLetter(m, c)))
  }

  // Given the subclasses, the final checks pass exactly when nothing is mixed outside Han: the
  // first two of them never fail.
  lemma FinalChecksExact(m: Masks, han: int -> bool, table: seq<int>)
    requires |table| == CODEPOINT_COUNT && forall c :: 0 <= c < |table| ==> table[c] == KimiClass(m, han, c)
    requires forall c :: 0 <= c < |table| ==> Subclassed(m, han, c)
    ensures forall c :: 0 <= c < |table| ==> (table[c] >= CLS_HL <==> han(c)) && !(table[c] == CLS_U && han(c))
    ensures FinalChecks(m, han, table) <==> forall c :: 0 <= c < |table| ==> Unmixed(m, han, c)
  {
    forall c | 0 <= c < |table|
      ensures table[c] >= CLS_HL <==> han(c)
      ensures Unmixed(m, han, c) <==>
                (table[c] == CLS_C <==> OtherLetter(m, c) && !han(c))
                && (table[c] == CLS_M <==> m.mark(c) && !han(c) && !OtherLetter(m, c))
    {
      assert Subclassed(m, han, c);
    }
  }

  // Accepted exactly when the subclasses partition Han with the expected sizes and nothing is mixed
  // outside it; then the table is the seven-class table wherever a codepoint is not Han.
  method BuildKimi(m: Masks, han: int -> bool, expected: HanCounts) returns (ok: bool, table: array<int>)
    ensures ok <==> Counted(m, han, expected)
                    && forall c :: 0 <= c < CODEPOINT_COUNT ==> Subclassed(m, han, c) && Unmixed(m, han, c)
    ensures ok ==> fresh(table) && table.Length == CODEPOINT_COUNT
    ensures ok ==> forall c :: 0 <= c < table.Length ==>
                     if han(c) then table[c] == KimiClass(m, han, c) && HanAt(m, c, table[c])
                     else table[c] == O200kClass(m, c) && (Separate(m, c) ==> SevenAt(m, c, table[c]))
  {
    hide CountOf, O200kClass, IsWhite, HanAt, SevenAt, Separate;
    table := new int[CODEPOINT_COUNT];
    if !(forall c :: 0 <= c < CODEPOINT_COUNT ==> Subclassed(m, han, c)) || !Counted(m, han, expected) {
      return false, table;
    }
    WriteSevenClasses(m, table);
    Write(table, c => HanLetter(m, han, c), CLS_HL);
    Write(table, c => HanNumber(m, han, c), CLS_HN);
    Write(table, c => HanPunct(m, han, c), CLS_HP);
    FinalChecksExact(m, han, table[..]);
    ok := FinalChecks(m, han, table[..]);
    forall c | 0 <= c < table.Length
      ensures han(c) ==> HanAt(m, c, table[c])
      ensures !han(c) ==> table[c] == O200kClass(m, c) && (Separate(m, c) ==> SevenAt(m, c, table[c]))
    {
      if han(c) {
        SubclassedMeans(m, han, c);
      } else {
        OutsideHan(m, han, c);
        if Separate(m, c) { SeparateIsPartition(m, c); }
      }
    }
  }

  // --- deepseek ---------------------------------------------------------------

  const DS_O := 0
  const DS_L := 1
  const DS_M := 2
  const DS_N := 3
  const DS_PS := 4
  const DS_WS := 5
  const DS_CRLF := 6

  // The constants read from the patterns, as codepoints; the line breaks are LF and CR.
  datatype Constants = Constants(
    ideographs: seq<(int, int)>, punctuation: set<int>, alphabet: seq<(int, int)>, space: int)

  predicate IsLineBreak(c: int) { c == 10 || c == 13 }

  predicate IsSurrogate(c: int) { SURROGATE_START <= c < SURROGATE_STOP }

  predicate Covered(ranges: seq<(int, int)>, c: int) {
    exists k :: 0 <= k < |ranges| && ranges[k].0 <= c <= ranges[k].1
  }

  // No two of the five masks meet, and none meets the whitespace.
  predicate Disjoint(m: Masks, c: int) {
    && !(m.letter(c) && (m.mark(c) || m.number(c) || m.punct(c) || m.symbol(c)))
    && !(m.mark(c) && (m.number(c) || m.punct(c) || m.symbol(c)))
    && !(m.number(c) && (m.punct(c) || m.symbol(c)))
    && !(m.punct(c) && m.symbol(c))
    && !(IsWhite(c) && (m.letter(c) || m.mark(c) || m.number(c) || m.punct(c) || m.symbol(c)))
  }

  predicate Classed(m: Masks, c: int) {
    m.letter(c) || m.mark(c) || m.number(c) || m.punct(c) || m.symbol(c) || IsWhite(c)
  }

  predicate ConstantsFit(m: Masks, k: Constants) {
    && (forall c :: 0 <= c < CODEPOINT_COUNT ==> !(m.number(c) && Covered(k.ideographs, c)))
    && (forall c :: c in k.punctuation ==> m.punct(c) || m.symbol(c))
    && (forall c :: 0 <= c < CODEPOINT_COUNT && Covered(k.alphabet, c) ==> m.letter(c))
    && IsWhite(k.space) && !m.punct(k.space) && !m.symbol(k.space)
  }

  // One class each: what a codepoint's class says about it, in both directions.
  ghost predicate Partitioned(m: Masks, table: seq<int>) {
    forall c :: 0 <= c < |table| ==> PartitionedAt(m, c, table[c])
  }

  predicate PartitionedAt(m: Masks, c: int, kind: int) {
    && (kind == DS_L <==> m.letter(c))
    && (kind == DS_M <==> m.mark(c))
    && (kind == DS_N <==> m.number(c))
    && (kind == DS_PS <==> m.punct(c) || m.symbol(c) || IsSurrogate(c))
    && (kind == DS_WS <==> IsWhite(c) && !IsLineBreak(c))
    && (kind == DS_CRLF <==> IsLineBreak(c))
    && (kind == DS_O <==> !Classed(m, c) && !IsSurrogate(c))
  }

  function Occurrences(table: seq<int>, v: int): nat {
    if table == [] then 0 else Occurrences(table[..|table| - 1], v) + if table[|table| - 1] == v then 1 else 0
  }

  function Histogram(table: seq<int>): nat {
    Occurrences(table, DS_O) + Occurrences(table, DS_L) + Occurrences(table, DS_M) + Occurrences(table, DS_N)
    + Occurrences(table, DS_PS) + Occurrences(table, DS_WS) + Occurrences(table, DS_CRLF)
  }

  // The histogram covers the table exactly when every entry is one of the seven classes.
  lemma {:induction false} HistogramCovers(table: seq<int>)
    ensures Histogram(table) <= |table|
    ensures Histogram(table) == |table| <==> forall c :: 0 <= c < |table| ==> DS_O <= table[c] <= DS_CRLF
  {
    if table != [] {
      HistogramCovers(table[..|table| - 1]);
    }
  }

  function CategoryClass(m: Masks, c: int): int {
    if m.punct(c) || m.symbol(c) then DS_PS
    else if m.number(c) then DS_N
    else if m.mark(c) then DS_M
    else if m.letter(c) then DS_L
    else DS_O
  }

  method WriteCategories(m: Masks, table: array<int>)
    modifies table
    ensures forall c :: 0 <= c < table.Length ==> table[c] == CategoryClass(m, c)
  {
    Write(table, _ => true, DS_O);
    Write(table, m.letter, DS_L);
    Write(table, m.mark, DS_M);
    Write(table, m.number, DS_N);
    Write(table, c => m.punct(c) || m.symbol(c), DS_PS);
  }

  // The class of a codepoint before the surrogates are written.
  function SpacedClass(m: Masks, c: int): int {
    if IsLineBreak(c) then DS_CRLF else if IsWhite(c) then DS_WS else CategoryClass(m, c)
  }

  // The class of a codepoint after all the writes.
  function DeepseekClass(m: Masks, c: int): int {
    if IsSurrogate(c) then DS_PS else SpacedClass(m, c)
  }

  lemma DisjointIsPartition(m: Masks, table: seq<int>)
    requires forall c :: 0 <= c < |table| ==> Disjoint(m, c) && (IsSurrogate(c) ==> !Classed(m, c))
    requires forall c :: 0 <= c < |table| ==> table[c] == DeepseekClass(m, c)
    ensures Partitioned(m, table) && forall c :: 0 <= c < |table| ==> DS_O <= table[c] <= DS_CRLF
  {
    forall c | 0 <= c < |table|
      ensures PartitionedAt(m, c, table[c])
    {
      assert Disjoint(m, c);
    }
  }

  // Whitespace meets no category: the checks on the half-written table cannot fail.
  lemma WhiteUnclassed(m: Masks, c: int)
    requires Disjoint(m, c) && IsWhite(c)
    ensures CategoryClass(m, c) == DS_O
  {
  }

  // The two checks on the half-written table stand where the tool makes them.
  method WriteWhitespace(m: Masks, table: array<int>)
    requires forall c :: 0 <= c < table.Length ==> Disjoint(m, c) && table[c] == CategoryClass(m, c)
    modifies table
    ensures forall c :: 0 <= c < table.Length ==> table[c] == SpacedClass(m, c)
  {
    hide Disjoint, CategoryClass;
    forall c | 0 <= c < table.Length && IsWhite(c) ensures table[c] == DS_O { WhiteUnclassed(m, c); }
    hide IsWhite;
    if !(forall c :: 0 <= c < table.Length && IsWhite(c) && !IsLineBreak(c) ==> table[c] == DS_O) {
      assert false;
    }
    Write(table, c => IsWhite(c) && !IsLineBreak(c), DS_WS);
    if !(forall c :: 0 <= c < table.Length && IsLineBreak(c) ==> table[c] == DS_O) {
      assert false;
    }
    Write(table, c => IsLineBreak(c), DS_CRLF);
  }

  lemma SurrogatesStand(m: Masks, c: int)
    requires IsSurrogate(c)
    ensures SpacedClass(m, c) == DS_O <==> !Classed(m, c)
  {
  }

  // Accepted exactly when the masks are disjoint, the constants fit and no surrogate was probed into
  // a class: of the checks on the table only the last before the end adds anything. Then it is a partition.
  method BuildDeepseek(m: Masks, k: Constants) returns (ok: bool, table: array<int>)
    ensures ok <==> ConstantsFit(m, k)
                    && forall c :: 0 <= c < CODEPOINT_COUNT ==> Disjoint(m, c) && (IsSurrogate(c) ==> !Classed(m, c))
    ensures ok ==> fresh(table) && table.Length == CODEPOINT_COUNT && Partitioned(m, table[..])
    ensures ok ==> Histogram(table[..]) == CODEPOINT_COUNT
  {
    hide Histogram, ConstantsFit, Partitioned, Disjoint, Classed, SpacedClass, IsSurrogate, CategoryClass;
    table := new int[CODEPOINT_COUNT];
    if !(forall c :: 0 <= c < CODEPOINT_COUNT ==> Disjoint(m, c)) || !ConstantsFit(m, k) { return false, table; }
    WriteCategories(m, table);
    WriteWhitespace(m, table);
    forall c | 0 <= c < table.Length && IsSurrogate(c)
      ensures table[c] == DS_O <==> !Classed(m, c)
    {
      SurrogatesStand(m, c);
    }
    if !(forall c :: 0 <= c < table.Length && IsSurrogate(c) ==> table[c] == DS_O) { return false, table; }
    Write(table, c => IsSurrogate(c), DS_PS);
    DisjointIsPartition(m, table[..]);
    HistogramCovers(table[..]);
    if Histogram(table[..]) != CODEPOINT_COUNT {
      assert false;
    }
    ok := true;
  }
}
