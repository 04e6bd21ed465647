/** What the class tables refuse, said by counting: how many of its categories a codepoint is in, and
  how many codepoints end in a class.
 */
module ClassCounts {
  import opened ClassTables
  import opened Normalizer

  function Bit(b: bool): nat { if b then 1 else 0 }

  // --- o200k ------------------------------------------------------------------

  lemma SeparateMeans(m: Masks, c: int)
    ensures Separate(m, c) <==>
              Bit(m.upper(c)) + Bit(m.title(c)) + Bit(m.lower(c)) + Bit(m.modifier(c)) + Bit(m.other(c))
              + Bit(m.mark(c)) + Bit(m.number(c)) + Bit(IsWhite(c)) <= 1
  {
    hide IsWhite;
  }

  // --- deepseek ---------------------------------------------------------------

  // How many of the five categories and the whitespace a codepoint is in.
  function Memberships(m: Masks, c: int): nat {
    Bit(m.letter(c)) + Bit(m.mark(c)) + Bit(m.number(c)) + Bit(m.punct(c)) + Bit(m.symbol(c)) + Bit(IsWhite(c))
  }

  lemma DisjointMeans(m: Masks, c: int)
    ensures Disjoint(m, c) <==> Memberships(m, c) <= 1
    ensures Classed(m, c) <==> Memberships(m, c) >= 1
  {
    hide IsWhite;
  }

  // The classes of a finished table: 6 is that of the two line breaks, 5 of the other whitespace, 4 of
  // punctuation, symbols and the surrogates, 1 to 3 of letters, marks and numbers, 0 of all the rest.
  lemma PartitionMeans(m: Masks, c: int, kind: int)
    requires PartitionedAt(m, c, kind)
    ensures kind == 6 <==> c == 0xA || c == 0xD
    ensures kind == 5 <==> IsWhite(c) && c != 0xA && c != 0xD
    ensures kind == 4 <==> m.punct(c) || m.symbol(c) || 0xD800 <= c <= 0xDFFF
    ensures kind == 3 <==> m.number(c)
    ensures kind == 2 <==> m.mark(c)
    ensures kind == 1 <==> m.letter(c)
    ensures kind == 0 <==> Memberships(m, c) == 0 && !(0xD800 <= c <= 0xDFFF)
  {
    hide IsWhite;
  }

  // No digit lies in an ideograph range, every listed mark is punctuation or a symbol, every
  // codepoint of an alphabet range is a letter, and the space is whitespace alone.
  lemma ConstantsMean(m: Masks, k: Constants)
    ensures ConstantsFit(m, k) <==>
              && (forall i, c ::
                    0 <= i < |k.ideographs| && k.ideographs[i].0 <= c <= k.ideographs[i].1 && 0 <= c < 0x110000 ==>
                      !m.number(c))
              && (forall i, c ::
                    0 <= i < |k.alphabet| && k.alphabet[i].0 <= c <= k.alphabet[i].1 && 0 <= c < 0x110000 ==>
                      m.letter(c))
              && (forall c :: c in k.punctuation && !m.punct(c) ==> m.symbol(c))
              && IsWhite(k.space) && !(m.punct(k.space) || m.symbol(k.space))
  {
    hide IsWhite;
    CoveredBy(k.ideographs);
    CoveredBy(k.alphabet);
  }

  lemma CoveredBy(ranges: seq<(int, int)>)
    ensures forall i, c :: 0 <= i < |ranges| && ranges[i].0 <= c <= ranges[i].1 ==> Covered(ranges, c)
    ensures forall c :: Covered(ranges, c) ==> exists i :: 0 <= i < |ranges| && ranges[i].0 <= c <= ranges[i].1
  {
  }

  // --- kimi -------------------------------------------------------------------

  // A Han codepoint is a number, an other letter, or neither letter nor number, and just one of
  // these; it is not whitespace.
  lemma SubclassedCounts(m: Masks, han: int -> bool, c: int)
    ensures Subclassed(m, han, c) <==>
              (han(c) ==> !IsWhite(c)
                          && Bit(m.number(c)) + Bit(m.modifier(c) || m.other(c))
                             + Bit(!m.letter(c) && !m.number(c)) == 1)
  {
    hide IsWhite;
  }

  // Outside Han, an other letter or a mark is that alone.
  lemma UnmixedCounts(m: Masks, han: int -> bool, c: int)
    ensures Unmixed(m, han, c) <==>
              (!han(c) && (m.modifier(c) || m.other(c) || m.mark(c)) ==>
                 Bit(m.modifier(c) || m.other(c)) + Bit(m.mark(c)) + Bit(m.number(c)) + Bit(IsWhite(c)) == 1)
  {
    hide IsWhite;
  }

  function Members(mask: int -> bool, n: nat): set<int> { set c | 0 <= c < n && mask(c) }

  lemma MembersStep(mask: int -> bool, n: nat)
    requires n > 0
    ensures n - 1 !in Members(mask, n - 1)
    ensures Members(mask, n) == Members(mask, n - 1) + if mask(n - 1) then {n - 1} else {}
  {
  }

  lemma {:induction false} CountIsSize(mask: int -> bool, n: nat)
    ensures CountOf(mask, n) == |Members(mask, n)|
  {
    if n > 0 {
      hide Members;
      CountIsSize(mask, n - 1);
      MembersStep(mask, n);
    }
  }

  lemma SizeOf(mask: int -> bool, which: set<int>)
    requires forall c :: c in which <==> 0 <= c < CODEPOINT_COUNT && mask(c)
    ensures CountOf(mask, CODEPOINT_COUNT) == |which|
  {
    CountIsSize(mask, CODEPOINT_COUNT);
    assert forall c :: c in which <==> c in Members(mask, CODEPOINT_COUNT);
    assert which == Members(mask, CODEPOINT_COUNT);
  }

  // The four counts are those of the Han other letters, the Han numbers, the Han codepoints that are
  // neither, and all of Han.
  lemma CountedMeans(m: Masks, han: int -> bool, expected: HanCounts)
    ensures Counted(m, han, expected) <==>
              && |set c | 0 <= c < CODEPOINT_COUNT && han(c) && (m.modifier(c) || m.other(c))| == expected.letters
              && |set c | 0 <= c < CODEPOINT_COUNT && han(c) && m.number(c)| == expected.numbers
              && |set c | 0 <= c < CODEPOINT_COUNT && han(c) && !m.letter(c) && !m.number(c)| == expected.punct
              && |set c | 0 <= c < CODEPOINT_COUNT && han(c)| == expected.all
  {
    hide CountOf;
    SizeOf(c => HanLetter(m, han, c), set c | 0 <= c < CODEPOINT_COUNT && han(c) && (m.modifier(c) || m.other(c)));
    SizeOf(c => HanNumber(m, han, c), set c | 0 <= c < CODEPOINT_COUNT && han(c) && m.number(c));
    SizeOf(c => HanPunct(m, han, c), set c | 0 <= c < CODEPOINT_COUNT && han(c) && !m.letter(c) && !m.number(c));
    SizeOf(han, set c | 0 <= c < CODEPOINT_COUNT && han(c));
  }

  // In a table the tool accepts, the three last classes are of the expected sizes, and together of all
  // Han codepoints.
  lemma AcceptedSizes(m: Masks, han: int -> bool, expected: HanCounts, table: seq<int>)
    requires |table| == CODEPOINT_COUNT && Counted(m, han, expected)
    requires forall c :: 0 <= c < |table| ==> table[c] == KimiClass(m, han, c) && Subclassed(m, han, c)
    ensures |set c | 0 <= c < |table| && table[c] == 7| == expected.letters
    ensures |set c | 0 <= c < |table| && table[c] == 8| == expected.numbers
    ensures |set c | 0 <= c < |table| && table[c] == 9| == expected.punct
    ensures |set c | 0 <= c < |table| && table[c] >= 7| == expected.all
  {
    hide CountOf, IsWhite;
    assert forall c :: 0 <= c < |table| ==> Subclassed(m, han, c);
    SizeOf(c => HanLetter(m, han, c), set c | 0 <= c < |table| && table[c] == 7);
    SizeOf(c => HanNumber(m, han, c), set c | 0 <= c < |table| && table[c] == 8);
    SizeOf(c => HanPunct(m, han, c), set c | 0 <= c < |table| && table[c] == 9);
    SizeOf(han, set c | 0 <= c < |table| && table[c] >= 7);
  }
}
