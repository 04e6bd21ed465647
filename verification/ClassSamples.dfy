/** What the class parser says of small classes: which escapes it takes, what it refuses, what a dash means. */
module ClassSamples {
  import opened CharacterClass
  import opened Wrappers

  // The punctuation of ASCII.
  predicate IsPunctuation(c: char) { '!' <= c <= '/' || ':' <= c <= '@' || '[' <= c <= '`' || '{' <= c <= '~' }

  // A character that stands for itself wherever it is.
  predicate IsPlain(c: char) { c != '[' && c != ']' && c != '\\' && c != '^' && c != '-' }

  lemma InEither(c: char, a: string, b: string)
    ensures c in a + b <==> c in a || c in b
  {
  }

  lemma EscapableIs(c: char)
    ensures c in ESCAPABLE <==> IsPunctuation(c)
  {
    hide IsPunctuation;
    var first, second := "\\-[]^`'\"!#$%&()*", "+,./:;<=>?@_{|}~";
    assert ESCAPABLE == first + second;
    InEither(c, first, second);
    FirstHalf(c);
    SecondHalf(c);
    Halves(c);
  }

  predicate InFirst(c: char) { '!' <= c <= '*' || c == '-' || '[' <= c <= '^' || c == '`' }

  predicate InSecond(c: char) {
    c == '+' || c == ',' || c == '.' || c == '/' || ':' <= c <= '@' || c == '_' || '{' <= c <= '~'
  }

  lemma FirstHalf(c: char)
    ensures c in "\\-[]^`'\"!#$%&()*" <==> InFirst(c)
  {
  }

  lemma SecondHalf(c: char)
    ensures c in "+,./:;<=>?@_{|}~" <==> InSecond(c)
  {
  }

  lemma Halves(c: char)
    ensures IsPunctuation(c) <==> InFirst(c) || InSecond(c)
  {
  }

  lemma OneCode(c: Code)
    ensures Group([c]) == Some([Single(c.value)])
  {
    hide Group;
    GroupStep([c]);
    GroupStep([]);
    assert [c][1..] == [];
    assert [Single(c.value)] + [] == [Single(c.value)];
  }

  lemma TwoCodes(c: Code, d: Code)
    ensures Group([c, d]) == Some([Single(c.value), Single(d.value)])
  {
    hide Group;
    GroupStep([c, d]);
    OneCode(d);
    assert [c, d][1..] == [d];
    assert [Single(c.value)] + [Single(d.value)] == [Single(c.value), Single(d.value)];
  }

  lemma ThreeCodes(c: Code, d: Code, e: Code)
    ensures Group([c, d, e])
         == if d == Code('-', false) then
              if c.value <= e.value then Some([Range(c.value, e.value)]) else None
            else Some([Single(c.value), Single(d.value), Single(e.value)])
  {
    hide Group;
    GroupStep([c, d, e]);
    GroupStep([]);
    TwoCodes(d, e);
    assert [c, d, e][1..] == [d, e] && [c, d, e][3..] == [];
    assert [Single(c.value)] + [Single(d.value), Single(e.value)]
        == [Single(c.value), Single(d.value), Single(e.value)];
    assert [Range(c.value, e.value)] + [] == [Range(c.value, e.value)];
  }

  // An escape is taken exactly of ASCII punctuation.
  lemma EscapedClass(c: char)
    ensures Parse(['[', '\\', c, ']'], 0) == if IsPunctuation(c) then Some(Parsed([Single(c)], 4)) else None
  {
    hide Scan, Group, IsPunctuation;
    var s := ['[', '\\', c, ']'];
    EscapableIs(c);
    ScanStep(s, 1);
    ScanStep(s, 3);
    OneCode(Code(c, true));
    assert [Code(c, true)] + [] == [Code(c, true)];
  }

  // A plain character is itself; a class that begins with a caret is refused, and so is one that does
  // not begin with a bracket, holds another open bracket, or is not closed.
  lemma OneCharacter(c: char)
    ensures IsPlain(c) || c == '-' ==> Parse(['[', c, ']'], 0) == Some(Parsed([Single(c)], 3))
    ensures c == '^' || c == '[' ==> Parse(['[', c, ']'], 0).None?
    ensures c != '[' ==> Parse([c, 'a', ']'], 0).None?
    ensures Parse(['[', c], 0).None? || c == ']'
  {
    hide Scan, Group;
    var s := ['[', c, ']'];
    ScanStep(s, 1);
    ScanStep(s, 2);
    OneCode(Code(c, false));
    assert [Code(c, false)] + [] == [Code(c, false)];
    var t := ['[', c];
    ScanStep(t, 1);
    ScanEnd(t, 2);
    ScanEnd(t, 3);
    assert '-' !in "][\\";
  }

  lemma CaretRefused(before: string, tail: string)
    ensures Parse(before + "[^" + tail, |before|).None?
  {
    var s := before + "[^" + tail;
    assert s[|before|] == '[' && s[|before| + 1] == '^';
  }

  // A bare dash between two characters makes a range, refused when it descends; an escaped one, and
  // one at either end, is a dash.
  lemma Dashes(a: char, b: char)
    requires IsPlain(a) && IsPlain(b)
    ensures Parse(['[', a, '-', b, ']'], 0) == if a <= b then Some(Parsed([Range(a, b)], 5)) else None
    ensures Parse(['[', a, '\\', '-', b, ']'], 0) == Some(Parsed([Single(a), Single('-'), Single(b)], 6))
    ensures Parse(['[', a, '-', ']'], 0) == Some(Parsed([Single(a), Single('-')], 4))
    ensures Parse(['[', '-', a, ']'], 0) == Some(Parsed([Single('-'), Single(a)], 4))
  {
    hide Scan, Group, IsPlain;
    PlainCodes(a, b);
    BareDash(a, b);
    EscapedDash(a, b);
    EndDashes(a);
  }

  lemma PlainCodes(a: char, b: char)
    requires IsPlain(a) && IsPlain(b)
    ensures a !in "][\\" && b !in "][\\" && '-' !in "][\\" && a != '^' && b != '^'
  {
  }

  lemma Listed(c: Code, d: Code, e: Code)
    ensures [c] + ([d] + ([e] + [])) == [c, d, e]
  {
  }

  lemma BareDash(a: char, b: char)
    requires a !in "][\\" && b !in "][\\" && '-' !in "][\\" && a != '^'
    ensures Parse(['[', a, '-', b, ']'], 0) == if a <= b then Some(Parsed([Range(a, b)], 5)) else None
  {
    hide Scan, Group;
    var s := ['[', a, '-', b, ']'];
    ScanStep(s, 1);
    ScanStep(s, 2);
    ScanStep(s, 3);
    ScanStep(s, 4);
    Listed(Code(a, false), Code('-', false), Code(b, false));
    ThreeCodes(Code(a, false), Code('-', false), Code(b, false));
  }

  lemma DashIsPunctuation()
    ensures IsPunctuation('-')
  {
  }

  lemma EscapedDash(a: char, b: char)
    requires a !in "][\\" && b !in "][\\" && a != '^'
    ensures Parse(['[', a, '\\', '-', b, ']'], 0) == Some(Parsed([Single(a), Single('-'), Single(b)], 6))
  {
    hide Scan, Group, IsPunctuation;
    var s := ['[', a, '\\', '-', b, ']'];
    DashIsPunctuation();
    EscapableIs('-');
    ScanStep(s, 1);
    ScanStep(s, 2);
    ScanStep(s, 4);
    ScanStep(s, 5);
    Listed(Code(a, false), Code('-', true), Code(b, false));
    ThreeCodes(Code(a, false), Code('-', true), Code(b, false));
  }

  lemma EndDashes(a: char)
    requires a !in "][\\" && '-' !in "][\\" && a != '^'
    ensures Parse(['[', a, '-', ']'], 0) == Some(Parsed([Single(a), Single('-')], 4))
    ensures Parse(['[', '-', a, ']'], 0) == Some(Parsed([Single('-'), Single(a)], 4))
  {
    hide Scan, Group;
    var s, t := ['[', a, '-', ']'], ['[', '-', a, ']'];
    ScanStep(s, 1);
    ScanStep(s, 2);
    ScanStep(s, 3);
    ScanStep(t, 1);
    ScanStep(t, 2);
    ScanStep(t, 3);
    assert [Code(a, false)] + ([Code('-', false)] + []) == [Code(a, false), Code('-', false)];
    assert [Code('-', false)] + ([Code(a, false)] + []) == [Code('-', false), Code(a, false)];
    TwoCodes(Code(a, false), Code('-', false));
    TwoCodes(Code('-', false), Code(a, false));
  }
}
