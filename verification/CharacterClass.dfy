/** Parsing a bracketed character class, against the printer that escapes what must be escaped. */
module CharacterClass {
  import opened Wrappers

  datatype Item = Single(code: char) | Range(low: char, high: char)

  // One code of the class, and whether it came from an escape.
  datatype Code = Code(value: char, literal: bool)

  datatype Scanned = Scanned(codes: seq<Code>, next: nat)

  const ESCAPABLE: string := "\\-[]^`'\"!#$%&()*+,./:;<=>?@_{|}~"

  // --- the parser -------------------------------------------------------------

  // From `i` up to the closing bracket; running out of text is the tool's index error.
  function Scan(source: string, i: nat): Option<Scanned>
    decreases |source| - i
  {
    if i >= |source| then None
    else if source[i] == ']' then Some(Scanned([], i + 1))
    else if source[i] == '[' then None
    else if source[i] == '\\' then
      if i + 1 >= |source| || source[i + 1] !in ESCAPABLE then None
      else
        var rest := Scan(source, i + 2);
        if rest.None? then None else Some(Scanned([Code(source[i + 1], true)] + rest.value.codes, rest.value.next))
    else
      var rest := Scan(source, i + 1);
      if rest.None? then None else Some(Scanned([Code(source[i], false)] + rest.value.codes, rest.value.next))
  }

  predicate Dashed(codes: seq<Code>) { |codes| > 2 && codes[1] == Code('-', false) }

  function Group(codes: seq<Code>): Option<seq<Item>>
    decreases |codes|
  {
    if codes == [] then Some([])
    else if Dashed(codes) then
      if codes[0].value > codes[2].value then None
      else
        var rest := Group(codes[3..]);
        if rest.None? then None else Some([Range(codes[0].value, codes[2].value)] + rest.value)
    else
      var rest := Group(codes[1..]);
      if rest.None? then None else Some([Single(codes[0].value)] + rest.value)
  }

  datatype Parsed = Parsed(items: seq<Item>, next: nat)

  function Parse(source: string, index: nat): Option<Parsed> {
    if index + 1 >= |source| || source[index] != '[' || source[index + 1] == '^' then None
    else
      var scanned := Scan(source, index + 1);
      if scanned.None? || Group(scanned.value.codes).None? then None
      else Some(Parsed(Group(scanned.value.codes).value, scanned.value.next))
  }

  // The tool's two loops, one after the other.
  method ParseCharClass(source: string, start: nat) returns (r: Option<Parsed>)
    ensures r == Parse(source, start)
  {
    hide Scan, Group;
    if start + 1 >= |source| || source[start] != '[' || source[start + 1] == '^' { return None; }
    var scanned := ScanCodes(source, start + 1);
    if scanned.None? { return None; }
    var items := GroupCodes(scanned.value.codes);
    if items.None? { return None; }
    r := Some(Parsed(items.value, scanned.value.next));
  }

  method ScanCodes(source: string, start: nat) returns (r: Option<Scanned>)
    ensures r == Scan(source, start)
  {
    hide Scan;
    var index := start;
    var codes: seq<Code> := [];
    ScanMore(source, index);
    while index < |source| && source[index] != ']'
      invariant Scan(source, start) == Behind(codes, Scan(source, index))
      decreases |source| - index
    {
      ScanStep(source, index);
      if source[index] == '[' { return None; }
      var code;
      if source[index] == '\\' {
        if index + 1 >= |source| || source[index + 1] !in ESCAPABLE { return None; }
        code := Code(source[index + 1], true);
        index := index + 2;
      } else {
        code := Code(source[index], false);
        index := index + 1;
      }
      BehindTwice(codes, code, Scan(source, index));
      codes := codes + [code];
    }
    if index >= |source| {
      ScanEnd(source, index);
      return None;
    }
    ScanStep(source, index);
    assert codes + [] == codes;
    r := Some(Scanned(codes, index + 1));
  }

  method GroupCodes(codes: seq<Code>) returns (r: Option<seq<Item>>)
    ensures r == Group(codes)
  {
    hide Group;
    var items: seq<Item> := [];
    var position := 0;
    assert codes[0..] == codes;
    GroupMore(codes);
    while position < |codes|
      invariant position <= |codes|
      invariant Group(codes) == After(items, Group(codes[position..]))
    {
      var rest := codes[position..];
      GroupStep(rest);
      var item;
      if position + 2 < |codes| && codes[position + 1].value == '-' && !codes[position + 1].literal {
        if codes[position].value > codes[position + 2].value { return None; }
        item := Range(codes[position].value, codes[position + 2].value);
        assert rest[3..] == codes[position + 3..];
        position := position + 3;
      } else {
        item := Single(codes[position].value);
        assert rest[1..] == codes[position + 1..];
        position := position + 1;
      }
      AfterTwice(items, item, Group(codes[position..]));
      items := items + [item];
    }
    assert codes[|codes|..] == [];
    GroupStep([]);
    assert items + [] == items;
    r := Some(items);
  }

  function Behind(codes: seq<Code>, rest: Option<Scanned>): Option<Scanned> {
    if rest.None? then None else Some(Scanned(codes + rest.value.codes, rest.value.next))
  }

  function After(items: seq<Item>, rest: Option<seq<Item>>): Option<seq<Item>> {
    if rest.None? then None else Some(items + rest.value)
  }

  lemma ScanMore(source: string, i: nat)
    ensures Behind([], Scan(source, i)) == Scan(source, i)
  {
    hide Scan;
    var rest := Scan(source, i);
    if rest.Some? { assert [] + rest.value.codes == rest.value.codes; }
  }

  lemma ScanStep(source: string, i: nat)
    requires i < |source|
    ensures source[i] == ']' ==> Scan(source, i) == Some(Scanned([], i + 1))
    ensures source[i] == '[' ==> Scan(source, i).None?
    ensures source[i] == '\\' ==>
              Scan(source, i) == if i + 1 >= |source| || source[i + 1] !in ESCAPABLE then None
                                 else Behind([Code(source[i + 1], true)], Scan(source, i + 2))
    ensures source[i] !in "][\\" ==> Scan(source, i) == Behind([Code(source[i], false)], Scan(source, i + 1))
  {
  }

  lemma ScanEnd(source: string, i: nat)
    requires i >= |source|
    ensures Scan(source, i).None?
  {
  }

  lemma BehindTwice(codes: seq<Code>, code: Code, rest: Option<Scanned>)
    ensures Behind(codes, Behind([code], rest)) == Behind(codes + [code], rest)
  {
    if rest.Some? { assert codes + ([code] + rest.value.codes) == (codes + [code]) + rest.value.codes; }
  }

  lemma GroupMore(codes: seq<Code>)
    ensures After([], Group(codes)) == Group(codes)
  {
    hide Group;
    if Group(codes).Some? { assert [] + Group(codes).value == Group(codes).value; }
  }

  lemma GroupStep(codes: seq<Code>)
    ensures codes == [] ==> Group(codes) == Some([])
    ensures Dashed(codes) ==>
              Group(codes) == if codes[0].value > codes[2].value then None
                              else After([Range(codes[0].value, codes[2].value)], Group(codes[3..]))
    ensures codes != [] && !Dashed(codes) ==> Group(codes) == After([Single(codes[0].value)], Group(codes[1..]))
  {
  }

  lemma AfterTwice(items: seq<Item>, item: Item, rest: Option<seq<Item>>)
    ensures After(items, After([item], rest)) == After(items + [item], rest)
  {
    if rest.Some? { assert items + ([item] + rest.value) == (items + [item]) + rest.value; }
  }

  // --- the printer ------------------------------------------------------------

  const SPECIAL: string := "\\-[]^"

  function PrintCode(c: char): string { if c in SPECIAL then ['\\', c] else [c] }

  function PrintItem(item: Item): string {
    match item
    case Single(c) => PrintCode(c)
    case Range(low, high) => PrintCode(low) + "-" + PrintCode(high)
  }

  function PrintItems(items: seq<Item>): string {
    if items == [] then "" else PrintItem(items[0]) + PrintItems(items[1..])
  }

  function Print(items: seq<Item>): string { "[" + PrintItems(items) + "]" }

  predicate ValidItems(items: seq<Item>) {
    forall k :: 0 <= k < |items| && items[k].Range? ==> items[k].low <= items[k].high
  }

  function CodeOf(c: char): Code { Code(c, c in SPECIAL) }

  function ItemCodes(item: Item): seq<Code> {
    match item
    case Single(c) => [CodeOf(c)]
    case Range(low, high) => [CodeOf(low), Code('-', false), CodeOf(high)]
  }

  function Codes(items: seq<Item>): seq<Code> {
    if items == [] then [] else ItemCodes(items[0]) + Codes(items[1..])
  }

  predicate StandsAt(s: string, i: nat, what: string) { i + |what| <= |s| && s[i..i + |what|] == what }

  lemma StandsParts(s: string, i: nat, a: string, b: string)
    requires StandsAt(s, i, a + b)
    ensures StandsAt(s, i, a) && StandsAt(s, i + |a|, b)
  {
    assert s[i..i + |a|] == (a + b)[..|a|] && s[i + |a|..i + |a| + |b|] == (a + b)[|a|..];
  }

  lemma ScanCode(s: string, i: nat, c: char)
    requires StandsAt(s, i, PrintCode(c))
    ensures Scan(s, i) == Behind([CodeOf(c)], Scan(s, i + |PrintCode(c)|))
  {
    hide Scan, Behind;
    assert s[i] == PrintCode(c)[0];
    if c in SPECIAL {
      assert s[i + 1] == PrintCode(c)[1] == c;
      SpecialEscapable(c);
    }
    ScanStep(s, i);
  }

  lemma SpecialEscapable(c: char)
    requires c in SPECIAL
    ensures c in ESCAPABLE
  {
    assert ESCAPABLE[..5] == SPECIAL;
  }

  lemma ScanItem(s: string, i: nat, item: Item)
    requires StandsAt(s, i, PrintItem(item))
    ensures Scan(s, i) == Behind(ItemCodes(item), Scan(s, i + |PrintItem(item)|))
  {
    hide Scan, PrintCode;
    match item
    case Single(c) => ScanCode(s, i, c);
    case Range(low, high) =>
      var a, b := PrintCode(low), PrintCode(high);
      StandsParts(s, i, a + "-", b);
      StandsParts(s, i, a, "-");
      ScanCode(s, i, low);
      var j := i + |a|;
      assert s[j] == s[j..j + 1][0] == '-';
      ScanStep(s, j);
      ScanCode(s, j + 1, high);
      var rest := Scan(s, j + 1 + |b|);
      BehindTwice([CodeOf(low)], Code('-', false), Behind([CodeOf(high)], rest));
      assert [CodeOf(low)] + [Code('-', false)] == [CodeOf(low), Code('-', false)];
      BehindTwice([CodeOf(low), Code('-', false)], CodeOf(high), rest);
      assert [CodeOf(low), Code('-', false)] + [CodeOf(high)] == ItemCodes(item);
      assert '-' !in "][\\";
      assert j + 1 + |b| == i + |PrintItem(item)|;
  }

  lemma {:induction false} ScanPrinted(s: string, i: nat, items: seq<Item>)
    requires StandsAt(s, i, PrintItems(items) + "]")
    ensures Scan(s, i) == Some(Scanned(Codes(items), i + |PrintItems(items)| + 1))
    decreases |items|
  {
    hide Scan, PrintItem, ItemCodes;
    if items == [] {
      assert s[i] == s[i..i + 1][0] == ']';
      ScanStep(s, i);
    } else {
      var first, rest := PrintItem(items[0]), PrintItems(items[1..]);
      assert PrintItems(items) + "]" == first + (rest + "]");
      StandsParts(s, i, first, rest + "]");
      ScanItem(s, i, items[0]);
      ScanPrinted(s, i + |first|, items[1..]);
    }
  }

  // No unescaped dash begins what is printed.
  lemma NoDashAhead(items: seq<Item>)
    ensures items != [] ==> Codes(items) != [] && Codes(items)[0] != Code('-', false)
  {
    assert '-' in SPECIAL by { assert SPECIAL[1] == '-'; }
  }

  lemma {:induction false} GroupPrinted(items: seq<Item>)
    requires ValidItems(items)
    ensures Group(Codes(items)) == Some(items)
  {
    hide Group, CodeOf;
    var codes := Codes(items);
    GroupStep(codes);
    if items != [] {
      var item, rest := items[0], items[1..];
      GroupPrinted(rest);
      NoDashAhead(rest);
      match item
      case Single(c) =>
        assert codes[1..] == Codes(rest);
        assert CodeOf(c).value == c by { CodeValue(c); }
        assert [item] + rest == items;
      case Range(low, high) =>
        assert codes == [CodeOf(low), Code('-', false), CodeOf(high)] + Codes(rest);
        assert codes[3..] == Codes(rest);
        CodeValue(low);
        CodeValue(high);
        assert [item] + rest == items;
    }
  }

  lemma CodeValue(c: char)
    ensures CodeOf(c).value == c
  {
  }

  // Parsing undoes printing, wherever the class stands and whatever follows it.
  lemma ParseUndoesPrint(before: string, items: seq<Item>, tail: string)
    requires ValidItems(items)
    ensures Parse(before + Print(items) + tail, |before|) == Some(Parsed(items, |before| + |Print(items)|))
  {
    hide Scan, Group, PrintItems, Codes;
    var s, i := before + Print(items) + tail, |before| + 1;
    var body := PrintItems(items) + "]";
    assert Print(items) == "[" + body;
    assert s[|before|..|before| + |Print(items)|] == Print(items);
    StandsParts(s, |before|, "[", body);
    ScanPrinted(s, i, items);
    GroupPrinted(items);
    FirstPrinted(items);
    assert s[i] == s[i..i + |body|][0] == body[0];
  }

  lemma FirstPrinted(items: seq<Item>)
    ensures (PrintItems(items) + "]")[0] != '^'
  {
    assert '^' in SPECIAL by { assert SPECIAL[4] == '^'; }
  }

  // Whatever is parsed is a list the printer can print, so parsing its print gives it again.
  lemma {:induction false} GroupIsValid(codes: seq<Code>)
    ensures Group(codes).Some? ==> ValidItems(Group(codes).value)
    decreases |codes|
  {
    hide Group;
    GroupStep(codes);
    if codes != [] {
      GroupIsValid(codes[if Dashed(codes) then 3 else 1..]);
    }
  }

  lemma ParsedIsStable(source: string, index: nat)
    requires Parse(source, index).Some?
    ensures var items := Parse(source, index).value.items;
            Parse(Print(items), 0) == Some(Parsed(items, |Print(items)|))
  {
    hide Scan, Group, Print;
    GroupIsValid(Scan(source, index + 1).value.codes);
    var items := Parse(source, index).value.items;
    ParseUndoesPrint("", items, "");
    assert "" + Print(items) + "" == Print(items);
  }
}
