/** The byte streams the identities hash, and why they can be read back in one way only. */
module IdentityFraming {
  import opened Wrappers

  type Byte = int
  type Bytes = seq<int>

  // --- little-endian integers -------------------------------------------------

  const U32_LIMIT := 0x1_0000_0000
  const U64_LIMIT := 0x1_0000_0000_0000_0000

  function LittleEndian(n: nat, width: nat): (r: Bytes)
    ensures |r| == width
  {
    if width == 0 then [] else [n % 256] + LittleEndian(n / 256, width - 1)
  }

  function Value(b: Bytes): int { if b == [] then 0 else b[0] + 256 * Value(b[1..]) }

  function Limit(width: nat): nat { if width == 0 then 1 else 256 * Limit(width - 1) }

  lemma {:induction false} ValueInverse(n: nat, width: nat)
    requires n < Limit(width)
    ensures Value(LittleEndian(n, width)) == n
  {
    if width > 0 {
      ValueInverse(n / 256, width - 1);
      assert ([n % 256] + LittleEndian(n / 256, width - 1))[1..] == LittleEndian(n / 256, width - 1);
    }
  }

  lemma Limits()
    ensures Limit(4) == U32_LIMIT && Limit(8) == U64_LIMIT
  {
    assert Limit(2) == 0x1_0000;
    assert Limit(4) == 256 * (256 * Limit(2));
    assert Limit(6) == 256 * (256 * Limit(4));
    assert Limit(8) == 256 * (256 * Limit(6));
  }

  lemma LittleEndianInjective(m: nat, n: nat, width: nat)
    requires m < Limit(width) && n < Limit(width) && LittleEndian(m, width) == LittleEndian(n, width)
    ensures m == n
  {
    ValueInverse(m, width);
    ValueInverse(n, width);
  }

  // --- path-bound source bytes ------------------------------------------------

  datatype File = File(path: Bytes, content: Bytes)

  function Framed(b: Bytes): Bytes { LittleEndian(|b|, 8) + b }

  // What a source set feeds to the digest after the domain tag.
  function Stream(files: seq<File>): Bytes {
    if files == [] then [] else Framed(files[0].path) + Framed(files[0].content) + Stream(files[1..])
  }

  ghost predicate Fits(files: seq<File>) {
    forall i :: 0 <= i < |files| ==> |files[i].path| < U64_LIMIT && |files[i].content| < U64_LIMIT
  }

  // Reads one framed field: the field and what follows it.
  function ReadField(s: Bytes): (r: Option<(Bytes, Bytes)>)
    ensures r.Some? ==> |r.value.1| < |s|
  {
    if |s| < 8 then None
    else
      var n := Value(s[..8]);
      if n < 0 || |s| < 8 + n then None else Some((s[8..8 + n], s[8 + n..]))
  }

  // The stream read back, or `None` when it is not one.
  function ReadStream(s: Bytes): Option<seq<File>>
    decreases |s|
  {
    if s == [] then Some([])
    else
      var path := ReadField(s);
      if path.None? then None
      else
        var content := ReadField(path.value.1);
        if content.None? then None
        else
          var rest := ReadStream(content.value.1);
          if rest.None? then None else Some([File(path.value.0, content.value.0)] + rest.value)
  }

  lemma ReadFramed(b: Bytes, rest: Bytes)
    requires |b| < U64_LIMIT
    ensures ReadField(Framed(b) + rest) == Some((b, rest))
  {
    Limits();
    ValueInverse(|b|, 8);
    var s := Framed(b) + rest;
    assert s[..8] == LittleEndian(|b|, 8);
    assert s[8..8 + |b|] == b && s[8 + |b|..] == rest;
  }

  // The stream decodes back to the exact list of paths and contents.
  lemma {:induction false} StreamRoundTrip(files: seq<File>)
    requires Fits(files)
    ensures ReadStream(Stream(files)) == Some(files)
  {
    if files != [] {
      var f, rest := files[0], files[1..];
      StreamRoundTrip(rest);
      var tail := Framed(f.content) + Stream(rest);
      assert Stream(files) == Framed(f.path) + tail;
      ReadFramed(f.path, tail);
      ReadFramed(f.content, Stream(rest));
      assert [f] + rest == files;
    }
  }

  // Under one domain tag, equal streams are equal source sets.
  lemma StreamInjective(domain: Bytes, a: seq<File>, b: seq<File>)
    requires Fits(a) && Fits(b) && domain + Stream(a) == domain + Stream(b)
    ensures a == b
  {
    assert (domain + Stream(a))[|domain|..] == Stream(a);
    assert (domain + Stream(b))[|domain|..] == Stream(b);
    StreamRoundTrip(a);
    StreamRoundTrip(b);
  }

  lemma StreamSnoc(files: seq<File>, f: File)
    ensures Stream(files + [f]) == Stream(files) + Framed(f.path) + Framed(f.content)
  {
    hide Framed;
    if files == [] {
      assert files + [f] == [f];
      assert [f][1..] == [];
    } else {
      assert (files + [f])[1..] == files[1..] + [f];
      StreamSnoc(files[1..], f);
    }
  }

  lemma NothingFed(domain: Bytes)
    ensures domain + Stream([]) == domain
  {
  }

  // Feeding one file piece by piece is feeding its two frames.
  lemma Fed(domain: Bytes, files: seq<File>, f: File)
    ensures domain + Stream(files) + LittleEndian(|f.path|, 8) + f.path + LittleEndian(|f.content|, 8) + f.content
         == domain + Stream(files + [f])
  {
    hide Stream, LittleEndian;
    StreamSnoc(files, f);
    var path, content := LittleEndian(|f.path|, 8), LittleEndian(|f.content|, 8);
    assert Stream(files + [f]) == Stream(files) + (path + f.path) + (content + f.content);
  }

  // `source_digest`: the running digest, as the bytes it has been fed. A length that does not fit in
  // eight bytes raises.
  method SourceDigestInput(domain: Bytes, files: seq<File>) returns (fed: Option<Bytes>)
    ensures fed.Some? <==> Fits(files)
    ensures fed.Some? ==> fed.value == domain + Stream(files)
  {
    hide Stream, LittleEndian;
    var digest := domain;
    NothingFed(domain);
    for i := 0 to |files|
      invariant digest == domain + Stream(files[..i]) && Fits(files[..i])
    {
      var f := files[i];
      if |f.path| >= U64_LIMIT || |f.content| >= U64_LIMIT { return None; }
      Fed(domain, files[..i], f);
      assert files[..i + 1] == files[..i] + [f];
      digest := digest + LittleEndian(|f.path|, 8);
      digest := digest + f.path;
      digest := digest + LittleEndian(|f.content|, 8);
      digest := digest + f.content;
    }
    assert files[..|files|] == files;
    fed := Some(digest);
  }

  // --- the added-token preimage -----------------------------------------------

  const MARK: Byte := 1

  // An added token, its content as UTF-8 bytes; U+0001 is the byte 1 and no other character holds it.
  datatype AddedToken = AddedToken(content: Bytes, id: int, special: bool, singleWord: bool,
                                   lstrip: bool, rstrip: bool, normalized: bool)

  function Flag(b: bool): (r: Bytes)
    ensures |r| == 2
  {
    [MARK, if b then 1 else 0]
  }

  // The fixed-width part behind the content: the id and the five flags.
  function Fixed(t: AddedToken): (r: Bytes)
    requires 0 <= t.id < U64_LIMIT
    ensures |r| == 19 && r[0] == MARK
  {
    [MARK] + LittleEndian(t.id, 8)
    + Flag(t.special) + Flag(t.singleWord) + Flag(t.lstrip) + Flag(t.rstrip) + Flag(t.normalized)
  }

  function Entry(t: AddedToken): Bytes
    requires 0 <= t.id < U64_LIMIT
  {
    [MARK] + t.content + Fixed(t)
  }

  ghost predicate IdsFit(ts: seq<AddedToken>) { forall i :: 0 <= i < |ts| ==> 0 <= ts[i].id < U64_LIMIT }

  function Entries(ts: seq<AddedToken>): Bytes
    requires IdsFit(ts)
  {
    if ts == [] then [] else Entry(ts[0]) + Entries(ts[1..])
  }

  function Preimage(ts: seq<AddedToken>): Bytes
    requires IdsFit(ts)
  {
    [MARK] + LittleEndian(|ts|, 4) + Entries(ts)
  }

  ghost predicate NoMark(ts: seq<AddedToken>) { forall i :: 0 <= i < |ts| ==> MARK !in ts[i].content }

  // Where the parts of the fixed part stand.
  lemma FixedParts(t: AddedToken)
    requires 0 <= t.id < U64_LIMIT
    ensures Fixed(t)[1..9] == LittleEndian(t.id, 8)
    ensures Fixed(t)[9..11] == Flag(t.special) && Fixed(t)[11..13] == Flag(t.singleWord)
    ensures Fixed(t)[13..15] == Flag(t.lstrip) && Fixed(t)[15..17] == Flag(t.rstrip)
    ensures Fixed(t)[17..] == Flag(t.normalized)
  {
    hide LittleEndian, Flag;
    var f := Fixed(t);
    var p := [MARK] + LittleEndian(t.id, 8);
    var q := p + Flag(t.special) + Flag(t.singleWord);
    var r := q + Flag(t.lstrip) + Flag(t.rstrip);
    assert f == r + Flag(t.normalized);
    Slice(f, 0, 17, 13, 15);
    Slice(f, 0, 17, 15, 17);
    assert f[0..17] == r;
    Slice(f, 0, 13, 9, 11);
    Slice(f, 0, 13, 11, 13);
    assert f[0..13] == q;
    Slice(f, 0, 9, 1, 9);
    assert f[0..9] == p;
  }

  lemma Slice(s: Bytes, from: nat, upTo: nat, i: nat, j: nat)
    requires i <= j && from + j <= upTo <= |s|
    ensures s[from..upTo][i..j] == s[from + i..from + j]
  {
    var x, y := s[from..upTo][i..j], s[from + i..from + j];
    assert forall k :: 0 <= k < j - i ==> x[k] == s[from..upTo][i + k] == s[from + i + k] == y[k];
  }

  lemma FlagInjective(a: bool, b: bool)
    requires Flag(a) == Flag(b)
    ensures a == b
  {
    assert Flag(a)[1] == Flag(b)[1];
  }

  lemma FixedInjective(a: AddedToken, b: AddedToken)
    requires 0 <= a.id < U64_LIMIT && 0 <= b.id < U64_LIMIT && Fixed(a) == Fixed(b)
    ensures a.(content := b.content) == b
  {
    hide LittleEndian, Fixed, Flag;
    FixedParts(a);
    FixedParts(b);
    Limits();
    LittleEndianInjective(a.id, b.id, 8);
    FlagInjective(a.special, b.special);
    FlagInjective(a.singleWord, b.singleWord);
    FlagInjective(a.lstrip, b.lstrip);
    FlagInjective(a.rstrip, b.rstrip);
    FlagInjective(a.normalized, b.normalized);
  }

  lemma EntriesCons(ts: seq<AddedToken>)
    requires IdsFit(ts) && ts != []
    ensures IdsFit(ts[1..]) && Entries(ts) == [MARK] + ts[0].content + Fixed(ts[0]) + Entries(ts[1..])
    ensures |Entries(ts)| == 20 + |ts[0].content| + |Entries(ts[1..])|
  {
  }

  // Reading that has fallen behind by `z` bytes never catches up with mark-free contents.
  lemma {:induction false} NeverCatchesUp(a: seq<AddedToken>, b: seq<AddedToken>, z: Bytes)
    requires IdsFit(a) && IdsFit(b) && |a| == |b| && NoMark(a) && z != []
    ensures Entries(a) != z + Entries(b)
    decreases |a|
  {
    hide Fixed, Entries, Entry, LittleEndian;
    if a == [] {
      EntriesNone();
    } else if Entries(a) == z + Entries(b) {
      EntriesCons(a);
      EntriesCons(b);
      var e, ca, cb := Entries(a), |a[0].content|, |b[0].content|;
      assert e[|z|] == MARK;
      assert a[0].content == e[1..1 + ca];
      assert forall i :: 1 <= i < 1 + ca ==> e[i] == a[0].content[i - 1];
      assert |z| > ca;
      var rest := Entries(a[1..]);
      assert e[20 + ca..] == rest;
      assert e[|z| + 20 + cb..] == Entries(b[1..]);
      var z' := e[20 + ca..|z| + 20 + cb];
      assert rest == z' + Entries(b[1..]);
      NeverCatchesUp(a[1..], b[1..], z');
    }
  }

  lemma EntriesNone()
    ensures Entries([]) == []
  {
  }

  lemma {:induction false} EntriesUnique(a: seq<AddedToken>, b: seq<AddedToken>)
    requires IdsFit(a) && IdsFit(b) && |a| == |b| && NoMark(a) && Entries(a) == Entries(b)
    ensures a == b
  {
    hide Fixed, Entries, Entry, LittleEndian;
    if a != [] {
      EntriesCons(a);
      EntriesCons(b);
      var e, ca, cb := Entries(a), |a[0].content|, |b[0].content|;
      assert a[0].content == e[1..1 + ca] && b[0].content == e[1..1 + cb];
      assert forall i :: 1 <= i < 1 + ca ==> e[i] == a[0].content[i - 1];
      assert e[1 + cb] == MARK;
      assert cb >= ca;
      assert e[20 + ca..] == Entries(a[1..]) && e[20 + cb..] == Entries(b[1..]);
      if cb > ca {
        var z := e[20 + ca..20 + cb];
        assert Entries(a[1..]) == z + Entries(b[1..]);
        NeverCatchesUp(a[1..], b[1..], z);
      }
      assert Fixed(a[0]) == e[1 + ca..20 + ca] && Fixed(b[0]) == e[1 + cb..20 + cb];
      FixedInjective(a[0], b[0]);
      EntriesUnique(a[1..], b[1..]);
      assert a == [a[0]] + a[1..] && b == [b[0]] + b[1..];
    }
  }

  // A table without U+0001 shares its preimage with no other table at all.
  lemma PreimageUnique(a: seq<AddedToken>, b: seq<AddedToken>)
    requires IdsFit(a) && IdsFit(b) && |a| < U32_LIMIT && |b| < U32_LIMIT
    requires NoMark(a) && Preimage(a) == Preimage(b)
    ensures a == b
  {
    var x, y := Preimage(a), Preimage(b);
    assert x[1..5] == LittleEndian(|a|, 4) && y[1..5] == LittleEndian(|b|, 4);
    Limits();
    LittleEndianInjective(|a|, |b|, 4);
    assert x[5..] == Entries(a) && y[5..] == Entries(b);
    EntriesUnique(a, b);
  }

  // With U+0001 in a content the preimage alone does not tell two tables apart.
  lemma PreimageClash()
    ensures var t := AddedToken([], 0x0101_0101_0101_0101, true, true, true, true, true);
            var a, b := [t, t.(content := [MARK])], [t.(content := [MARK]), t];
            a != b && IdsFit(a) && IdsFit(b) && Preimage(a) == Preimage(b)
  {
    hide Fixed, Entry, Entries, LittleEndian;
    var t := AddedToken([], 0x0101_0101_0101_0101, true, true, true, true, true);
    var m := t.(content := [MARK]);
    AllMarks(t);
    AllMarks(m);
    var a, b := [t, m], [m, t];
    EntriesNone();
    EntriesCons(a);
    EntriesCons(b);
    assert a[1..] == [m] && b[1..] == [t];
    EntriesCons([m]);
    EntriesCons([t]);
    assert [m][1..] == [] && [t][1..] == [];
    assert forall i :: 0 <= i < |Entries(a)| ==> Entries(a)[i] == MARK;
    assert forall i :: 0 <= i < |Entries(b)| ==> Entries(b)[i] == MARK;
    assert Entries(a) == Entries(b);
  }

  lemma Ones()
    ensures LittleEndian(0x0101_0101_0101_0101, 8) == [1, 1, 1, 1, 1, 1, 1, 1]
  {
    assert LittleEndian(0x01, 1) == [1];
    assert LittleEndian(0x0101, 2) == [1] + LittleEndian(0x01, 1);
    assert LittleEndian(0x01_0101, 3) == [1] + LittleEndian(0x0101, 2);
    assert LittleEndian(0x0101_0101, 4) == [1] + LittleEndian(0x01_0101, 3);
    assert LittleEndian(0x01_0101_0101, 5) == [1] + LittleEndian(0x0101_0101, 4);
    assert LittleEndian(0x0101_0101_0101, 6) == [1] + LittleEndian(0x01_0101_0101, 5);
    assert LittleEndian(0x01_0101_0101_0101, 7) == [1] + LittleEndian(0x0101_0101_0101, 6);
    assert LittleEndian(0x0101_0101_0101_0101, 8) == [1] + LittleEndian(0x01_0101_0101_0101, 7);
  }

  lemma AllMarks(t: AddedToken)
    requires t.id == 0x0101_0101_0101_0101 && t.special && t.singleWord && t.lstrip && t.rstrip && t.normalized
    ensures forall i :: 0 <= i < 19 ==> Fixed(t)[i] == MARK
  {
    hide LittleEndian;
    Ones();
    assert Fixed(t) == [MARK] + [1, 1, 1, 1, 1, 1, 1, 1] + [1, 1] + [1, 1] + [1, 1] + [1, 1] + [1, 1];
  }

  // `added_frontend_preimage`: `None` stands for the refusal of an id that does not fit.
  method AddedFrontendPreimage(ts: seq<AddedToken>) returns (r: Option<Bytes>)
    ensures r.Some? <==> IdsFit(ts) && |ts| < U32_LIMIT
    ensures r.Some? ==> r.value == Preimage(ts)
  {
    hide Entries, Entry, LittleEndian, Fixed, Flag;
    if |ts| >= U32_LIMIT { return None; }
    EntriesNone();
    var parts := [MARK] + LittleEndian(|ts|, 4);
    for i := 0 to |ts|
      invariant IdsFit(ts[..i]) && parts == [MARK] + LittleEndian(|ts|, 4) + Entries(ts[..i])
    {
      var t := ts[i];
      if t.id < 0 || t.id >= U64_LIMIT { return None; }
      assert ts[..i + 1] == ts[..i] + [t];
      EntriesSnoc(ts[..i], t);
      ghost var before := parts;
      EntryParts(before, t);
      parts := parts + ([MARK] + t.content);
      parts := parts + ([MARK] + LittleEndian(t.id, 8));
      parts := parts + Flag(t.special);
      parts := parts + Flag(t.singleWord);
      parts := parts + Flag(t.lstrip);
      parts := parts + Flag(t.rstrip);
      parts := parts + Flag(t.normalized);
      assert before + Entry(t) == [MARK] + LittleEndian(|ts|, 4) + (Entries(ts[..i]) + Entry(t));
    }
    assert ts[..|ts|] == ts;
    r := Some(parts);
  }

  lemma EntryParts(before: Bytes, t: AddedToken)
    requires 0 <= t.id < U64_LIMIT
    ensures before + ([MARK] + t.content) + ([MARK] + LittleEndian(t.id, 8)) + Flag(t.special) + Flag(t.singleWord)
            + Flag(t.lstrip) + Flag(t.rstrip) + Flag(t.normalized) == before + Entry(t)
  {
    hide LittleEndian, Flag;
    var id := [MARK] + LittleEndian(t.id, 8);
    var f1, f2, f3, f4, f5 := Flag(t.special), Flag(t.singleWord), Flag(t.lstrip), Flag(t.rstrip), Flag(t.normalized);
    var content := [MARK] + t.content;
    var base := before + content;
    Extend(base, id, f1);
    Extend(base, id + f1, f2);
    Extend(base, id + f1 + f2, f3);
    Extend(base, id + f1 + f2 + f3, f4);
    Extend(base, id + f1 + f2 + f3 + f4, f5);
    Extend(before, content, Fixed(t));
  }

  lemma Extend(base: Bytes, f: Bytes, x: Bytes)
    ensures base + f + x == base + (f + x)
  {
  }

  lemma EntriesSnoc(ts: seq<AddedToken>, t: AddedToken)
    requires IdsFit(ts) && 0 <= t.id < U64_LIMIT
    ensures IdsFit(ts + [t]) && Entries(ts + [t]) == Entries(ts) + Entry(t)
  {
    if ts == [] {
      assert ts + [t] == [t];
      assert [t][1..] == [];
    } else {
      assert (ts + [t])[1..] == ts[1..] + [t];
      EntriesSnoc(ts[1..], t);
      assert Entry(ts[0]) + (Entries(ts[1..]) + Entry(t)) == Entry(ts[0]) + Entries(ts[1..]) + Entry(t);
    }
  }
}
