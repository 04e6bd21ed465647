/** Exactly which added-token tables are alone with their preimage: those whose bytes read in one way. */
module TokenReadings {
  import opened IdentityFraming

  // `text` tells the byte strings that are UTF-8.
  ghost predicate ValidTable(text: Bytes -> bool, ts: seq<AddedToken>) {
    IdsFit(ts) && |ts| < U32_LIMIT && forall i :: 0 <= i < |ts| ==> text(ts[i].content)
  }

  // --- one entry --------------------------------------------------------------

  predicate AreBytes(b: Bytes) { forall i :: 0 <= i < |b| ==> 0 <= b[i] < 256 }

  predicate FlagAt(s: Bytes, i: nat)
    requires i + 1 < |s|
  {
    s[i] == MARK && (s[i + 1] == 0 || s[i + 1] == 1)
  }

  // `s` begins with an entry whose content is `n` bytes long.
  predicate Reads(text: Bytes -> bool, s: Bytes, n: nat) {
    && n + 20 <= |s| && s[0] == MARK && text(s[1..n + 1]) && s[n + 1] == MARK && AreBytes(s[n + 2..n + 10])
    && FlagAt(s, n + 10) && FlagAt(s, n + 12) && FlagAt(s, n + 14) && FlagAt(s, n + 16) && FlagAt(s, n + 18)
  }

  function TokenAt(s: Bytes, n: nat): AddedToken
    requires n + 20 <= |s|
  {
    AddedToken(s[1..n + 1], Value(s[n + 2..n + 10]),
               s[n + 11] == 1, s[n + 13] == 1, s[n + 15] == 1, s[n + 17] == 1, s[n + 19] == 1)
  }

  lemma LowByte(low: int, rest: int)
    requires 0 <= low < 256
    ensures (low + 256 * rest) % 256 == low && (low + 256 * rest) / 256 == rest
  {
  }

  lemma {:induction false} BytesInverse(b: Bytes)
    requires AreBytes(b)
    ensures 0 <= Value(b) < Limit(|b|) && LittleEndian(Value(b), |b|) == b
  {
    if b != [] {
      BytesInverse(b[1..]);
      LowByte(b[0], Value(b[1..]));
    }
  }

  lemma {:induction false} LittleEndianIsBytes(n: nat, width: nat)
    ensures AreBytes(LittleEndian(n, width))
  {
    if width > 0 { LittleEndianIsBytes(n / 256, width - 1); }
  }

  lemma ReadsEntry(text: Bytes -> bool, s: Bytes, n: nat)
    requires Reads(text, s, n)
    ensures var t := TokenAt(s, n); 0 <= t.id < U64_LIMIT && text(t.content) && s == Entry(t) + s[n + 20..]
  {
    hide LittleEndian, Value, Fixed;
    Limits();
    BytesInverse(s[n + 2..n + 10]);
    var t := TokenAt(s, n);
    FixedRead(text, s, n);
    assert s[..n + 1] == [MARK] + t.content;
    assert s == s[..n + 1] + s[n + 1..n + 20] + s[n + 20..];
  }

  lemma FixedRead(text: Bytes -> bool, s: Bytes, n: nat)
    requires Reads(text, s, n) && 0 <= TokenAt(s, n).id < U64_LIMIT
    ensures Fixed(TokenAt(s, n)) == s[n + 1..n + 20]
  {
    hide LittleEndian, Value, Flag, Fixed;
    var t := TokenAt(s, n);
    BytesInverse(s[n + 2..n + 10]);
    FlagRead(s, n + 10, t.special);
    FlagRead(s, n + 12, t.singleWord);
    FlagRead(s, n + 14, t.lstrip);
    FlagRead(s, n + 16, t.rstrip);
    FlagRead(s, n + 18, t.normalized);
    FixedParts(t);
    SevenPieces(Fixed(t));
    SevenPieces(s[n + 1..n + 20]);
    Pieces(s, n);
  }

  lemma SevenPieces(f: Bytes)
    requires |f| == 19
    ensures f == [f[0]] + f[1..9] + f[9..11] + f[11..13] + f[13..15] + f[15..17] + f[17..]
  {
    assert f[..9] == [f[0]] + f[1..9];
    assert f[..11] == f[..9] + f[9..11];
    assert f[..13] == f[..11] + f[11..13];
    assert f[..15] == f[..13] + f[13..15];
    assert f[..17] == f[..15] + f[15..17];
    assert f == f[..17] + f[17..];
  }

  lemma Pieces(s: Bytes, n: nat)
    requires n + 20 <= |s|
    ensures var f := s[n + 1..n + 20];
            && f[0] == s[n + 1] && f[1..9] == s[n + 2..n + 10] && f[9..11] == s[n + 10..n + 12]
            && f[11..13] == s[n + 12..n + 14] && f[13..15] == s[n + 14..n + 16]
            && f[15..17] == s[n + 16..n + 18] && f[17..] == s[n + 18..n + 20]
  {
    Slice(s, n + 1, n + 20, 1, 9);
    Slice(s, n + 1, n + 20, 9, 11);
    Slice(s, n + 1, n + 20, 11, 13);
    Slice(s, n + 1, n + 20, 13, 15);
    Slice(s, n + 1, n + 20, 15, 17);
    Slice(s, n + 1, n + 20, 17, 19);
    var f := s[n + 1..n + 20];
    assert f[17..] == f[17..19];
  }

  lemma FlagRead(s: Bytes, i: nat, flag: bool)
    requires i + 1 < |s| && FlagAt(s, i) && flag == (s[i + 1] == 1)
    ensures Flag(flag) == s[i..i + 2]
  {
  }

  lemma EntryReads(text: Bytes -> bool, t: AddedToken, rest: Bytes)
    requires 0 <= t.id < U64_LIMIT && text(t.content)
    ensures var s, n := Entry(t) + rest, |t.content|;
            Reads(text, s, n) && TokenAt(s, n) == t && s[n + 20..] == rest
  {
    hide LittleEndian, Value;
    Limits();
    var s, n := Entry(t) + rest, |t.content|;
    LittleEndianIsBytes(t.id, 8);
    ValueInverse(t.id, 8);
    assert s[1..n + 1] == t.content;
    assert s[n + 2..n + 10] == LittleEndian(t.id, 8);
    assert s[n + 20..] == rest;
  }

  // --- the ways to read a number of entries -----------------------------------

  function Ways(text: Bytes -> bool, s: Bytes, count: nat): nat
    decreases count, |s| + 1
  {
    if count == 0 then if s == [] then 1 else 0 else WaysFrom(text, s, count, 0)
  }

  // Those whose first content is at least `n` bytes long.
  function WaysFrom(text: Bytes -> bool, s: Bytes, count: nat, n: nat): nat
    requires count > 0
    decreases count, |s| - n
  {
    if n + 20 > |s| then 0 else WaysAt(text, s, count, n) + WaysFrom(text, s, count, n + 1)
  }

  function WaysAt(text: Bytes -> bool, s: Bytes, count: nat, n: nat): nat
    requires count > 0
    decreases count, 0
  {
    if Reads(text, s, n) then Ways(text, s[n + 20..], count - 1) else 0
  }

  lemma {:induction false} TwoLengths(text: Bytes -> bool, s: Bytes, count: nat, from: nat, p: nat, q: nat)
    requires count > 0 && from <= p && from <= q
    ensures WaysAt(text, s, count, p) <= WaysFrom(text, s, count, from)
    ensures p != q ==> WaysAt(text, s, count, p) + WaysAt(text, s, count, q) <= WaysFrom(text, s, count, from)
    decreases |s| - from
  {
    hide Reads, Ways;
    NoRoom(text, s, count, p);
    NoRoom(text, s, count, q);
    if from + 20 <= |s| {
      var p', q' := if p == from then from + 1 else p, if q == from then from + 1 else q;
      TwoLengths(text, s, count, from + 1, p', q');
      TwoLengths(text, s, count, from + 1, q', p');
    }
  }

  lemma NoRoom(text: Bytes -> bool, s: Bytes, count: nat, n: nat)
    requires count > 0
    ensures n + 20 > |s| ==> WaysAt(text, s, count, n) == 0
  {
  }

  // A sum of two or more has two summands, or one of two or more.
  lemma {:induction false} Summands(text: Bytes -> bool, s: Bytes, count: nat, from: nat) returns (p: nat, q: nat)
    requires count > 0 && WaysFrom(text, s, count, from) >= 1
    ensures WaysAt(text, s, count, p) >= 1 && WaysAt(text, s, count, q) >= 1 && from <= p && from <= q
    ensures WaysFrom(text, s, count, from) >= 2 ==> p != q || WaysAt(text, s, count, p) >= 2
    decreases |s| - from
  {
    hide WaysAt;
    var here := WaysAt(text, s, count, from);
    if here == 0 {
      p, q := Summands(text, s, count, from + 1);
    } else {
      p, q := from, from;
      if here == 1 && WaysFrom(text, s, count, from) >= 2 {
        var r, _ := Summands(text, s, count, from + 1);
        q := r;
      }
    }
  }

  // --- ways and tables --------------------------------------------------------

  ghost predicate IsReading(text: Bytes -> bool, s: Bytes, ts: seq<AddedToken>) {
    IdsFit(ts) && (forall i :: 0 <= i < |ts| ==> text(ts[i].content)) && Entries(ts) == s
  }

  lemma ReadingCons(text: Bytes -> bool, s: Bytes, ts: seq<AddedToken>)
    requires IsReading(text, s, ts) && ts != []
    ensures var n := |ts[0].content|;
            && Reads(text, s, n) && TokenAt(s, n) == ts[0] && IsReading(text, s[n + 20..], ts[1..])
  {
    hide Entry, Reads, TokenAt;
    EntryReads(text, ts[0], Entries(ts[1..]));
  }

  lemma ConsReading(text: Bytes -> bool, s: Bytes, n: nat, rest: seq<AddedToken>)
    requires Reads(text, s, n) && IsReading(text, s[n + 20..], rest)
    ensures IsReading(text, s, [TokenAt(s, n)] + rest)
  {
    hide Entry, Reads, TokenAt;
    ReadsRoom(text, s, n);
    ReadsEntry(text, s, n);
    var ts := [TokenAt(s, n)] + rest;
    assert ts[1..] == rest;
  }

  lemma ReadsRoom(text: Bytes -> bool, s: Bytes, n: nat)
    requires Reads(text, s, n)
    ensures n + 20 <= |s|
  {
  }

  // Every table is a way to read its own entries, and two tables are two.
  lemma {:induction false} TablesAreWays(text: Bytes -> bool, s: Bytes, a: seq<AddedToken>, b: seq<AddedToken>)
    requires IsReading(text, s, a) && IsReading(text, s, b) && |a| == |b|
    ensures Ways(text, s, |a|) >= if a == b then 1 else 2
    decreases |a|
  {
    hide Reads, TokenAt, IsReading;
    if a == [] {
      EmptyReading(text, s, a);
    } else {
      ReadingCons(text, s, a);
      ReadingCons(text, s, b);
      var p, q := |a[0].content|, |b[0].content|;
      ReadsRoom(text, s, p);
      ReadsRoom(text, s, q);
      TwoLengths(text, s, |a|, 0, p, q);
      assert a == [a[0]] + a[1..] && b == [b[0]] + b[1..];
      if p == q {
        TablesAreWays(text, s[p + 20..], a[1..], b[1..]);
      } else {
        TablesAreWays(text, s[p + 20..], a[1..], a[1..]);
        TablesAreWays(text, s[q + 20..], b[1..], b[1..]);
      }
    }
  }

  lemma EmptyReading(text: Bytes -> bool, s: Bytes, ts: seq<AddedToken>)
    requires ts == []
    ensures IsReading(text, s, ts) <==> s == []
  {
  }

  // Every way is a table, and two ways are two tables.
  lemma {:induction false} WaysAreTables(text: Bytes -> bool, s: Bytes, count: nat)
    returns (a: seq<AddedToken>, b: seq<AddedToken>)
    requires Ways(text, s, count) >= 1
    ensures |a| == |b| == count && IsReading(text, s, a) && IsReading(text, s, b)
    ensures Ways(text, s, count) >= 2 ==> a != b
    decreases count
  {
    hide Reads, TokenAt, IsReading;
    if count == 0 {
      a, b := [], [];
      EmptyReading(text, s, []);
    } else {
      var p, q := Summands(text, s, count, 0);
      ReadsRoom(text, s, p);
      ReadsRoom(text, s, q);
      var x, y := WaysAreTables(text, s[p + 20..], count - 1);
      ConsReading(text, s, p, x);
      a := [TokenAt(s, p)] + x;
      if p == q {
        ConsReading(text, s, p, y);
        b := [TokenAt(s, p)] + y;
        assert a[1..] == x && b[1..] == y;
      } else {
        var z, _ := WaysAreTables(text, s[q + 20..], count - 1);
        ConsReading(text, s, q, z);
        b := [TokenAt(s, q)] + z;
        ContentLength(s, p);
        ContentLength(s, q);
        assert |a[0].content| == p && |b[0].content| == q;
      }
    }
  }

  lemma ContentLength(s: Bytes, n: nat)
    requires n + 20 <= |s|
    ensures |TokenAt(s, n).content| == n
  {
  }

  // --- the exact condition ----------------------------------------------------

  // A table shares its preimage with no other exactly when its entries read in one way.
  lemma PreimageUniqueExactly(text: Bytes -> bool, a: seq<AddedToken>)
    requires ValidTable(text, a)
    ensures Ways(text, Entries(a), |a|) == 1 <==>
              forall b :: ValidTable(text, b) && Preimage(b) == Preimage(a) ==> b == a
  {
    hide Ways, Entries, Preimage;
    var s := Entries(a);
    TablesAreWays(text, s, a, a);
    if Ways(text, s, |a|) == 1 {
      forall b | ValidTable(text, b) && Preimage(b) == Preimage(a)
        ensures b == a
      {
        PreimageParts(a, b);
        TablesAreWays(text, s, a, b);
      }
    } else {
      var x, y := WaysAreTables(text, s, |a|);
      PreimageParts(a, x);
      PreimageParts(a, y);
    }
  }

  lemma PreimageParts(a: seq<AddedToken>, b: seq<AddedToken>)
    requires IdsFit(a) && IdsFit(b) && |a| < U32_LIMIT && |b| < U32_LIMIT
    ensures Preimage(a) == Preimage(b) <==> |a| == |b| && Entries(a) == Entries(b)
  {
    hide Entries, LittleEndian;
    if Preimage(a) == Preimage(b) {
      var x, y := Preimage(a), Preimage(b);
      assert x[1..5] == LittleEndian(|a|, 4) && y[1..5] == LittleEndian(|b|, 4);
      Limits();
      LittleEndianInjective(|a|, |b|, 4);
      assert x[5..] == Entries(a) && y[5..] == Entries(b);
    }
  }

  // No content with U+0001, or a single token: one way, whatever else the contents hold.
  lemma MarkFreeReadsOnce(text: Bytes -> bool, a: seq<AddedToken>)
    requires ValidTable(text, a) && NoMark(a)
    ensures Ways(text, Entries(a), |a|) == 1
  {
    hide Ways, Preimage;
    forall b | ValidTable(text, b) && Preimage(b) == Preimage(a)
      ensures b == a
    {
      PreimageUnique(a, b);
    }
    PreimageUniqueExactly(text, a);
  }

  lemma OneTokenReadsOnce(text: Bytes -> bool, a: seq<AddedToken>)
    requires ValidTable(text, a) && |a| == 1
    ensures Ways(text, Entries(a), 1) == 1
  {
    hide Ways, Preimage, Fixed;
    forall b | ValidTable(text, b) && Preimage(b) == Preimage(a)
      ensures b == a
    {
      PreimageParts(a, b);
      OneEntry(a[0], b[0]);
      assert a == [a[0]] && b == [b[0]];
      EntriesOne(a);
      EntriesOne(b);
    }
    PreimageUniqueExactly(text, a);
  }

  lemma EntriesOne(a: seq<AddedToken>)
    requires IdsFit(a) && |a| == 1
    ensures Entries(a) == Entry(a[0])
  {
    assert a[1..] == [];
  }

  lemma OneEntry(t: AddedToken, u: AddedToken)
    requires 0 <= t.id < U64_LIMIT && 0 <= u.id < U64_LIMIT
    ensures Entry(t) == Entry(u) ==> t == u
  {
    hide Fixed;
    if Entry(t) == Entry(u) {
      var x, y := Entry(t), Entry(u);
      assert |t.content| == |u.content|;
      var n := |t.content|;
      assert x[1..n + 1] == t.content && y[1..n + 1] == u.content;
      assert x[n + 1..] == Fixed(t) && y[n + 1..] == Fixed(u);
      FixedInjective(t, u);
    }
  }
}
