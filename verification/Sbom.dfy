/** The SBOM built on the normal closure: references that name one package each, and dependency rows. */
module Sbom {
  import opened DependencyClosures
  import opened Wrappers

  type Byte = b: int | 0 <= b < 256

  // --- the canonical Cargo purl -----------------------------------------------

  // Characters `urllib.parse.quote` never escapes.
  predicate AlwaysSafe(b: int) {
    || ('a' as int <= b <= 'z' as int) || ('A' as int <= b <= 'Z' as int) || ('0' as int <= b <= '9' as int)
    || b == '_' as int || b == '.' as int || b == '-' as int || b == '~' as int
  }

  predicate Unescaped(b: int, safe: set<char>) {
    0 <= b < 128 && b != '%' as int && b != '@' as int && (AlwaysSafe(b) || b as char in safe)
  }

  const HEX: string := "0123456789ABCDEF"

  function HexDigit(n: int): char
    requires 0 <= n < 16
  {
    HEX[n]
  }

  function HexValue(c: char): int {
    if '0' <= c <= '9' then c as int - '0' as int
    else if 'A' <= c <= 'F' then c as int - 'A' as int + 10
    else 0
  }

  function Quote(s: seq<Byte>, safe: set<char>): string {
    if s == [] then ""
    else
      (if Unescaped(s[0], safe) then [s[0] as char] else ['%', HexDigit(s[0] / 16), HexDigit(s[0] % 16)])
      + Quote(s[1..], safe)
  }

  function Unquote(s: string): seq<int> {
    if s == "" then []
    else if s[0] == '%' && |s| >= 3 then [16 * HexValue(s[1]) + HexValue(s[2])] + Unquote(s[3..])
    else [s[0] as int] + Unquote(s[1..])
  }

  lemma HexInverse(n: int)
    requires 0 <= n < 16
    ensures HexValue(HexDigit(n)) == n && HexDigit(n) != '@'
  {
    assert HEX[n] in HEX;
    if n < 10 { assert HEX[..10] == "0123456789"; } else { assert HEX[10..] == "ABCDEF"; }
  }

  // Quoting is undone by unquoting, and never produces the separator of the purl.
  lemma {:induction false} QuoteInverse(s: seq<Byte>, safe: set<char>)
    ensures Unquote(Quote(s, safe)) == s
    ensures '@' !in Quote(s, safe)
  {
    if s != [] {
      QuoteInverse(s[1..], safe);
      HexInverse(s[0] / 16);
      HexInverse(s[0] % 16);
      var rest := Quote(s[1..], safe);
      if Unescaped(s[0], safe) {
        assert ([s[0] as char] + rest)[1..] == rest;
      } else {
        assert (['%', HexDigit(s[0] / 16), HexDigit(s[0] % 16)] + rest)[3..] == rest;
      }
      assert [s[0]] + s[1..] == s;
    }
  }

  const VERSION_SAFE := {'.', '+', '-'}

  // `_purl`, on the UTF-8 bytes of the name and the version.
  function Purl(name: seq<Byte>, version: seq<Byte>): string {
    "pkg:cargo/" + Quote(name, {}) + "@" + Quote(version, VERSION_SAFE)
  }

  // What one byte becomes: letters, digits and `_.-~` stay, what the caller names safe stays, and any
  // other is escaped in upper-case hexadecimal.
  lemma QuoteByte(b: Byte, safe: set<char>)
    requires '%' !in safe && '@' !in safe
    ensures var c := b as char;
            var stays := 'a' <= c <= 'z' || 'A' <= c <= 'Z' || '0' <= c <= '9' || c in "_.-~" || (b < 128 && c in safe);
            Quote([b], safe) == if stays then [c] else ['%', "0123456789ABCDEF"[b / 16], "0123456789ABCDEF"[b % 16]]
  {
    var c := b as char;
    assert [b][1..] == [];
    assert "_.-~" == ['_', '.', '-', '~'];
    assert c in "_.-~" <==> c == '_' || c == '.' || c == '-' || c == '~';
  }

  lemma {:induction false} QuoteAppend(a: seq<Byte>, b: seq<Byte>, safe: set<char>)
    ensures Quote(a + b, safe) == Quote(a, safe) + Quote(b, safe)
  {
    if a == [] {
      assert a + b == b;
    } else {
      assert (a + b)[1..] == a[1..] + b;
      QuoteAppend(a[1..], b, safe);
    }
  }

  // A byte of a Cargo version: letters, digits, dots, dashes, plus signs; of a name also underscores.
  predicate OfVersion(b: Byte) {
    var c := b as char;
    'a' <= c <= 'z' || 'A' <= c <= 'Z' || '0' <= c <= '9' || c == '.' || c == '-' || c == '+'
  }

  predicate OfName(b: Byte) {
    var c := b as char;
    'a' <= c <= 'z' || 'A' <= c <= 'Z' || '0' <= c <= '9' || c == '-' || c == '_'
  }

  function Text(s: seq<Byte>): string { seq(|s|, i requires 0 <= i < |s| => s[i] as char) }

  lemma {:induction false} QuotePlain(s: seq<Byte>, safe: set<char>)
    requires forall i :: 0 <= i < |s| ==> Unescaped(s[i], safe)
    ensures Quote(s, safe) == Text(s)
  {
    hide Unescaped;
    if s != [] {
      QuotePlain(s[1..], safe);
      assert Text(s) == [s[0] as char] + Text(s[1..]);
    }
  }

  // The reference of an ordinary package is spelled out, nothing escaped.
  lemma PlainPurl(name: seq<Byte>, version: seq<Byte>)
    requires forall i :: 0 <= i < |name| ==> OfName(name[i])
    requires forall i :: 0 <= i < |version| ==> OfVersion(version[i])
    ensures Purl(name, version) == "pkg:cargo/" + Text(name) + "@" + Text(version)
  {
    hide Quote, Text;
    QuotePlain(name, {});
    QuotePlain(version, VERSION_SAFE);
  }

  lemma SplitUnique(a: string, b: string, c: string, d: string)
    requires a + "@" + b == c + "@" + d && '@' !in a && '@' !in c
    ensures a == c && b == d
  {
    var s := a + "@" + b;
    assert s[|a|] == '@' && s[|c|] == '@';
    assert forall i :: 0 <= i < |a| ==> s[i] == a[i];
    assert forall i :: 0 <= i < |c| ==> s[i] == c[i];
    assert |a| == |c|;
    assert a == s[..|a|] && c == s[..|c|];
    assert b == s[|a| + 1..] && d == s[|c| + 1..];
  }

  lemma PurlTail(name: seq<Byte>, version: seq<Byte>)
    ensures |Purl(name, version)| >= 10
    ensures Purl(name, version)[10..] == Quote(name, {}) + "@" + Quote(version, VERSION_SAFE)
  {
    hide Quote;
    var head := "pkg:cargo/";
    assert |head| == 10;
  }

  // A reference names one name and one version.
  lemma PurlInjective(name: seq<Byte>, version: seq<Byte>, name': seq<Byte>, version': seq<Byte>)
    requires Purl(name, version) == Purl(name', version')
    ensures name == name' && version == version'
  {
    QuoteInverse(name, {});
    QuoteInverse(name', {});
    QuoteInverse(version, VERSION_SAFE);
    QuoteInverse(version', VERSION_SAFE);
    hide Quote, Unquote;
    PurlTail(name, version);
    PurlTail(name', version');
    SplitUnique(Quote(name, {}), Quote(version, VERSION_SAFE), Quote(name', {}), Quote(version', VERSION_SAFE));
  }

  // --- the document -----------------------------------------------------------

  // How texts become bytes, and in which order a closure is listed.
  datatype Rendering = Rendering(utf8: string -> seq<Byte>, sorted: set<Id> -> seq<Id>)

  ghost predicate ValidRendering(r: Rendering) {
    && (forall a, b :: r.utf8(a) == r.utf8(b) ==> a == b)
    && (forall s: set<Id> {:trigger r.sorted(s)} ::
          (forall x :: x in r.sorted(s) <==> x in s)
          && forall i, j :: 0 <= i < j < |r.sorted(s)| ==> r.sorted(s)[i] != r.sorted(s)[j])
  }

  function BomRef(g: Graph, r: Rendering, x: Id): string {
    if x in g.packages then Purl(r.utf8(g.packages[x].name), r.utf8(g.packages[x].version)) else ""
  }

  datatype Row = Row(ref: string, dependsOn: set<string>)

  datatype Error = MissingNode | MissingPackage | Collision

  datatype Result<+T> = Ok(value: T) | Err(error: Error)

  ghost predicate SameRelease(g: Graph, x: Id, y: Id) {
    x in g.packages && y in g.packages && g.packages[x].name == g.packages[y].name
        && g.packages[x].version == g.packages[y].version
  }

  lemma SameRefSameRelease(g: Graph, r: Rendering, x: Id, y: Id)
    requires ValidRendering(r) && x in g.packages && y in g.packages
    ensures BomRef(g, r, x) == BomRef(g, r, y) <==> SameRelease(g, x, y)
  {
    if BomRef(g, r, x) == BomRef(g, r, y) {
      PurlInjective(r.utf8(g.packages[x].name), r.utf8(g.packages[x].version), r.utf8(g.packages[y].name),
                    r.utf8(g.packages[y].version));
    }
  }

  // The reference table of the packages in order; `None` is the refusal of a collision.
  method References(g: Graph, r: Rendering, ids: seq<Id>) returns (refs: Option<map<string, Id>>)
    requires forall i :: 0 <= i < |ids| ==> ids[i] in g.packages
    ensures refs.Some? <==> forall i, j :: 0 <= i < j < |ids| ==> BomRef(g, r, ids[i]) != BomRef(g, r, ids[j])
    ensures refs.Some? ==>
              && (forall i :: 0 <= i < |ids| ==>
                 BomRef(g, r, ids[i]) in refs.value && refs.value[BomRef(g, r, ids[i])] == ids[i])
              && (forall ref :: ref in refs.value ==> exists i :: 0 <= i < |ids| && ref == BomRef(g, r, ids[i]))
  {
    hide BomRef;
    var found: map<string, Id> := map[];
    for i := 0 to |ids|
      invariant forall j :: 0 <= j < i ==> BomRef(g, r, ids[j]) in found && found[BomRef(g, r, ids[j])] == ids[j]
      invariant forall ref :: ref in found ==> exists j :: 0 <= j < i && ref == BomRef(g, r, ids[j])
      invariant forall j, k :: 0 <= j < k < i ==> BomRef(g, r, ids[j]) != BomRef(g, r, ids[k])
    {
      var ref := BomRef(g, r, ids[i]);
      if ref in found { return None; }
      found := found[ref := ids[i]];
    }
    refs := Some(found);
  }

  function DirectRefs(g: Graph, r: Rendering, closure: set<Id>, x: Id): (direct: set<string>)
    requires closure <= g.packages.Keys
    ensures forall s :: s in direct <==> exists y :: y in NormalEdges(g, x) && y in closure && s == BomRef(g, r, y)
  {
    set y | y in NormalEdges(g, x) && y in closure :: BomRef(g, r, y)
  }

  ghost predicate NoSharedRelease(g: Graph, closure: set<Id>) {
    forall x, y :: x in closure && y in closure && SameRelease(g, x, y) ==> x == y
  }

  // The dependency rows of a root's SBOM.
  method DependencyRows(g: Graph, r: Rendering, root: Id,
                        embedded: seq<string>) returns (result: Result<(set<Id>, seq<Row>)>)
    requires ValidRendering(r)
    ensures result.Ok? ==> Documented(g, r, root, embedded, result.value.0, result.value.1)
    ensures result.Err? <==> Incomplete(g, root) || exists closure :: Colliding(g, r, root, embedded, closure)
  {
    hide Reaches, NormalEdges, BomRef, NoSharedRelease, EachRowIsOf, HasRow, RowOf, ValidRendering, Incomplete,
         Exactly, Colliding,
         NoRepeats;
    var found := NormalClosure(g, root);
    if found.None? {
      WhyIncomplete(g, root, {});
      return Err(MissingNode);
    }
    var closure := found.value;
    WhyIncomplete(g, root, closure);
    if exists x :: x in closure && x !in g.packages { return Err(MissingPackage); }
    var ids := r.sorted(closure);
    Listing(r, closure);
    var refs := References(g, r, ids);
    if refs.None? {
      Collides(g, r, closure, ids);
      WhyColliding(g, r, root, embedded, closure);
      return Err(Collision);
    }
    Distinct(g, r, closure, ids);
    var clash := Curated(refs.value.Keys, embedded);
    if clash {
      if exists e :: e in embedded && e in refs.value {
        ghost var e :| e in embedded && e in refs.value;
        ghost var i :| 0 <= i < |ids| && e == BomRef(g, r, ids[i]);
        assert ids[i] in closure;
      }
      WhyColliding(g, r, root, embedded, closure);
      return Err(Collision);
    }
    var rows := BuildRows(g, r, closure, ids);
    RowsDocumented(g, r, closure, ids, rows);
    assert forall i :: 0 <= i < |rows| ==> rows[i].ref in refs.value;
    DocumentedMeans(g, r, root, embedded, closure, rows);
    result := Ok((closure, rows));
  }

  ghost predicate NoRepeats(embedded: seq<string>) {
    forall i, j :: 0 <= i < j < |embedded| ==> embedded[i] != embedded[j]
  }

  // The curated components enter the table of references one after another.
  method Curated(references: set<string>, embedded: seq<string>) returns (clash: bool)
    ensures clash <==> (exists e :: e in embedded && e in references) || !NoRepeats(embedded)
  {
    var taken := references;
    for k := 0 to |embedded|
      invariant forall e :: e in taken <==> e in references || exists i :: 0 <= i < k && embedded[i] == e
      invariant forall i :: 0 <= i < k ==> embedded[i] !in references
      invariant NoRepeats(embedded[..k])
    {
      if embedded[k] in taken { return true; }
      taken := taken + {embedded[k]};
    }
    assert embedded[..|embedded|] == embedded;
    clash := false;
  }

  // Something reached is not described by the metadata.
  ghost predicate Incomplete(g: Graph, root: Id) {
    exists x :: Reaches(y => NormalEdges(g, y), [root], x) && (x !in g.nodes || x !in g.packages)
  }

  // Two packages of the closure are the same release, one bears a curated component's reference, or
  // two of those share one.
  ghost predicate Colliding(g: Graph, r: Rendering, root: Id, embedded: seq<string>, closure: set<Id>) {
    && Exactly(y => NormalEdges(g, y), [root], closure) && closure <= g.packages.Keys
    && (!NoSharedRelease(g, closure) || !NoRepeats(embedded) || exists x :: x in closure && BomRef(g, r, x) in embedded)
  }

  // What is documented is neither incomplete nor colliding.
  lemma DocumentedMeans(g: Graph, r: Rendering, root: Id, embedded: seq<string>, closure: set<Id>, rows: seq<Row>)
    requires Documented(g, r, root, embedded, closure, rows)
    ensures !Incomplete(g, root) && forall other :: !Colliding(g, r, root, embedded, other)
  {
    hide BomRef, NormalEdges, Reaches, EachRowIsOf, NoSharedRelease, NoRepeats;
    var next := y => NormalEdges(g, y);
    ExactMembers(next, [root], closure);
    forall other
      ensures !Colliding(g, r, root, embedded, other)
    {
      if Exactly(next, [root], other) {
        ExactMembers(next, [root], other);
        assert other == closure;
        assert forall x :: x in closure ==> HasRow(g, r, x, rows);
      }
    }
  }

  lemma WhyColliding(g: Graph, r: Rendering, root: Id, embedded: seq<string>, closure: set<Id>)
    requires Exactly(y => NormalEdges(g, y), [root], closure) && closure <= g.packages.Keys
    requires !NoSharedRelease(g, closure) || !NoRepeats(embedded)
             || exists x :: x in closure && BomRef(g, r, x) in embedded
    ensures Colliding(g, r, root, embedded, closure)
  {
  }

  lemma WhyIncomplete(g: Graph, root: Id, closure: set<Id>)
    ensures (exists x :: Reaches(y => NormalEdges(g, y), [root], x) && x !in g.nodes) ==> Incomplete(g, root)
    ensures Exactly(y => NormalEdges(g, y), [root], closure) && (exists x :: x in closure && x !in g.packages) ==>
              Incomplete(g, root)
    ensures (Exactly(y => NormalEdges(g, y), [root], closure)
             && forall x :: Reaches(y => NormalEdges(g, y), [root], x) ==> x in g.nodes) ==> closure <= g.nodes.Keys
  {
  }

  lemma Listing(r: Rendering, closure: set<Id>)
    requires ValidRendering(r)
    ensures var ids := r.sorted(closure);
            && (forall i :: 0 <= i < |ids| ==> ids[i] in closure)
            && forall i, j :: 0 <= i < j < |ids| ==> ids[i] != ids[j]
  {
    var ids := r.sorted(closure);
    assert forall i :: 0 <= i < |ids| ==> ids[i] in r.sorted(closure);
  }

  method BuildRows(g: Graph, r: Rendering, closure: set<Id>, ids: seq<Id>) returns (rows: seq<Row>)
    requires closure <= g.packages.Keys && forall i :: 0 <= i < |ids| ==> ids[i] in g.packages
    ensures |rows| == |ids|
    ensures forall i :: 0 <= i < |ids| ==> RowOf(g, r, closure, ids[i], rows[i]) && rows[i].ref == BomRef(g, r, ids[i])
  {
    hide BomRef, NormalEdges;
    rows := [];
    for i := 0 to |ids|
      invariant |rows| == i
      invariant forall j :: 0 <= j < i ==> RowOf(g, r, closure, ids[j], rows[j]) && rows[j].ref == BomRef(g, r, ids[j])
    {
      rows := rows + [Row(BomRef(g, r, ids[i]), DirectRefs(g, r, closure, ids[i]))];
    }
  }

  lemma RowsDocumented(g: Graph, r: Rendering, closure: set<Id>, ids: seq<Id>, rows: seq<Row>)
    requires ValidRendering(r) && closure <= g.packages.Keys && ids == r.sorted(closure) && |rows| == |ids|
    requires forall i :: 0 <= i < |ids| ==> RowOf(g, r, closure, ids[i], rows[i]) && rows[i].ref == BomRef(g, r, ids[i])
    ensures EachRowIsOf(g, r, closure, rows)
    ensures forall x :: x in closure ==> HasRow(g, r, x, rows)
  {
    hide BomRef, RowOf;
    forall i | 0 <= i < |rows|
      ensures IsRowOf(g, r, closure, rows[i])
    {
      assert ids[i] in closure && RowOf(g, r, closure, ids[i], rows[i]);
    }
    forall x | x in closure
      ensures HasRow(g, r, x, rows)
    {
      assert x in r.sorted(closure);
      var i :| 0 <= i < |ids| && ids[i] == x;
      assert rows[i].ref == BomRef(g, r, x);
    }
  }

  ghost predicate EachRowIsOf(g: Graph, r: Rendering, closure: set<Id>, rows: seq<Row>) {
    forall i :: 0 <= i < |rows| ==> IsRowOf(g, r, closure, rows[i])
  }

  ghost predicate IsRowOf(g: Graph, r: Rendering, closure: set<Id>, row: Row) {
    exists x :: x in closure && RowOf(g, r, closure, x, row)
  }

  ghost predicate HasRow(g: Graph, r: Rendering, x: Id, rows: seq<Row>) {
    exists i :: 0 <= i < |rows| && rows[i].ref == BomRef(g, r, x)
  }

  // One row for each package of the closure, each under a reference of its own.
  ghost predicate Documented(g: Graph, r: Rendering, root: Id, embedded: seq<string>, closure: set<Id>,
                             rows: seq<Row>)
  {
    && Exactly(y => NormalEdges(g, y), [root], closure)
    && closure <= g.packages.Keys && closure <= g.nodes.Keys && NoSharedRelease(g, closure)
    && EachRowIsOf(g, r, closure, rows)
    && (forall x :: x in closure ==> HasRow(g, r, x, rows))
    && (forall i, j :: 0 <= i < j < |rows| ==> rows[i].ref != rows[j].ref)
    && (forall i :: 0 <= i < |rows| ==> rows[i].ref !in embedded) && NoRepeats(embedded)
  }

  ghost predicate RowOf(g: Graph, r: Rendering, closure: set<Id>, x: Id, row: Row) {
    x in g.packages && closure <= g.packages.Keys && row.ref == BomRef(g, r, x)
        && row.dependsOn == DirectRefs(g, r, closure, x)
  }

  lemma Collides(g: Graph, r: Rendering, closure: set<Id>, ids: seq<Id>)
    requires ValidRendering(r) && closure <= g.packages.Keys && ids == r.sorted(closure)
    requires exists i, j :: 0 <= i < j < |ids| && ids[i] in g.packages && ids[j] in g.packages
               && BomRef(g, r, ids[i]) == BomRef(g, r, ids[j])
    ensures !NoSharedRelease(g, closure)
  {
    hide BomRef;
    var i, j :| 0 <= i < j < |ids| && ids[i] in g.packages && ids[j] in g.packages
                && BomRef(g, r, ids[i]) == BomRef(g, r, ids[j]);
    SameRefSameRelease(g, r, ids[i], ids[j]);
    var x, y := ids[i], ids[j];
    assert x in r.sorted(closure) && y in r.sorted(closure) && x != y;
  }

  lemma Distinct(g: Graph, r: Rendering, closure: set<Id>, ids: seq<Id>)
    requires ValidRendering(r) && closure <= g.packages.Keys && ids == r.sorted(closure)
    requires forall i, j :: 0 <= i < j < |ids| && ids[i] in g.packages && ids[j] in g.packages ==>
               BomRef(g, r, ids[i]) != BomRef(g, r, ids[j])
    ensures NoSharedRelease(g, closure)
  {
    hide BomRef;
    forall x, y | x in closure && y in closure && SameRelease(g, x, y)
      ensures x == y
    {
      SameRefSameRelease(g, r, x, y);
      assert x in r.sorted(closure) && y in r.sorted(closure);
      var i :| 0 <= i < |ids| && ids[i] == x;
      var j :| 0 <= j < |ids| && ids[j] == y;
    }
  }

  // Every `dependsOn` entry names a row, and the closure test drops none of a package's normal edges.
  lemma DependenciesResolve(g: Graph, r: Rendering, root: Id, embedded: seq<string>, closure: set<Id>, rows: seq<Row>,
                            x: Id, row: Row)
    requires Documented(g, r, root, embedded, closure, rows)
    requires x in closure && RowOf(g, r, closure, x, row)
    ensures forall d :: d in row.dependsOn ==> exists i :: 0 <= i < |rows| && rows[i].ref == d
    ensures forall y :: y in NormalEdges(g, x) ==> y in closure && BomRef(g, r, y) in row.dependsOn
  {
    hide BomRef, NormalEdges, Reaches;
    LeastClosed(y => NormalEdges(g, y), [root], closure, closure);
    forall y | y in NormalEdges(g, x)
      ensures y in closure && BomRef(g, r, y) in row.dependsOn
    {
      assert y in (z => NormalEdges(g, z))(x);
    }
  }
}
