/** What normalizing does to a printed lock file: the versions of the seven workspace packages, and no others. */
module LockPrinter {
  import opened FieldLines
  import opened LockNormalization
  import opened TextLines
  import opened VersionNormalization
  import opened Wrappers

  // A package of the lock file, with one more field of any other key.
  datatype Pinned = Pinned(name: string, version: string, key: string, value: string)

  function Block(p: Pinned): (r: seq<string>)
    ensures |r| == 5
  {
    ["[[package]]\n", FieldLine("name", p.name), FieldLine("version", p.version), FieldLine(p.key, p.value), "\n"]
  }

  function Blocks(ps: seq<Pinned>): (r: seq<string>)
    ensures |r| == 5 * |ps|
  {
    if ps == [] then [] else Blocks(ps[..|ps| - 1]) + Block(ps[|ps| - 1])
  }

  // The lock file that pins these packages.
  function Render(ps: seq<Pinned>): string { Join(Blocks(ps)) }

  ghost predicate PrintableOne(p: Pinned) {
    && NoneOf(p.name, '"') && NoBreaks(p.name) && NoneOf(p.version, '"') && NoBreaks(p.version)
    && IsKey(p.key) && p.key != "name" && p.key != "version" && NoBreaks(p.value)
  }

  ghost predicate Printable(ps: seq<Pinned>) { forall k :: 0 <= k < |ps| ==> PrintableOne(ps[k]) }

  predicate IsOurs(name: string) {
    || name == "toktier" || name == "toktier-cuda-driver" || name == "toktier-gigatoken-core" || name == "toktier-py"
    || name == "toktier-routing-core" || name == "toktier-store-core" || name == "toktier-store-sqlite"
  }

  function Unversioned(p: Pinned): Pinned { if IsOurs(p.name) then p.(version := "0.0.0") else p }

  function AllUnversioned(ps: seq<Pinned>): (r: seq<Pinned>)
    ensures |r| == |ps| && forall k :: 0 <= k < |ps| ==> r[k] == Unversioned(ps[k])
  {
    seq(|ps|, k requires 0 <= k < |ps| => Unversioned(ps[k]))
  }

  // --- one line ---------------------------------------------------------------

  lemma HeaderLine()
    ensures IsStart("[[package]]\n") && !HasEquals("[[package]]\n") && IsLine("[[package]]\n")
  {
    var line := "[[package]]\n";
    StripIs(line, 0, 11);
    BreakAt(line, 0, 11);
  }

  lemma BlankLine()
    ensures !IsStart("\n") && !HasEquals("\n") && IsLine("\n")
  {
    BreakAt("\n", 0, 0);
    assert |Strip("\n")| <= 1;
  }

  lemma FieldSpan(key: string, v: string)
    requires IsKey(key) && NoneOf(v, '"')
    ensures QuotedValue(FieldLine(key, v)) == Some(v)
    ensures ReplaceAssignment(FieldLine(key, v), "0.0.0") == FieldLine(key, "0.0.0")
  {
    hide AssignmentSpan;
    FieldQuotes(key, v);
    var line, n := FieldLine(key, v), |key| + 4;
    assert line[n..n + |v|] == v;
    assert line[..n] == key + " = \"" && line[n + |v|..] == "\"\n";
  }

  lemma FieldNoHeader(key: string, v: string)
    requires IsKey(key)
    ensures !IsStart(FieldLine(key, v))
    ensures forall other :: IsField(FieldLine(key, v), other) <==> other == key
  {
    var line := FieldLine(key, v);
    FieldKey(key, v);
    KeyStartsLine(line);
    assert PACKAGE_HEADER[0] == '[';
  }

  // --- where the lines of a block stand ---------------------------------------

  lemma {:induction false} BlockAt(ps: seq<Pinned>, k: nat, r: nat)
    requires k < |ps| && r < 5
    ensures Blocks(ps)[5 * k + r] == Block(ps[k])[r]
  {
    hide Block;
    if k < |ps| - 1 {
      BlockAt(ps[..|ps| - 1], k, r);
    }
  }

  // What the pass reads of line `r` of a block.
  lemma LineReads(p: Pinned, r: nat)
    requires r < 5 && PrintableOne(p)
    ensures IsStart(Block(p)[r]) <==> r == 0
    ensures IsField(Block(p)[r], NAME) <==> r == 1
    ensures IsField(Block(p)[r], VERSION) <==> r == 2
  {
    hide IsStart, HasEquals, Key, FieldLine, IsKey;
    OwnKeys();
    HeaderLine();
    BlankLine();
    FieldNoHeader("name", p.name);
    FieldNoHeader("version", p.version);
    FieldNoHeader(p.key, p.value);
    assert NAME != VERSION by { assert NAME[0] != VERSION[0]; }
  }

  lemma LineReadsAt(ps: seq<Pinned>, k: nat, r: nat)
    requires Printable(ps) && k < |ps| && r < 5
    ensures IsStart(Blocks(ps)[5 * k + r]) <==> r == 0
    ensures IsField(Blocks(ps)[5 * k + r], NAME) <==> r == 1
    ensures IsField(Blocks(ps)[5 * k + r], VERSION) <==> r == 2
  {
    hide IsStart, IsField, Blocks, Block, PrintableOne;
    BlockAt(ps, k, r);
    LineReads(ps[k], r);
  }

  lemma OnlyField(lines: seq<string>, key: string, from: nat, stop: nat, at: nat)
    requires from <= at < stop <= |lines|
    requires forall i :: from <= i < stop ==> (IsField(lines[i], key) <==> i == at)
    ensures LastField(lines, key, from, stop) == Some(at)
  {
    hide IsField;
  }

  // The block a line stands in, and its two fields.
  lemma BlockOf(ps: seq<Pinned>, k: nat, r: nat)
    requires Printable(ps) && k < |ps| && r < 5
    ensures var lines, start := Blocks(ps), 5 * k;
            && LastStart(lines, start + r + 1) == Some(start) && NextStart(lines, start + 1) == start + 5
            && LastField(lines, NAME, start + 1, start + 5) == Some(start + 1)
            && LastField(lines, VERSION, start + 1, start + 5) == Some(start + 2)
  {
    hide IsStart, IsField, Blocks, LastStart, NextStart, LastField, PrintableOne;
    var lines, start := Blocks(ps), 5 * k;
    forall j | start <= j < start + 5
      ensures IsStart(lines[j]) <==> j == start
      ensures IsField(lines[j], NAME) <==> j == start + 1
      ensures IsField(lines[j], VERSION) <==> j == start + 2
    {
      LineReadsAt(ps, k, j - start);
    }
    if start + 5 < |lines| { LineReadsAt(ps, k + 1, 0); }
    LastStartIs(lines, start + r + 1, start);
    NextStartIs(lines, start + 1, start + 5);
    OnlyField(lines, NAME, start + 1, start + 5, start + 1);
    OnlyField(lines, VERSION, start + 1, start + 5, start + 2);
  }

  lemma RewrittenMeans(ps: seq<Pinned>, k: nat, r: nat)
    requires Printable(ps) && k < |ps| && r < 5
    ensures Rewritten(Blocks(ps), 5 * k + r) <==> r == 2 && IsOurs(ps[k].name)
  {
    hide *;
    BlockOf(ps, k, r);
    NameAt(ps, k);
    NamedBlock(Blocks(ps), 5 * k + 1, ps[k].name);
    Decided(Blocks(ps), 5 * k + r, 5 * k, 5 * k + 5);
  }

  lemma Decided(lines: seq<string>, i: nat, start: nat, stop: nat)
    requires start <= i < |lines| && start < stop <= |lines|
    requires LastStart(lines, i + 1) == Some(start) && NextStart(lines, start + 1) == stop
    ensures Rewritten(lines, i) <==>
              LastField(lines, VERSION, start + 1, stop) == Some(i)
              && OfWorkspace(lines, LastField(lines, NAME, start + 1, stop))
  {
    hide LastStart, NextStart, LastField, OfWorkspace;
  }

  lemma NameAt(ps: seq<Pinned>, k: nat)
    requires Printable(ps) && k < |ps|
    ensures QuotedValue(Blocks(ps)[5 * k + 1]) == Some(ps[k].name)
  {
    hide Blocks, QuotedValue, FieldLine, IsKey;
    OwnKeys();
    BlockAt(ps, k, 1);
    FieldSpan("name", ps[k].name);
  }

  lemma NamedBlock(lines: seq<string>, at: nat, name: string)
    requires at < |lines| && QuotedValue(lines[at]) == Some(name)
    ensures OfWorkspace(lines, Some(at)) <==> IsOurs(name)
  {
    hide QuotedValue;
  }

  // --- the whole file ---------------------------------------------------------

  lemma BlockRewritten(p: Pinned, r: nat)
    requires PrintableOne(p) && r < 5
    ensures Block(Unversioned(p))[r]
         == if r == 2 && IsOurs(p.name) then ReplaceAssignment(Block(p)[r], PLAIN) else Block(p)[r]
  {
    hide ReplaceAssignment, FieldLine, IsOurs, IsKey;
    OwnKeys();
    FieldSpan("version", p.version);
  }

  lemma NormalBlockLine(ps: seq<Pinned>, k: nat, r: nat)
    requires Printable(ps) && k < |ps| && r < 5
    ensures NormalLine(Blocks(ps), 5 * k + r) == Blocks(AllUnversioned(ps))[5 * k + r]
  {
    hide Blocks, Block, Rewritten, ReplaceAssignment, IsOurs, PrintableOne, Unversioned;
    RewrittenMeans(ps, k, r);
    BlockAt(ps, k, r);
    BlockAt(AllUnversioned(ps), k, r);
    BlockRewritten(ps[k], r);
  }

  lemma BlocksAreLines(ps: seq<Pinned>)
    requires Printable(ps)
    ensures AreLines(Blocks(ps))
  {
    hide Blocks, AreLines, IsLine, PrintableOne;
    var lines := Blocks(ps);
    forall i | 0 <= i < |lines|
      ensures IsLine(lines[i]) && lines[i] != "" && lines[i][|lines[i]| - 1] == '\n'
    {
      BlockAt(ps, i / 5, i % 5);
      BlockIsLines(ps[i / 5], i % 5);
    }
    LinesAre(lines);
  }

  lemma BlockIsLines(p: Pinned, r: nat)
    requires PrintableOne(p) && r < 5
    ensures var line := Block(p)[r]; IsLine(line) && line != "" && line[|line| - 1] == '\n'
  {
    hide LineEnd, IsKey;
    OwnKeys();
    HeaderLine();
    BlankLine();
    FieldIsLine("name", p.name);
    FieldIsLine("version", p.version);
    FieldIsLine(p.key, p.value);
  }

  // Normalizing a printed lock file is printing it with "0.0.0" for each of the seven packages.
  lemma NormalizePrinted(ps: seq<Pinned>)
    requires Printable(ps)
    ensures Normalize(Render(ps)) == Render(AllUnversioned(ps))
  {
    hide Blocks, NormalLine, AreLines, Join, SplitLines;
    BlocksAreLines(ps);
    SplitJoin(Blocks(ps));
    forall i | 0 <= i < 5 * |ps| ensures NormalLine(Blocks(ps), i) == Blocks(AllUnversioned(ps))[i] {
      NormalBlockLine(ps, i / 5, i % 5);
    }
    assert NormalLines(Blocks(ps)) == Blocks(AllUnversioned(ps));
  }
}
