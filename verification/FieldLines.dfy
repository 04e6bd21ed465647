/** A printed assignment, `key = "value"`, and where everything in it is read again. */
module FieldLines {
  import opened TextLines
  import opened VersionNormalization
  import opened Wrappers

  function FieldLine(key: string, value: string): string { key + " = \"" + value + "\"\n" }

  // A key as it is read back: no equals sign, no space around it, and no bracket in front.
  predicate IsKey(key: string) {
    && key != "" && NoneOf(key, '=') && NoBreaks(key) && key[0] != '['
    && !IsSpace(key[0]) && !IsSpace(key[|key| - 1])
  }

  lemma OwnKeys()
    ensures IsKey("name") && IsKey("version")
  {
  }

  lemma StripIs(line: string, i: nat, j: nat)
    requires i < j <= |line| && !IsSpace(line[i]) && !IsSpace(line[j - 1])
    requires forall k :: 0 <= k < i || j <= k < |line| ==> IsSpace(line[k])
    ensures Strip(line) == line[i..j]
  {
    hide IsSpace;
    assert SkipSpace(line, 0) == i;
    assert TrimEnd(line) == j;
  }

  lemma FieldIsLine(key: string, v: string)
    requires IsKey(key) && NoBreaks(v)
    ensures IsLine(FieldLine(key, v))
  {
    var line := FieldLine(key, v);
    forall k | 0 <= k < |line| - 1
      ensures !IsBreak(line[k])
    {
      if |key| + 4 <= k < |line| - 2 { assert line[k] == v[k - |key| - 4]; }
    }
    BreakAt(line, 0, |line| - 1);
  }

  lemma FieldKey(key: string, v: string)
    requires IsKey(key)
    ensures EqualsAt(FieldLine(key, v)) == |key| + 1 && Key(FieldLine(key, v)) == key
  {
    var line := FieldLine(key, v);
    FindExactly(line, '=', 0, |key| + 1);
    var left := line[..|key| + 1];
    assert left == key + " ";
    StripIs(left, 0, |key|);
    assert left[0..|key|] == key;
  }

  lemma FieldQuotes(key: string, v: string)
    requires IsKey(key) && NoneOf(v, '"')
    ensures AssignmentSpan(FieldLine(key, v)) == Some(Span(|key| + 4, |key| + 4 + |v|))
  {
    hide EqualsAt, FindFrom, Key;
    var line, q := FieldLine(key, v), |key| + 3;
    FieldKey(key, v);
    assert line[q - 1] == ' ' && line[q] == '"';
    assert SkipSpace(line, q - 1) == q;
    forall k | q + 1 <= k < q + 1 + |v| ensures line[k] != '"' { assert line[k] == v[k - q - 1]; }
    FindExactly(line, '"', q + 1, q + 1 + |v|);
  }
}
