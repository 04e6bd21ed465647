/** A registry on which the order of two updates decides whether the second succeeds. */
module RegistryExample {
  import opened Registry
  import opened RegistryAcceptance
  import opened RegistryChecks
  import opened RegistryRuns
  import opened RegistrySyncs
  import opened Wrappers

  const OLD: string := "0.22.2"
  const NEW: string := "0.23.0"
  const PLAIN_VIEW := View(None, None, None, None, None, None)
  const PLAIN_GPU := Gpu(PLAIN_VIEW, Some(Deliveries(Some(Jit(PLAIN_VIEW, map[], None)), None)))

  function Name(i: nat): string
    requires i < MATRIX_FAMILIES
  {
    [('a' as int + i) as char]
  }

  function Row(i: nat): Artifact
    requires i < MATRIX_FAMILIES
  {
    Artifact(Name(i), "sha", "oracle", "evidence", None, None, Some(PLAIN_GPU))
  }

  function Rows(): (r: seq<Artifact>)
    ensures |r| == MATRIX_FAMILIES && forall i :: 0 <= i < MATRIX_FAMILIES ==> r[i] == Row(i)
  {
    seq(MATRIX_FAMILIES, i requires 0 <= i < MATRIX_FAMILIES => Row(i))
  }

  // Every artifact was certified under the one release its oracle lists.
  function Certified(): Document {
    Document(Rows(), [Oracle("oracle", ORACLE_PACKAGE, [OLD])], [], map[], map[], None)
  }

  // Readings taken under the next release, and the evidence that certifies it.
  function Reading(): JitReading {
    var rows :=
      seq(MATRIX_FAMILIES, i requires 0 <= i < MATRIX_FAMILIES => JitRow(Name(i), "sha", "oracle", NEW, "evidence"));
    JitReading(true, rows, map[])
  }

  function Tokens(): FastokensBinding { FastokensBinding(true, map[], ORACLE_PACKAGE, NEW, "node") }

  function Widens(): Writer { Widening(Evidence({OLD, NEW}, {NEW}, {NEW}), {NEW}) }

  lemma {:induction false} RowOfName(n: nat, i: nat)
    requires i < n <= MATRIX_FAMILIES
    ensures RowOf(Rows()[..n], Name(i)) == Some(Row(i))
  {
    if i < n - 1 {
      assert Name(n - 1)[0] != Name(i)[0];
      assert Rows()[..n][..n - 1] == Rows()[..n - 1];
      RowOfName(n - 1, i);
    }
  }

  lemma OnlyOracle()
    ensures OracleOf(Certified().oracles, "oracle") == Some(Oracle("oracle", ORACLE_PACKAGE, [OLD]))
  {
  }

  lemma RowNeedsNew(i: nat, more: set<string>)
    requires i < MATRIX_FAMILIES
    ensures AdmitsRowWith(Certified(), Reading().rows[i], more) <==> NEW in more
  {
    hide RowOf, OracleOf;
    OnlyOracle();
    RowOfName(MATRIX_FAMILIES, i);
    assert Rows()[..MATRIX_FAMILIES] == Rows();
    assert NEW != OLD by { assert NEW[3] != OLD[3]; }
  }

  lemma JitNeedsNew(more: set<string>)
    ensures AcceptsWith(DirectJit(Reading()), Certified(), more) <==> NEW in more
  {
    hide AdmitsRowWith;
    var d, r := Certified(), Reading();
    forall k | 0 <= k < |r.rows| ensures AdmitsRowWith(d, r.rows[k], more) <==> NEW in more { RowNeedsNew(k, more); }
    RowNeedsNew(0, more);
    var read := set k | 0 <= k < |r.rows| :: r.rows[k].family;
    forall f
      ensures f in Families(d.artifacts) <==> f in read
    {
      if f in Families(d.artifacts) {
        var i :| 0 <= i < |d.artifacts| && d.artifacts[i].family == f;
        assert r.rows[i].family == f;
      }
      if f in read {
        var i :| 0 <= i < |r.rows| && r.rows[i].family == f;
        assert d.artifacts[i].family == f;
      }
    }
  }

  lemma TokensNeedNew(more: set<string>)
    ensures AcceptsWith(Fastokens(Tokens()), Certified(), more) <==> NEW in more
  {
    var d := Certified();
    assert d.oracles[0].package == ORACLE_PACKAGE;
    assert NEW != OLD by { assert NEW[3] != OLD[3]; }
  }

  lemma WideningAccepted()
    ensures Accepts(Widens(), Certified())
  {
    assert Certified().oracles[0].package == ORACLE_PACKAGE;
  }

  // A direct-JIT and a Fastokens update fail before the widening and succeed after it.
  lemma OrderDecides(env: Env, w: Writer)
    requires ValidEnv(env) && (w == DirectJit(Reading()) || w == Fastokens(Tokens()))
    ensures Run(env, [Update(w), Update(Widens())], Certified()).None?
    ensures Run(env, [Update(Widens()), Update(w)], Certified()).Some?
  {
    hide Run, AcceptsWith, Accepts, Certified, Reading, Tokens, CertifiedDevices, ValidEnv;
    forall more: set<string> ensures AcceptsWith(w, Certified(), more) <==> NEW in more {
      JitNeedsNew(more);
      TokensNeedNew(more);
    }
    var first, last := [Update(w), Update(Widens())], [Update(Widens()), Update(w)];
    RunSucceeds(env, first, Certified());
    RunSucceeds(env, last, Certified());
    assert first[..0] == [] && last[..0] == [] && last[..1] == [Update(Widens())] && last[..1][..0] == [];
    assert first[0] == Update(w) && last[0] == Update(Widens()) && last[1] == Update(w);
    WideningAccepted();
    AcceptsWithNothing(Widens(), Certified());
    assert Added(last[..1]) == {NEW};
    assert !ReadyAt(first, Certified(), 0);
  }

  // The embedded reference is added even where its own release is out of range: a widening by it
  // alone is accepted, and its own check then fails.
  lemma ReferenceUnexamined(env: Env, e: Evidence)
    requires ValidEnv(env) && EMBEDDED_REFERENCE !in e.inRange
    ensures Accepts(Widening(e, {EMBEDDED_REFERENCE}), Certified())
    ensures !Checked(env, Widening(e, {EMBEDDED_REFERENCE}),
                     Apply(env, Widening(e, {EMBEDDED_REFERENCE}), Certified()).value)
  {
    hide CertifiedVersions, Checked, Apply, ValidEnv;
    assert Certified().oracles[0].package == ORACLE_PACKAGE;
    assert {EMBEDDED_REFERENCE} - {EMBEDDED_REFERENCE} == {};
    UpdateIsChecked(env, Widening(e, {EMBEDDED_REFERENCE}), Certified());
    assert EMBEDDED_REFERENCE in CertifiedVersions(Certified().oracles) + {EMBEDDED_REFERENCE};
  }
}
