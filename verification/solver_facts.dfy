/** Properties of the solver class as a whole: what `to_string` mentions, the
    search's answers on the formulas the source's tests use, and what
    `are_equivalent` does and does not establish. */
module SolverFacts {
  import opened Results
  import opened Text
  import opened Cnf
  import opened DpllSpec
  import opened DpllFacts
  import opened SatSolver

  /** The variable of every literal appears as "x<n>" in `to_string`. */
  lemma FormulaTextMentionsVariable(f: Formula, k: nat, m: nat)
    requires k < |f| && m < |f[k]|
    ensures Infix("x" + IntToString(Var(f[k][m])), FormulaText(f))
  {
    var l := f[k][m];
    var name := "x" + IntToString(Var(l));
    if l < 0 {
      InfixMiddle(name, "NOT ", "");
      assert "NOT " + name + "" == LiteralText(l);
    } else {
      InfixMiddle(name, "", "");
      assert "" + name + "" == LiteralText(l);
    }
    var lits := LiteralTexts(f[k]);
    assert lits[m] == LiteralText(l);
    JoinHasPart(" OR ", lits, m);
    InfixTrans(name, LiteralText(l), Join(" OR ", lits));
    InfixMiddle(Join(" OR ", lits), "(", ")");
    InfixTrans(name, Join(" OR ", lits), ClauseText(f[k]));
    var texts := ClauseTexts(f);
    JoinHasPart(" AND ", texts, k);
    InfixTrans(name, ClauseText(f[k]), FormulaText(f));
  }

  /** Two clauses put " AND " in the text, a clause of two literals " OR ". */
  lemma FormulaTextConnectives(f: Formula, k: nat)
    requires k < |f|
    ensures |f| >= 2 ==> Infix(" AND ", FormulaText(f))
    ensures |f[k]| >= 2 ==> Infix(" OR ", FormulaText(f))
  {
    if |f| >= 2 {
      JoinHasSep(" AND ", ClauseTexts(f));
    }
    if |f[k]| >= 2 {
      var lits := LiteralTexts(f[k]);
      JoinHasSep(" OR ", lits);
      InfixMiddle(Join(" OR ", lits), "(", ")");
      InfixTrans(" OR ", Join(" OR ", lits), ClauseText(f[k]));
      JoinHasPart(" AND ", ClauseTexts(f), k);
      InfixTrans(" OR ", ClauseText(f[k]), FormulaText(f));
    }
  }

  lemma OneClauseShape()
    ensures var f := [[1, 2, 3]];
      MaxVar(f) == 3 && NoZero(f) && Fits(f, 4) && FirstUnit(f) == -1
  {
    var f := [[1, 2, 3]];
    assert f[..0] == [];
    assert [1, 2, 3][..2] == [1, 2] && [1, 2][..1] == [1] && [1][..0] == [];
    assert f[0] in f;
  }

  lemma OneClausePure()
    ensures var f := [[1, 2, 3]];
      var a := [false, false, false, false];
      NoZero(f) && Fits(f, 4) && PureEliminated(f, a) == (true, [], a[1 := true])
  {
    var f := [[1, 2, 3]];
    var a := [false, false, false, false];
    assert f[0] in f;
    assert 1 in Positives(f) by { assert 1 in f[0]; }
    assert Negatives(f) == {};
    assert FirstPure(Positives(f), Negatives(f), 1, 4) == 1;
    var aT := a[1 := true];
    assert HasTrue(f[0], aT) by { assert LitTrue(f[0][0], aT); }
    assert f[..0] == [];
    assert Simplified(f, aT) == [];
  }

  /** (x1 OR x2 OR x3): x1 is pure, so the search sets it and stops. */
  lemma SearchOneClause()
    ensures Search([[1, 2, 3]]) == (true, [false, true, false, false])
  {
    var f := [[1, 2, 3]];
    var a := [false, false, false, false];
    OneClauseShape();
    OneClausePure();
    assert seq(4, _ => false) == a;
    assert Propagated(f, a) == (f, a);
    assert f[0] in f;
    DpllTrueAfterPureLiteral(f, a, 1);
    assert a[1 := true] == [false, true, false, false];
    assert Search(f) == Dpll(f, a, 1);
  }

  lemma ContradictionShape()
    ensures var f := [[1, 1, 1], [-1, -1, -1]];
      MaxVar(f) == 1 && NoZero(f) && Fits(f, 2) && SmallestVar(f) == 1
  {
    var f := [[1, 1, 1], [-1, -1, -1]];
    assert f[..1] == [[1, 1, 1]] && f[..1][..0] == f[..0];
    assert [1, 1, 1][..2] == [1, 1] && [1, 1][..1] == [1] && [1][..0] == [];
    assert [-1, -1, -1][..2] == [-1, -1] && [-1, -1][..1] == [-1] && [-1][..0] == [];
    assert f[0] in f && f[1] in f;
    assert 1 in f[0];
    assert 1 in VarsOf(f);
  }

  lemma ContradictionNoPure()
    ensures var f := [[1, 1, 1], [-1, -1, -1]];
      NoZero(f) && Fits(f, 2) && !PureEliminated(f, [false, false]).0
  {
    var f := [[1, 1, 1], [-1, -1, -1]];
    assert f[0] in f && f[1] in f;
    assert Positives(f) == {1} by { assert 1 in f[0]; }
    assert Negatives(f) == {1} by { assert -1 in f[1]; }
    assert FirstPure(Positives(f), Negatives(f), 1, 2) == -1;
    assert FirstPure(Negatives(f), Positives(f), 1, 2) == -1;
  }

  lemma ContradictionBranchesFail()
    ensures var f := [[1, 1, 1], [-1, -1, -1]];
      Fits(f, 2) && !Satisfies([false, true], f) && !Satisfies([false, false], f)
  {
    var f := [[1, 1, 1], [-1, -1, -1]];
    assert f[0] in f && f[1] in f;
    assert !ClauseTrue(f[1], [false, true]);
    assert !ClauseTrue(f[0], [false, false]);
  }

  /** (x1 OR x1 OR x1) AND (NOT x1 OR NOT x1 OR NOT x1): both branches on
      x1 leave an empty clause. */
  lemma SearchContradiction()
    ensures !Search([[1, 1, 1], [-1, -1, -1]]).0
  {
    var f := [[1, 1, 1], [-1, -1, -1]];
    var a := [false, false];
    ContradictionShape();
    ContradictionNoPure();
    ContradictionBranchesFail();
    assert seq(2, _ => false) == a;
    assert f[0] in f;
    assert a[1 := true] == [false, true] && a[1 := false] == a;
    DpllNoUnitNoPure(f, a, 1);
  }

  lemma UnitSearch(l: int)
    requires l == 1 || l == -1
    ensures Search([[l]]).0
  {
    var f := [[l]];
    var a := [false, false];
    assert MaxVar(f) == 1 by {
      assert f[..0] == [] && [l][..0] == [];
      assert MaxVarOfClause([l]) == 1;
    }
    assert seq(2, _ => false) == a;
    assert f[0] in f;
    assert FirstUnit(f) == 0;
    var a' := a[1 := l > 0];
    assert HasTrue(f[0], a') by { assert LitTrue(f[0][0], a'); }
    assert f[..0] == [];
    assert Simplified(f, a') == [];
    assert Propagated(f, a) == ([], a');
    assert FirstPure(Positives([]), Negatives([]), 1, 2) == -1;
    assert FirstPure(Negatives([]), Positives([]), 1, 2) == -1;
    assert Search(f) == Dpll(f, a, 1);
  }

  /** `are_equivalent` reports x1 and NOT x1 equivalent, since both are
      satisfiable, although no assignment satisfies both. */
  lemma AreEquivalentIgnoresModels()
    ensures Search([[1]]).0 && Search([[-1]]).0
    ensures forall a: seq<bool> :: Fits([[1]], |a|) && Fits([[-1]], |a|) ==>
      !(Satisfies(a, [[1]]) && Satisfies(a, [[-1]]))
  {
    UnitSearch(1);
    UnitSearch(-1);
    NoCommonModel();
  }

  lemma NoCommonModel()
    ensures forall a: seq<bool> :: Fits([[1]], |a|) && Fits([[-1]], |a|) ==>
      !(Satisfies(a, [[1]]) && Satisfies(a, [[-1]]))
  {
    forall a: seq<bool> | Fits([[1]], |a|) && Fits([[-1]], |a|)
      ensures !(Satisfies(a, [[1]]) && Satisfies(a, [[-1]]))
    {
      assert [1] in [[1]] && [-1] in [[-1]];
    }
  }

  lemma UnsoundMaxVar()
    ensures MaxVar([[1, 1, 1], [-1, -1, -1], [2, 2, 2]]) == 2
  {
    var f := [[1, 1, 1], [-1, -1, -1], [2, 2, 2]];
    MaxVarBounds(f);
    assert f[2] in f && 2 in f[2];
  }

  lemma IncompleteMaxVar()
    ensures MaxVar([[1, 2], [-1, 2], [-2, 3], [-3, 2]]) == 3
  {
    var f := [[1, 2], [-1, 2], [-2, 3], [-3, 2]];
    MaxVarBounds(f);
    assert f[2] in f && 3 in f[2];
  }

  /** The solver as a whole answers true for the unsatisfiable formula
      (x1 OR x1 OR x1) AND (NOT x1 OR NOT x1 OR NOT x1) AND (x2 OR x2 OR x2). */
  lemma SearchUnsound()
    ensures var f := [[1, 1, 1], [-1, -1, -1], [2, 2, 2]];
      NoZero(f) && !Satisfiable(f) && Search(f).0
  {
    var f := [[1, 1, 1], [-1, -1, -1], [2, 2, 2]];
    DpllUnsound();
    UnsoundMaxVar();
    assert seq(3, _ => false) == [false, false, false];
  }

  /** The solver as a whole answers false for the satisfiable formula
      (x1 OR x2) AND (NOT x1 OR x2) AND (NOT x2 OR x3) AND (NOT x3 OR x2). */
  lemma SearchIncomplete()
    ensures var f := [[1, 2], [-1, 2], [-2, 3], [-3, 2]];
      NoZero(f) && Satisfiable(f) && !Search(f).0
  {
    var f := [[1, 2], [-1, 2], [-2, 3], [-3, 2]];
    DpllIncomplete();
    IncompleteMaxVar();
    assert seq(4, _ => false) == [false, false, false, false];
  }

  lemma TwoClauseFacts()
    ensures var f := [[1, 2, 3], [-1, 2, -3]];
      var text := FormulaText(f);
      MaxVar(f) == 3
      && Infix("x1", text) && Infix("x2", text) && Infix("x3", text)
      && Infix(" OR ", text) && Infix(" AND ", text)
  {
    var f := [[1, 2, 3], [-1, 2, -3]];
    MaxVarBounds(f);
    assert f[0] in f && f[1] in f && 3 in f[0];
    FormulaTextMentionsVariable(f, 0, 0);
    FormulaTextMentionsVariable(f, 0, 1);
    FormulaTextMentionsVariable(f, 0, 2);
    assert DigitChar(1) == '1' && DigitChar(2) == '2' && DigitChar(3) == '3';
    assert "x" + IntToString(Var(f[0][0])) == "x1";
    assert "x" + IntToString(Var(f[0][1])) == "x2";
    assert "x" + IntToString(Var(f[0][2])) == "x3";
    FormulaTextConnectives(f, 0);
  }

  /** Two 3-literal clauses over x1..x3: two clauses, three variables, all
      of size three, and a text naming each variable with both connectives. */
  method TwoClauseScenario() returns (clauses: int, variables: int, is3: bool, text: string)
    ensures clauses == 2 && variables == 3 && is3
    ensures Infix("x1", text) && Infix("x2", text) && Infix("x3", text)
    ensures Infix(" OR ", text) && Infix(" AND ", text)
  {
    var solver := new SATSolver();
    solver.AddClause([1, 2, 3]);
    solver.AddClause([-1, 2, -3]);
    assert solver.formula == [[1, 2, 3], [-1, 2, -3]];
    TwoClauseFacts();
    clauses := solver.GetNumClauses();
    variables := solver.GetNumVariables();
    is3 := solver.Is3Sat();
    text := solver.ToString();
  }

  /** `clear` forgets every clause and variable. */
  method ClearScenario() returns (clauses: int, variables: int)
    ensures clauses == 0 && variables == 0
  {
    var solver := new SATSolver();
    solver.AddClause([1, 2, 3]);
    solver.Clear();
    clauses := solver.GetNumClauses();
    variables := solver.GetNumVariables();
  }

  /** (x1 OR x2 OR x3) is reported satisfiable, with three values returned. */
  method SatisfiableScenario() returns (sat: bool, assignment: Option<seq<bool>>)
    ensures sat && assignment == Some([true, false, false])
  {
    var solver := new SATSolver();
    solver.AddClause([1, 2, 3]);
    OneClauseShape();
    SearchOneClause();
    sat := solver.IsSatisfiable();
    assignment := solver.GetSatisfyingAssignment();
  }

  /** x1 and NOT x1 as 3-literal clauses are reported unsatisfiable, with an
      empty assignment. */
  method UnsatisfiableScenario() returns (sat: bool, assignment: Option<seq<bool>>)
    ensures !sat && assignment == Some([])
  {
    var solver := new SATSolver();
    solver.AddClause([1, 1, 1]);
    solver.AddClause([-1, -1, -1]);
    assert solver.formula == [[1, 1, 1], [-1, -1, -1]];
    ContradictionShape();
    SearchContradiction();
    sat := solver.IsSatisfiable();
    assignment := solver.GetSatisfyingAssignment();
  }

  /** Asking a solver with no clauses for an assignment reaches the
      undefined read. */
  method EmptyAssignmentScenario() returns (assignment: Option<seq<bool>>)
    ensures assignment == None
  {
    var solver := new SATSolver();
    assignment := solver.GetSatisfyingAssignment();
  }
}
