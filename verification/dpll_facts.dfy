/** What the solver's search actually decides. Because untouched variables
    count as false and `simplify` empties every clause it keeps, the search
    is neither sound nor complete; the lemmas below exhibit both failures and
    the source's own test scenarios. */
module DpllFacts {
  import opened Cnf
  import opened DpllSpec

  /** Once a pure literal is eliminated, `dpll` answers true whatever the
      other clauses say: the simplified formula is empty or holds only empty
      clauses, and `choose_variable` then finds no variable. */
  lemma DpllTrueAfterPureLiteral(f: Formula, a: seq<bool>, v: int)
    requires NoZero(f) && Fits(f, |a|)
    requires f != [] && !HasEmpty(f)
    requires !HasEmpty(Propagated(f, a).0)
    requires PureEliminated(Propagated(f, a).0, Propagated(f, a).1).0
    ensures Dpll(f, a, v) == (true, PureEliminated(Propagated(f, a).0, Propagated(f, a).1).2)
  {
    var p := Propagated(f, a);
    var e := PureEliminated(p.0, p.1);
    var f2 := e.1;
    var q := FirstPure(Positives(p.0), Negatives(p.0), 1, |p.1|);
    if q >= 0 {
      SimplifiedEmpties(p.0, p.1[q := true]);
    } else {
      var r := FirstPure(Negatives(p.0), Positives(p.0), 1, |p.1|);
      SimplifiedEmpties(p.0, p.1[r := false]);
    }
    assert forall c :: c in f2 ==> c == [];
  }

  /** The counterexample to "true if satisfiable": x1 and not-x1 cannot both
      hold, yet `dpll` answers true because variable 2 is pure. */
  lemma DpllUnsound()
    ensures var f := [[1, 1, 1], [-1, -1, -1], [2, 2, 2]];
      NoZero(f) && Fits(f, 3) && !Satisfiable(f) && Dpll(f, [false, false, false], 1).0
  {
    var f := [[1, 1, 1], [-1, -1, -1], [2, 2, 2]];
    var a := [false, false, false];
    assert NoZero(f) && Fits(f, 3);
    assert FirstUnit(f) == -1;
    assert Propagated(f, a) == (f, a);
    assert 2 in Positives(f) by {
      assert [2, 2, 2] in f && 2 in [2, 2, 2];
    }
    assert 1 in Negatives(f) by {
      assert [-1, -1, -1] in f && -1 in [-1, -1, -1];
    }
    assert 2 !in Negatives(f);
    assert 1 in Positives(f) by {
      assert [1, 1, 1] in f && 1 in [1, 1, 1];
    }
    assert FirstPure(Positives(f), Negatives(f), 1, 3) == 2;
    DpllTrueAfterPureLiteral(f, a, 1);
    forall b: seq<bool> | Fits(f, |b|) ensures !Satisfies(b, f) {
      assert [1, 1, 1] in f && [-1, -1, -1] in f;
    }
  }

  /** `dpll` on a formula whose clauses are all empty: true exactly when
      there is no clause, with the assignment untouched. */
  lemma DpllOfEmptyClauses(f: Formula, a: seq<bool>, v: int)
    requires NoZero(f) && Fits(f, |a|)
    requires forall c :: c in f ==> c == []
    ensures Dpll(f, a, v) == (f == [], a)
  {
    if f != [] {
      assert f[0] in f;
    }
  }

  /** Without unit clauses and pure literals, `dpll` branches once on the
      smallest variable and, because `simplify` empties every surviving
      clause, each branch only checks whether the assignment with that one
      variable set satisfies the formula. */
  lemma DpllNoUnitNoPure(f: Formula, a: seq<bool>, v: int)
    requires NoZero(f) && Fits(f, |a|)
    requires f != [] && !HasEmpty(f)
    requires FirstUnit(f) == -1
    requires !PureEliminated(f, a).0
    ensures var nv := SmallestVar(f);
      0 < nv < |a|
      && Dpll(f, a, v).0 == (Satisfies(a[nv := true], f) || Satisfies(a[nv := false], f))
  {
    var nv := SmallestVar(f);
    assert f[0] in f && f[0] != [] && f[0][0] in f[0];
    assert Var(f[0][0]) in VarsOf(f);
    var c, l :| c in f && l in c && Var(l) == nv;
    var aT := a[nv := true];
    SimplifiedEmpties(f, aT);
    SimplifiedEmptyIffSatisfied(f, aT);
    DpllOfEmptyClauses(Simplified(f, aT), aT, nv + 1);
    var aF := aT[nv := false];
    assert aF == a[nv := false];
    SimplifiedEmpties(f, aF);
    SimplifiedEmptyIffSatisfied(f, aF);
    DpllOfEmptyClauses(Simplified(f, aF), aF, nv + 1);
  }

  lemma IncompleteNoPure()
    ensures var f := [[1, 2], [-1, 2], [-2, 3], [-3, 2]];
      NoZero(f) && Fits(f, 4) && !PureEliminated(f, [false, false, false, false]).0
  {
    var f := [[1, 2], [-1, 2], [-2, 3], [-3, 2]];
    assert f[0] in f && f[1] in f && f[2] in f && f[3] in f;
    assert Positives(f) == {1, 2, 3} by {
      assert 1 in f[0] && 2 in f[0] && 3 in f[2];
    }
    assert Negatives(f) == {1, 2, 3} by {
      assert -1 in f[1] && -2 in f[2] && -3 in f[3];
    }
    assert FirstPure(Positives(f), Negatives(f), 1, 4) == -1;
    assert FirstPure(Negatives(f), Positives(f), 1, 4) == -1;
  }

  lemma IncompleteSmallestVar()
    ensures SmallestVar([[1, 2], [-1, 2], [-2, 3], [-3, 2]]) == 1
  {
    var f := [[1, 2], [-1, 2], [-2, 3], [-3, 2]];
    assert f[0] in f && 1 in f[0];
    assert 1 in VarsOf(f);
  }

  lemma IncompleteBranchesFail()
    ensures var f := [[1, 2], [-1, 2], [-2, 3], [-3, 2]];
      var a := [false, false, false, false];
      Fits(f, 4) && !Satisfies(a[1 := true], f) && !Satisfies(a[1 := false], f)
  {
    var f := [[1, 2], [-1, 2], [-2, 3], [-3, 2]];
    var aT := [false, true, false, false];
    var aF := [false, false, false, false];
    assert f[0] in f && f[1] in f && f[2] in f && f[3] in f;
    assert Fits(f, 4);
    assert !LitTrue(-1, aT) && !LitTrue(2, aT);
    assert !ClauseTrue(f[1], aT);
    assert !LitTrue(1, aF) && !LitTrue(2, aF);
    assert !ClauseTrue(f[0], aF);
  }

  lemma IncompleteSatisfiable()
    ensures Satisfiable([[1, 2], [-1, 2], [-2, 3], [-3, 2]])
  {
    var f := [[1, 2], [-1, 2], [-2, 3], [-3, 2]];
    var model := [false, false, true, true];
    assert f[0] in f && f[1] in f && f[2] in f && f[3] in f;
    assert Fits(f, 4);
    assert LitTrue(2, model) && LitTrue(3, model);
    assert forall c :: c in f ==> 2 in c || 3 in c;
    assert Satisfies(model, f);
  }

  /** A satisfiable formula (x2 = x3 = true) for which `dpll` answers false:
      both branches on x1 leave x2 and x3 at their default false. */
  lemma DpllIncomplete()
    ensures var f := [[1, 2], [-1, 2], [-2, 3], [-3, 2]];
      NoZero(f) && Fits(f, 4) && Satisfiable(f) && !Dpll(f, [false, false, false, false], 1).0
  {
    var f := [[1, 2], [-1, 2], [-2, 3], [-3, 2]];
    var a := [false, false, false, false];
    IncompleteNoPure();
    IncompleteSmallestVar();
    IncompleteBranchesFail();
    IncompleteSatisfiable();
    assert f[0] in f;
    DpllNoUnitNoPure(f, a, 1);
  }
}
