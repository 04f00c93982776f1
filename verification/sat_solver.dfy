/** The C++ class `sat_solver::SATSolver`: a formula that grows clause by
    clause, the largest variable seen so far, and the cached result of the
    last search. The search helpers work on a copy of the formula, passed in
    and handed back as a value, and on the shared assignment array, which
    they update in place. */
module SatSolver {
  import opened Results
  import opened Text
  import opened Cnf
  import opened DpllSpec

  /** What `is_satisfiable` computes for a non-empty formula: `dpll` from
      variable 1 on an all-false assignment indexed 0 to the largest
      variable. For the empty formula the search answers true at once. */
  function Search(f: Formula): (r: (bool, seq<bool>))
    requires NoZero(f)
    ensures |r.1| == MaxVar(f) + 1
    ensures f == [] ==> r.0
  {
    MaxVarBounds(f);
    DpllSpec.Dpll(f, AllFalse(MaxVar(f) + 1), 1)
  }

  function AllFalse(n: nat): (s: seq<bool>)
    ensures |s| == n
  {
    seq(n, _ => false)
  }

  /** The search from the all-false start is `Search`. */
  lemma SearchFrom(f: Formula, start: seq<bool>, sat: bool, final: seq<bool>)
    requires NoZero(f) && start == AllFalse(MaxVar(f) + 1) && Fits(f, |start|)
    requires (sat, final) == DpllSpec.Dpll(f, start, 1)
    ensures Search(f) == (sat, final)
  {
  }

  lemma IsAllFalse(s: seq<bool>)
    requires forall i :: 0 <= i < |s| ==> !s[i]
    ensures s == AllFalse(|s|)
  {
  }

  /** `to_string`'s text of one literal. */
  function LiteralText(l: int): string {
    if l < 0 then "NOT x" + IntToString(-l) else "x" + IntToString(l)
  }

  function LiteralTexts(c: Clause): (ts: seq<string>)
    ensures |ts| == |c|
  {
    seq(|c|, i requires 0 <= i < |c| => LiteralText(c[i]))
  }

  /** A clause as `to_string` writes it: literals joined by " OR ", in
      parentheses. */
  function ClauseText(c: Clause): string {
    "(" + Join(" OR ", LiteralTexts(c)) + ")"
  }

  function ClauseTexts(f: Formula): (ts: seq<string>)
    ensures |ts| == |f|
  {
    seq(|f|, i requires 0 <= i < |f| => ClauseText(f[i]))
  }

  /** The whole formula as `to_string` writes it: clauses joined by " AND ". */
  function FormulaText(f: Formula): string {
    Join(" AND ", ClauseTexts(f))
  }

  /** One round of a join loop: the separator and the next part extend the
      joined prefix by one part. */
  lemma JoinRound(pre: string, sep: string, parts: seq<string>, j: nat, r: string)
    requires j < |parts| && r == pre + Join(sep, parts[..j])
    ensures j > 0 ==> r + sep + parts[j] == pre + Join(sep, parts[..j + 1])
    ensures j == 0 ==> r + parts[j] == pre + Join(sep, parts[..j + 1])
  {
    assert parts[..j + 1] == parts[..j] + [parts[j]];
    if j > 0 {
      JoinSnoc(sep, parts[..j], parts[j]);
      assert pre + (Join(sep, parts[..j]) + sep + parts[j]) == pre + Join(sep, parts[..j]) + sep + parts[j];
    } else {
      assert parts[..j + 1] == [parts[j]];
      assert Join(sep, parts[..j]) == "";
      assert r == pre + "";
    }
  }

  /** The literal the clause loop of `simplify` looks at is the next
      literal of the clause. */
  lemma KeptAt(c: Clause, a: seq<bool>, kept: Clause, j: nat, m: nat)
    requires ClauseFits(c, |a|) && m <= |c| && j < |kept| && kept[j..] == c[m..]
    ensures m < |c| && kept[j] == c[m] && Var(kept[j]) < |a|
  {
    assert kept[j..][0] == kept[j];
    assert c[m] in c;
  }

  lemma HasTrueAt(c: Clause, a: seq<bool>, m: nat)
    requires ClauseFits(c, |a|) && m < |c|
    requires c[m] in c && LitTrue(c[m], a)
    ensures HasTrue(c, a)
  {
  }

  /** One more literal of the clause: `Kept` of the longer prefix, from
      that of the shorter one. */
  lemma PrefixKept(c: Clause, a: seq<bool>, m: nat)
    requires ClauseFits(c, |a|) && m < |c|
    ensures ClauseFits(c[..m], |a|) && ClauseFits(c[..m + 1], |a|) && Var(c[m]) < |a|
    ensures Kept(c[..m + 1], a) == Kept(c[..m], a) + (if LitFalse(c[m], a) then [] else [c[m]])
  {
    assert c[m] in c;
    var d := c[..m + 1];
    assert forall l :: l in d ==> l in c;
    assert d[..|d| - 1] == c[..m];
  }

  /** One more literal of the clause: `HasTrue` of the longer prefix, from
      that of the shorter one. */
  lemma PrefixHasTrue(c: Clause, a: seq<bool>, m: nat)
    requires ClauseFits(c, |a|) && m < |c|
    ensures ClauseFits(c[..m], |a|) && ClauseFits(c[..m + 1], |a|) && Var(c[m]) < |a|
    ensures HasTrue(c[..m + 1], a) <==> HasTrue(c[..m], a) || LitTrue(c[m], a)
  {
    assert c[m] in c;
    var d, e := c[..m + 1], c[..m];
    assert forall l :: l in d ==> l in c;
    assert forall l :: l in e ==> l in c;
    if HasTrue(d, a) {
      var q :| 0 <= q < |d| && LitTrue(d[q], a);
      if q < m {
        assert e[q] == d[q];
      }
    }
    if HasTrue(e, a) {
      var q :| 0 <= q < |e| && LitTrue(e[q], a);
      assert d[q] == e[q];
    }
    if LitTrue(c[m], a) {
      assert d[m] == c[m];
    }
  }

  /** Erasing a false literal: one more literal of the clause is done. */
  lemma KeptErase(c: Clause, a: seq<bool>, kept: Clause, j: nat, m: nat)
    requires ClauseFits(c, |a|) && m < |c| && j < |kept|
    requires kept[..j] == Kept(c[..m], a) && kept[j..] == c[m..] && !HasTrue(c[..m], a)
    requires LitFalse(c[m], a)
    ensures (kept[..j] + kept[j + 1..])[..j] == Kept(c[..m + 1], a)
    ensures (kept[..j] + kept[j + 1..])[j..] == c[m + 1..]
    ensures !HasTrue(c[..m + 1], a)
  {
    PrefixKept(c, a, m);
    PrefixHasTrue(c, a, m);
    var k' := kept[..j] + kept[j + 1..];
    assert k'[..j] == kept[..j] + [];
    assert k'[j..] == kept[j + 1..];
    assert kept[j + 1..] == kept[j..][1..];
    assert c[m + 1..] == c[m..][1..];
  }

  /** Stepping over a literal that is neither true nor false (the literal
      0): it stays in the clause. */
  lemma KeptSkip(c: Clause, a: seq<bool>, kept: Clause, j: nat, m: nat)
    requires ClauseFits(c, |a|) && m < |c| && j < |kept|
    requires kept[..j] == Kept(c[..m], a) && kept[j..] == c[m..] && !HasTrue(c[..m], a)
    requires !LitTrue(c[m], a) && !LitFalse(c[m], a)
    ensures kept[..j + 1] == Kept(c[..m + 1], a)
    ensures kept[j + 1..] == c[m + 1..]
    ensures !HasTrue(c[..m + 1], a)
  {
    PrefixKept(c, a, m);
    PrefixHasTrue(c, a, m);
    assert kept[j] == kept[j..][0] == c[m];
    assert kept[..j + 1] == kept[..j] + [kept[j]];
    assert kept[j + 1..] == kept[j..][1..];
    assert c[m + 1..] == c[m..][1..];
  }

  /** The clause the `simplify` loop looks at is the next clause of the
      input. */
  lemma SimplifyAt(f: Formula, a: seq<bool>, r: Formula, i: nat, k: nat)
    requires Fits(f, |a|) && k <= |f| && i < |r| && r[i..] == f[k..]
    ensures k < |f| && r[i] == f[k] && ClauseFits(r[i], |a|)
  {
    assert r[i..][0] == r[i];
    assert f[k] in f;
  }

  /** Erasing a satisfied clause: the prefix already simplified covers one
      more input clause. */
  lemma SimplifyDrop(f: Formula, a: seq<bool>, r: Formula, i: nat, k: nat)
    requires Fits(f, |a|) && k < |f| && i < |r|
    requires r[..i] == Simplified(f[..k], a) && r[i..] == f[k..]
    requires HasTrue(f[k], a)
    ensures (r[..i] + r[i + 1..])[..i] == Simplified(f[..k + 1], a)
    ensures (r[..i] + r[i + 1..])[i..] == f[k + 1..]
  {
    var r' := r[..i] + r[i + 1..];
    assert r'[..i] == r[..i];
    assert r'[i..] == r[i + 1..];
    var g := f[..k + 1];
    assert g[..|g| - 1] == f[..k] && g[|g| - 1] == f[k];
    assert Simplified(g, a) == Simplified(f[..k], a);
    assert r[i + 1..] == r[i..][1..] == f[k..][1..] == f[k + 1..];
  }

  /** Replacing a clause by its kept literals: the simplified prefix grows
      by that clause. */
  lemma SimplifyKeep(f: Formula, a: seq<bool>, r: Formula, i: nat, k: nat, kept: Clause)
    requires Fits(f, |a|) && k < |f| && i < |r|
    requires r[..i] == Simplified(f[..k], a) && r[i..] == f[k..]
    requires !HasTrue(f[k], a) && kept == Kept(f[k], a)
    ensures (r[..i] + [kept] + r[i + 1..])[..i + 1] == Simplified(f[..k + 1], a)
    ensures (r[..i] + [kept] + r[i + 1..])[i + 1..] == f[k + 1..]
  {
    var r' := r[..i] + [kept] + r[i + 1..];
    assert r'[..i + 1] == r[..i] + [kept];
    assert r'[i + 1..] == r[i + 1..];
    var g := f[..k + 1];
    assert g[..|g| - 1] == f[..k] && g[|g| - 1] == f[k];
    assert Simplified(g, a) == Simplified(f[..k], a) + [kept];
    assert r[i + 1..] == r[i..][1..] == f[k..][1..] == f[k + 1..];
  }

  class SATSolver {
    var formula: Formula
    var numVariables: int
    var assignment: seq<bool>
    var hasSatisfyingAssignment: bool

    /** The count of variables is the largest variable mentioned; the empty
        formula has no stored assignment; a cached positive answer is the
        search's own answer and assignment for the current formula. */
    predicate Valid()
      reads this
    {
      numVariables == MaxVar(formula)
      && (formula == [] ==> assignment == [] && !hasSatisfyingAssignment)
      && (hasSatisfyingAssignment ==>
            NoZero(formula) && Search(formula).0 && assignment == Search(formula).1)
    }

    constructor ()
      ensures Valid()
      ensures formula == [] && numVariables == 0
      ensures assignment == [] && !hasSatisfyingAssignment
    {
      formula := [];
      numVariables := 0;
      assignment := [];
      hasSatisfyingAssignment := false;
    }

    /** `add_clause`: appends the clause, raises the variable count to the
        clause's largest variable and drops the cached assignment. */
    method AddClause(clause: Clause)
      requires Valid()
      modifies this
      ensures Valid()
      ensures formula == old(formula) + [clause]
      ensures numVariables == if old(numVariables) < MaxVarOfClause(clause)
                              then MaxVarOfClause(clause) else old(numVariables)
      ensures assignment == [] && !hasSatisfyingAssignment
    {
      formula := formula + [clause];
      hasSatisfyingAssignment := false;
      assignment := [];
      var i := 0;
      while i < |clause|
        invariant 0 <= i <= |clause|
        invariant formula == old(formula) + [clause]
        invariant assignment == [] && !hasSatisfyingAssignment
        invariant numVariables == if old(numVariables) < MaxVarOfClause(clause[..i])
                                  then MaxVarOfClause(clause[..i]) else old(numVariables)
      {
        var v := Var(clause[i]);
        MaxVarOfClauseSnoc(clause[..i], clause[i]);
        assert clause[..i + 1] == clause[..i] + [clause[i]];
        if v > numVariables {
          numVariables := v;
        }
        i := i + 1;
      }
      assert clause[..i] == clause;
      MaxVarSnoc(old(formula), clause);
    }

    /** `clear`: back to the state of a new solver. */
    method Clear()
      modifies this
      ensures Valid()
      ensures formula == [] && numVariables == 0
      ensures assignment == [] && !hasSatisfyingAssignment
    {
      formula := [];
      numVariables := 0;
      assignment := [];
      hasSatisfyingAssignment := false;
    }

    /** `get_num_variables`: the largest variable of the formula, 0 when it
        has none. */
    function GetNumVariables(): (r: int)
      requires Valid()
      reads this
      ensures r == MaxVar(formula)
      ensures Fits(formula, r + 1)
    {
      MaxVarBounds(formula);
      numVariables
    }

    /** `get_num_clauses`: the number of clauses added since construction or
        the last `clear`. */
    function GetNumClauses(): (r: int)
      reads this
      ensures r == |formula|
    {
      |formula|
    }

    /** `is_satisfiable`: true at once for the empty formula; otherwise runs
        `dpll` on a copy of the formula with a fresh all-false assignment of
        size `num_variables + 1` and caches the answer and the assignment. */
    method IsSatisfiable() returns (r: bool)
      requires Valid() && NoZero(formula)
      modifies this
      ensures Valid()
      ensures formula == old(formula) && numVariables == old(numVariables)
      ensures r == Search(formula).0
      ensures formula == [] ==> assignment == old(assignment)
                                && hasSatisfyingAssignment == old(hasSatisfyingAssignment)
      ensures formula != [] ==> assignment == Search(formula).1 && hasSatisfyingAssignment == r
    {
      if formula == [] {
        return true;
      }
      MaxVarBounds(formula);
      var a := new bool[numVariables + 1](_ => false);
      hasSatisfyingAssignment := false;
      ghost var start := a[..];
      IsAllFalse(start);
      var copy := formula;
      r := Dpll(copy, a, 1);
      SearchFrom(copy, start, r, a[..]);
      assignment := a[..];
      hasSatisfyingAssignment := r;
    }

    /** `get_satisfying_assignment`: the values of variables 1 and up, after
        running the search unless a positive answer is cached; empty when the
        search answers false. For the empty formula the search answers true
        without building an assignment and the C++ code then reads before an
        empty vector's end: `None` marks that undefined read. */
    method GetSatisfyingAssignment() returns (r: Option<seq<bool>>)
      requires Valid() && NoZero(formula)
      modifies this
      ensures Valid()
      ensures formula == old(formula) && numVariables == old(numVariables)
      ensures formula == [] ==> r == None
      ensures formula != [] ==>
        r == Some(if Search(formula).0 then Search(formula).1[1..] else [])
      ensures formula == [] ==> assignment == old(assignment)
                                && hasSatisfyingAssignment == old(hasSatisfyingAssignment)
      ensures formula != [] ==> assignment == Search(formula).1
                                && hasSatisfyingAssignment == Search(formula).0
    {
      if !hasSatisfyingAssignment {
        var sat := IsSatisfiable();
        if !sat {
          return Some([]);
        }
      }
      if assignment == [] {
        return None;
      }
      return Some(assignment[1..]);
    }

    /** The inner loop of `to_string`: writes one clause after `s`. */
    method WriteClause(s: string, c: Clause) returns (r: string)
      ensures r == s + ClauseText(c)
    {
      ghost var lits := LiteralTexts(c);
      r := s + "(";
      var j := 0;
      while j < |c|
        invariant 0 <= j <= |c|
        invariant r == s + "(" + Join(" OR ", lits[..j])
      {
        var piece := LiteralText(c[j]);
        JoinRound(s + "(", " OR ", lits, j, r);
        if j > 0 {
          r := r + " OR ";
        }
        r := r + piece;
        j := j + 1;
      }
      assert lits[..j] == lits;
      r := r + ")";
    }

    /** `to_string`: each clause in parentheses with its literals joined by
        " OR ", negative literals written "NOT x<n>", clauses joined by
        " AND ". */
    method ToString() returns (s: string)
      ensures s == FormulaText(formula)
    {
      ghost var texts := ClauseTexts(formula);
      s := "";
      var i := 0;
      while i < |formula|
        invariant 0 <= i <= |formula|
        invariant i == 0 ==> s == ""
        invariant 0 < i < |formula| ==> s == Join(" AND ", texts[..i]) + " AND "
        invariant 0 < i == |formula| ==> s == Join(" AND ", texts[..i])
      {
        ghost var before := s;
        s := WriteClause(s, formula[i]);
        assert s == before + texts[i];
        if i > 0 {
          JoinSnoc(" AND ", texts[..i], texts[i]);
        }
        assert texts[..i + 1] == texts[..i] + [texts[i]];
        if i < |formula| - 1 {
          s := s + " AND ";
        }
        i := i + 1;
      }
      assert texts[..i] == texts;
    }

    /** `is_3sat`: every clause has exactly three literals. */
    method Is3Sat() returns (r: bool)
      ensures r <==> forall c :: c in formula ==> |c| == 3
    {
      var i := 0;
      while i < |formula|
        invariant 0 <= i <= |formula|
        invariant forall k :: 0 <= k < i ==> |formula[k]| == 3
      {
        if |formula[i]| != 3 {
          assert formula[i] in formula;
          return false;
        }
        i := i + 1;
      }
      return true;
    }


    /** The inner loop of `simplify` on one clause: erases false literals
        until a true one shows up. */
    method SimplifyClause(c: Clause, a: array<bool>) returns (satisfied: bool, kept: Clause)
      requires ClauseFits(c, a.Length)
      ensures satisfied == HasTrue(c, a[..])
      ensures !satisfied ==> kept == Kept(c, a[..])
    {
      kept := c;
      satisfied := false;
      var j := 0;
      ghost var m := 0;
      while j < |kept|
        invariant 0 <= m <= |c| && 0 <= j <= |kept|
        invariant kept[..j] == Kept(c[..m], a[..])
        invariant kept[j..] == c[m..]
        invariant !HasTrue(c[..m], a[..])
      {
        KeptAt(c, a[..], kept, j, m);
        var lit := kept[j];
        var value := a[Var(lit)];
        if (lit > 0 && value) || (lit < 0 && !value) {
          HasTrueAt(c, a[..], m);
          satisfied := true;
          return;
        } else if (lit > 0 && !value) || (lit < 0 && value) {
          KeptErase(c, a[..], kept, j, m);
          kept := kept[..j] + kept[j + 1..];
        } else {
          KeptSkip(c, a[..], kept, j, m);
          j := j + 1;
        }
        m := m + 1;
      }
      assert c[..m] == c;
    }

    /** `simplify`: erases every clause with a true literal and the false
        literals of the others, in place. */
    method Simplify(f: Formula, a: array<bool>) returns (r: Formula)
      requires Fits(f, a.Length)
      ensures r == Simplified(f, a[..])
    {
      r := f;
      var i := 0;
      ghost var k := 0;
      while i < |r|
        invariant 0 <= k <= |f| && 0 <= i <= |r|
        invariant r[..i] == Simplified(f[..k], a[..])
        invariant r[i..] == f[k..]
        decreases |r| - i
      {
        SimplifyAt(f, a[..], r, i, k);
        var satisfied, kept := SimplifyClause(r[i], a);
        if satisfied {
          SimplifyDrop(f, a[..], r, i, k);
          r := r[..i] + r[i + 1..];
        } else {
          SimplifyKeep(f, a[..], r, i, k, kept);
          r := r[..i] + [kept] + r[i + 1..];
          i := i + 1;
        }
        k := k + 1;
      }
      assert f[..k] == f;
    }

    /** `unit_propagate`: while some clause has a single literal, makes the
        first such literal true and simplifies; then reports whether an empty
        clause (a conflict) is left. */
    method UnitPropagate(f: Formula, a: array<bool>) returns (conflict: bool, r: Formula)
      requires NoZero(f) && Fits(f, a.Length)
      modifies a
      ensures (r, a[..]) == Propagated(f, old(a[..]))
      ensures conflict == HasEmpty(r)
    {
      r := f;
      var changed := true;
      while changed
        invariant NoZero(r) && Fits(r, a.Length)
        invariant Propagated(r, a[..]) == Propagated(f, old(a[..]))
        invariant !changed ==> FirstUnit(r) == -1
        decreases LitCount(r), if changed then 1 else 0
      {
        changed := false;
        var i := 0;
        while i < |r|
          invariant 0 <= i <= |r|
          invariant forall j :: 0 <= j < i ==> |r[j]| != 1
          invariant !changed
        {
          if |r[i]| == 1 {
            var lit := r[i][0];
            assert r[i] in r && lit in r[i];
            assert FirstUnit(r) == i;
            a[Var(lit)] := lit > 0;
            SimplifiedShrinks(r, a[..], r[i], lit);
            r := Simplify(r, a);
            changed := true;
            break;
          }
          i := i + 1;
        }
      }
      conflict := false;
      var i := 0;
      while i < |r|
        invariant 0 <= i <= |r|
        invariant forall j :: 0 <= j < i ==> r[j] != []
      {
        if r[i] == [] {
          conflict := true;
          return;
        }
        i := i + 1;
      }
    }

    /** `pure_literal_eliminate`: collects the positive literals and the
        variables of the other literals, then makes the smallest variable
        that occurs only positively true, or else the smallest that occurs
        only negatively false, and simplifies. The walk over each ordered
        `std::set` is an ascending scan of the variables below `a.Length`,
        which holds every member of both sets. */
    method PureLiteralEliminate(f: Formula, a: array<bool>) returns (changed: bool, r: Formula)
      requires NoZero(f) && Fits(f, a.Length)
      modifies a
      ensures (changed, r, a[..]) == PureEliminated(f, old(a[..]))
    {
      var positive: set<int> := {};
      var negative: set<int> := {};
      var i := 0;
      while i < |f|
        invariant 0 <= i <= |f|
        invariant positive == Positives(f[..i]) && negative == Negatives(f[..i])
        invariant a[..] == old(a[..])
      {
        var c := f[i];
        var j := 0;
        while j < |c|
          invariant 0 <= j <= |c|
          invariant positive == Positives(f[..i]) + ClausePositives(c[..j])
          invariant negative == Negatives(f[..i]) + ClauseNegatives(c[..j])
          invariant a[..] == old(a[..])
        {
          var lit := c[j];
          ClauseSignsSnoc(c[..j], lit);
          assert c[..j + 1] == c[..j] + [lit];
          if lit > 0 {
            positive := positive + {lit};
          } else {
            negative := negative + {-lit};
          }
          j := j + 1;
        }
        SignsSnoc(f[..i], c);
        assert f[..i + 1] == f[..i] + [c];
        assert c[..j] == c;
        i := i + 1;
      }
      assert f[..i] == f;
      var v := 1;
      while v < a.Length
        invariant 1 <= v
        invariant FirstPure(positive, negative, 1, a.Length) == FirstPure(positive, negative, v, a.Length)
        invariant a[..] == old(a[..])
      {
        if v in positive && v !in negative {
          a[v] := true;
          r := Simplify(f, a);
          changed := true;
          return;
        }
        v := v + 1;
      }
      v := 1;
      while v < a.Length
        invariant 1 <= v
        invariant FirstPure(negative, positive, 1, a.Length) == FirstPure(negative, positive, v, a.Length)
        invariant a[..] == old(a[..])
      {
        if v in negative && v !in positive {
          a[v] := false;
          r := Simplify(f, a);
          changed := true;
          return;
        }
        v := v + 1;
      }
      changed, r := false, f;
    }

    /** `choose_variable`: the smallest variable of the formula, the first
        element of the ordered set of variables, or -1 when there is none. */
    method ChooseVariable(f: Formula) returns (r: int)
      ensures r == SmallestVar(f)
    {
      var vars: set<nat> := {};
      var i := 0;
      while i < |f|
        invariant 0 <= i <= |f|
        invariant vars == VarsOf(f[..i])
      {
        var c := f[i];
        var j := 0;
        while j < |c|
          invariant 0 <= j <= |c|
          invariant vars == VarsOf(f[..i]) + VarsOfClause(c[..j])
        {
          ClauseVarsSnoc(c[..j], c[j]);
          assert c[..j + 1] == c[..j] + [c[j]];
          vars := vars + {Var(c[j])};
          j := j + 1;
        }
        VarsSnoc(f[..i], c);
        assert f[..i + 1] == f[..i] + [c];
        assert c[..j] == c;
        i := i + 1;
      }
      assert f[..i] == f;
      if vars == {} {
        return -1;
      }
      ghost var least := SmallestVar(f);
      r :| r in vars && forall w :: w in vars ==> r <= w;
      assert r <= least && least <= r;
    }

    /** `dpll(formula, assignment, var)`: the recursive search, on the shared
        assignment array. */
    method Dpll(f: Formula, a: array<bool>, v: int) returns (sat: bool)
      requires NoZero(f) && Fits(f, a.Length)
      modifies a
      ensures (sat, a[..]) == DpllSpec.Dpll(f, old(a[..]), v)
      decreases LitCount(f)
    {
      if f == [] {
        return true;
      }
      var i := 0;
      while i < |f|
        invariant 0 <= i <= |f|
        invariant forall j :: 0 <= j < i ==> f[j] != []
      {
        if f[i] == [] {
          return false;
        }
        i := i + 1;
      }
      var conflict, f1 := UnitPropagate(f, a);
      if conflict {
        return false;
      }
      var _, f2 := PureLiteralEliminate(f1, a);
      if f2 == [] {
        return true;
      }
      var nv := ChooseVariable(f2);
      if nv == -1 {
        return true;
      }
      ghost var c, l :| c in f2 && l in c && Var(l) == nv;
      a[nv] := true;
      BranchShrinks(f2, a[..], nv);
      var copy := Simplify(f2, a);
      sat := Dpll(copy, a, nv + 1);
      if sat {
        return true;
      }
      a[nv] := false;
      BranchShrinks(f2, a[..], nv);
      copy := Simplify(f2, a);
      sat := Dpll(copy, a, nv + 1);
    }
  }

  /** `utils::are_equivalent`: loads each formula into a fresh solver and
      compares only the two satisfiability answers of the search. */
  method AreEquivalent(f1: Formula, f2: Formula) returns (r: bool)
    requires NoZero(f1) && NoZero(f2)
    ensures r == (Search(f1).0 == Search(f2).0)
  {
    var solver1 := new SATSolver();
    var solver2 := new SATSolver();
    var i := 0;
    while i < |f1|
      invariant 0 <= i <= |f1|
      invariant solver1.Valid() && solver1.formula == f1[..i]
      invariant solver2.Valid() && solver2.formula == []
    {
      solver1.AddClause(f1[i]);
      assert f1[..i + 1] == f1[..i] + [f1[i]];
      i := i + 1;
    }
    assert f1[..i] == f1;
    i := 0;
    while i < |f2|
      invariant 0 <= i <= |f2|
      invariant solver2.Valid() && solver2.formula == f2[..i]
      invariant solver1.Valid() && solver1.formula == f1
    {
      solver2.AddClause(f2[i]);
      assert f2[..i + 1] == f2[..i] + [f2[i]];
      i := i + 1;
    }
    assert f2[..i] == f2;
    var sat1 := solver1.IsSatisfiable();
    var sat2 := solver2.IsSatisfiable();
    if sat1 != sat2 {
      return false;
    }
    if !sat1 {
      return true;
    }
    return true;
  }
}
