/** The behaviour of the C++ solver's search helpers (`simplify`,
    `unit_propagate`, `pure_literal_eliminate`, `choose_variable`, `dpll`) as
    functions of the formula and the assignment they are given.

    The assignment is a `vector<bool>` indexed by variable with no
    "unassigned" value, so every literal whose variable is in range is either
    true or false, and untouched variables count as false. */
module DpllSpec {
  import opened Cnf

  // ---------------------------------------------------------------------------
  // simplify

  /** The clause has a literal that holds under `a`. */
  predicate HasTrue(c: Clause, a: seq<bool>)
    requires ClauseFits(c, |a|)
  {
    exists j :: 0 <= j < |c| && LitTrue(c[j], a)
  }

  /** The clause with its falsified literals erased, order kept. */
  function Kept(c: Clause, a: seq<bool>): (r: Clause)
    requires ClauseFits(c, |a|)
    ensures |r| <= |c|
    ensures forall l :: l in r ==> l in c
  {
    if c == [] then []
    else
      var last := c[|c| - 1];
      assert forall l :: l in c[..|c| - 1] ==> l in c;
      Kept(c[..|c| - 1], a) + (if LitFalse(last, a) then [] else [last])
  }

  /** The literals `simplify` keeps in a clause are exactly those that are
      not false. */
  lemma {:induction false} KeptMembers(c: Clause, a: seq<bool>)
    requires ClauseFits(c, |a|)
    ensures forall l :: l in Kept(c, a) <==> (l in c && !LitFalse(l, a))
    decreases |c|
  {
    if c != [] {
      var init := c[..|c| - 1];
      assert c == init + [c[|c| - 1]];
      KeptMembers(init, a);
    }
  }

  /** Erasing keeps the order: `Kept` works literal by literal over a
      concatenation, so a clause keeps its surviving literals in place. */
  lemma {:induction false} KeptAppend(c: Clause, d: Clause, a: seq<bool>)
    requires ClauseFits(c, |a|) && ClauseFits(d, |a|)
    ensures ClauseFits(c + d, |a|)
    ensures Kept(c + d, a) == Kept(c, a) + Kept(d, a)
    decreases |d|
  {
    if d == [] {
      assert c + d == c;
    } else {
      var init := d[..|d| - 1];
      assert (c + d)[..|c + d| - 1] == c + init;
      assert (c + d)[|c + d| - 1] == d[|d| - 1];
      KeptAppend(c, init, a);
    }
  }

  /** A single literal survives exactly when it is not false. */
  lemma KeptSingle(l: int, a: seq<bool>)
    requires Var(l) < |a|
    ensures Kept([l], a) == if LitFalse(l, a) then [] else [l]
  {
    assert [l][..0] == [];
  }

  /** `simplify`: drops every clause with a true literal and erases the false
      literals from the others, keeping their order. */
  function Simplified(f: Formula, a: seq<bool>): (r: Formula)
    requires Fits(f, |a|)
    ensures |r| <= |f|
    ensures Fits(r, |a|)
    ensures NoZero(f) ==> NoZero(r)
  {
    if f == [] then []
    else
      var last := f[|f| - 1];
      assert forall c :: c in f[..|f| - 1] ==> c in f;
      Simplified(f[..|f| - 1], a) + (if HasTrue(last, a) then [] else [Kept(last, a)])
  }

  /** A clause keeps exactly its literals equal to 0: every other literal in
      range is either true or false. */
  lemma {:induction false} KeptOnlyZeros(c: Clause, a: seq<bool>)
    requires ClauseFits(c, |a|)
    requires !HasTrue(c, a)
    ensures forall l :: l in Kept(c, a) ==> l == 0
    ensures 0 in c ==> 0 in Kept(c, a)
    ensures 0 !in c ==> Kept(c, a) == []
    decreases |c|
  {
    if c != [] {
      var front := c[..|c| - 1];
      assert forall j :: 0 <= j < |front| ==> front[j] == c[j];
      KeptOnlyZeros(front, a);
      var last := c[|c| - 1];
      assert !LitTrue(last, a);
      if 0 in c && 0 !in front {
        assert last == 0;
      }
    }
  }

  /** Survivors of `simplify` are empty when no literal is 0. */
  lemma {:induction false} SimplifiedEmpties(f: Formula, a: seq<bool>)
    requires Fits(f, |a|) && NoZero(f)
    ensures forall c :: c in Simplified(f, a) ==> c == []
    decreases |f|
  {
    if f != [] {
      var front := f[..|f| - 1];
      assert forall c :: c in front ==> c in f;
      SimplifiedEmpties(front, a);
      var last := f[|f| - 1];
      if !HasTrue(last, a) {
        KeptOnlyZeros(last, a);
      }
    }
  }

  /** `simplify` leaves nothing exactly when the assignment makes every clause
      true. */
  lemma {:induction false} SimplifiedEmptyIffSatisfied(f: Formula, a: seq<bool>)
    requires Fits(f, |a|)
    ensures Simplified(f, a) == [] <==> Satisfies(a, f)
    decreases |f|
  {
    if f != [] {
      var front := f[..|f| - 1];
      var last := f[|f| - 1];
      assert forall c :: c in front ==> c in f;
      assert forall c :: c in f ==> c in front || c == last;
      SimplifiedEmptyIffSatisfied(front, a);
      HasTrueIff(last, a);
    }
  }

  /** Some literal holds exactly when one at some position does. */
  lemma HasTrueIff(c: Clause, a: seq<bool>)
    requires ClauseFits(c, |a|)
    ensures HasTrue(c, a) <==> ClauseTrue(c, a)
  {
    if ClauseTrue(c, a) {
      var l :| l in c && LitTrue(l, a);
      var j :| 0 <= j < |c| && c[j] == l;
    }
    if HasTrue(c, a) {
      var j :| 0 <= j < |c| && LitTrue(c[j], a);
      assert c[j] in c;
    }
  }

  /** Number of clauses of `f` with no true literal under `a`. */
  function CountUnsatisfied(f: Formula, a: seq<bool>): nat
    requires Fits(f, |a|)
  {
    |set i | 0 <= i < |f| && !ClauseTrue(f[i], a)|
  }

  /** `simplify` keeps one clause per clause with no true literal. */
  lemma {:induction false} SimplifiedCount(f: Formula, a: seq<bool>)
    requires Fits(f, |a|)
    ensures |Simplified(f, a)| == CountUnsatisfied(f, a)
    decreases |f|
  {
    if f != [] {
      var n := |f| - 1;
      var front := f[..n];
      var last := f[n];
      assert forall c :: c in front ==> c in f;
      SimplifiedCount(front, a);
      HasTrueIff(last, a);
      CountUnsatisfiedSnoc(f, a);
    }
  }

  /** The count grows by one exactly when the last clause has no true
      literal. */
  lemma CountUnsatisfiedSnoc(f: Formula, a: seq<bool>)
    requires Fits(f, |a|) && f != []
    ensures Fits(f[..|f| - 1], |a|)
    ensures CountUnsatisfied(f, a)
         == CountUnsatisfied(f[..|f| - 1], a) + (if ClauseTrue(f[|f| - 1], a) then 0 else 1)
  {
    var n := |f| - 1;
    var front := f[..n];
    assert forall c :: c in front ==> c in f;
    var s0 := set i | 0 <= i < |front| && !ClauseTrue(front[i], a);
    var s1 := set i | 0 <= i < |f| && !ClauseTrue(f[i], a);
    assert forall i :: 0 <= i < n ==> front[i] == f[i];
    if ClauseTrue(f[n], a) {
      assert s1 == s0;
    } else {
      assert s1 == s0 + {n};
      assert n !in s0;
    }
  }

  lemma {:induction false} LitCountAppend(f: Formula, g: Formula)
    ensures LitCount(f + g) == LitCount(f) + LitCount(g)
    decreases |g|
  {
    if g == [] {
      assert f + g == f;
    } else {
      var g0 := g[..|g| - 1];
      assert (f + g)[..|f + g| - 1] == f + g0;
      LitCountAppend(f, g0);
    }
  }

  /** Erasing literals never lengthens a clause, and a literal other than 0
      is always erased or makes its clause true. */
  lemma {:induction false} KeptShrinks(c: Clause, a: seq<bool>, l: int)
    requires ClauseFits(c, |a|)
    requires l in c && l != 0 && !HasTrue(c, a)
    ensures |Kept(c, a)| < |c|
    decreases |c|
  {
    var front := c[..|c| - 1];
    var last := c[|c| - 1];
    assert forall j :: 0 <= j < |front| ==> front[j] == c[j];
    assert !LitTrue(last, a);
    if l == last {
      assert LitFalse(last, a);
    } else {
      assert l in front;
      KeptShrinks(front, a, l);
    }
  }

  /** `simplify` never adds literals. */
  lemma {:induction false} SimplifiedNoGrow(f: Formula, a: seq<bool>)
    requires Fits(f, |a|)
    ensures LitCount(Simplified(f, a)) <= LitCount(f)
    decreases |f|
  {
    if f != [] {
      var front := f[..|f| - 1];
      var last := f[|f| - 1];
      assert forall c :: c in front ==> c in f;
      SimplifiedNoGrow(front, a);
      var tail := if HasTrue(last, a) then [] else [Kept(last, a)];
      LitCountAppend(Simplified(front, a), tail);
      if tail != [] {
        assert tail[..0] == [];
      }
    }
  }

  /** `simplify` removes at least one literal occurrence once the formula
      holds a literal other than 0: this bounds the propagation loop and the
      recursion of `dpll`. */
  lemma {:induction false} SimplifiedShrinks(f: Formula, a: seq<bool>, c: Clause, l: int)
    requires Fits(f, |a|)
    requires c in f && l in c && l != 0
    ensures LitCount(Simplified(f, a)) < LitCount(f)
    decreases |f|
  {
    var front := f[..|f| - 1];
    var last := f[|f| - 1];
    assert forall c' :: c' in front ==> c' in f;
    var tail := if HasTrue(last, a) then [] else [Kept(last, a)];
    LitCountAppend(Simplified(front, a), tail);
    if tail != [] {
      assert tail[..0] == [];
    }
    if c == last {
      SimplifiedNoGrow(front, a);
      if !HasTrue(last, a) {
        KeptShrinks(last, a, l);
      }
      if HasTrue(last, a) {
        var j :| 0 <= j < |last| && LitTrue(last[j], a);
      }
    } else {
      assert c in front;
      SimplifiedShrinks(front, a, c, l);
      if !HasTrue(last, a) {
        assert |Kept(last, a)| <= |last|;
      }
    }
  }

  // ---------------------------------------------------------------------------
  // unit_propagate

  /** Index of the first clause with exactly one literal, or -1. */
  function FirstUnit(f: Formula): (u: int)
    ensures -1 <= u < |f|
    ensures u >= 0 ==> |f[u]| == 1
    ensures forall j :: 0 <= j < |f| && (u < 0 || j < u) ==> |f[j]| != 1
  {
    if f == [] then -1
    else if |f[0]| == 1 then 0
    else
      var u := FirstUnit(f[1..]);
      if u < 0 then -1 else u + 1
  }

  /** `unit_propagate`'s loop: while some clause is a unit clause, make its
      literal true and simplify. */
  function Propagated(f: Formula, a: seq<bool>): (r: (Formula, seq<bool>))
    requires NoZero(f) && Fits(f, |a|)
    ensures |r.1| == |a|
    ensures NoZero(r.0) && Fits(r.0, |a|)
    ensures FirstUnit(r.0) == -1
    ensures LitCount(r.0) <= LitCount(f)
    decreases LitCount(f)
  {
    var u := FirstUnit(f);
    if u < 0 then (f, a)
    else
      var l := f[u][0];
      assert f[u] in f && l in f[u];
      var a' := a[Var(l) := l > 0];
      var f' := Simplified(f, a');
      SimplifiedShrinks(f, a', f[u], l);
      Propagated(f', a')
  }

  // ---------------------------------------------------------------------------
  // pure_literal_eliminate

  function Positives(f: Formula): set<int> {
    set c, l | c in f && l in c && l > 0 :: l
  }

  /** The variables of the literals that are not positive (`-lit` for every
      `lit <= 0`). */
  function Negatives(f: Formula): set<int> {
    set c, l | c in f && l in c && l <= 0 :: -l
  }

  /** The positive literals of one clause. */
  function ClausePositives(c: Clause): set<int> {
    set l | l in c && l > 0
  }

  /** The variables of the non-positive literals of one clause. */
  function ClauseNegatives(c: Clause): set<int> {
    set l | l in c && l <= 0 :: -l
  }

  lemma SignsSnoc(f: Formula, c: Clause)
    ensures Positives(f + [c]) == Positives(f) + ClausePositives(c)
    ensures Negatives(f + [c]) == Negatives(f) + ClauseNegatives(c)
  {
    assert forall d :: d in f + [c] <==> d in f || d == c;
  }

  lemma ClauseSignsSnoc(c: Clause, l: int)
    ensures ClausePositives(c + [l]) == ClausePositives(c) + (if l > 0 then {l} else {})
    ensures ClauseNegatives(c + [l]) == ClauseNegatives(c) + (if l <= 0 then {-l} else {})
  {
    assert forall x :: x in c + [l] <==> x in c || x == l;
    if l <= 0 {
      var c' := c + [l];
      assert c'[|c|] == l && l in c';
      assert -l in ClauseNegatives(c');
    }
  }

  /** The first `w` in `[v, n)` that is in `wanted` and not in `excluded`,
      or -1: the ascending walk over a `std::set` of variables below `n`. */
  function FirstPure(wanted: set<int>, excluded: set<int>, v: int, n: int): (r: int)
    requires v >= 0
    ensures r == -1 || (v <= r < n && r in wanted && r !in excluded)
    ensures forall w :: v <= w < n && (r == -1 || w < r) && w in wanted ==> w in excluded
    decreases n - v
  {
    if v >= n then -1
    else if v in wanted && v !in excluded then v
    else FirstPure(wanted, excluded, v + 1, n)
  }

  /** `pure_literal_eliminate`: sets the smallest variable that occurs only
      positively to true, or else the smallest that occurs only negatively to
      false, and simplifies; at most one variable per call. */
  function PureEliminated(f: Formula, a: seq<bool>): (r: (bool, Formula, seq<bool>))
    requires NoZero(f) && Fits(f, |a|)
    ensures |r.2| == |a|
    ensures NoZero(r.1) && Fits(r.1, |a|)
    ensures LitCount(r.1) <= LitCount(f)
    ensures !r.0 ==> r.1 == f && r.2 == a
  {
    var p := FirstPure(Positives(f), Negatives(f), 1, |a|);
    if p >= 0 then
      SimplifiedNoGrow(f, a[p := true]);
      (true, Simplified(f, a[p := true]), a[p := true])
    else
      var q := FirstPure(Negatives(f), Positives(f), 1, |a|);
      if q >= 0 then
        SimplifiedNoGrow(f, a[q := false]);
        (true, Simplified(f, a[q := false]), a[q := false])
      else (false, f, a)
  }

  /** The walk from 1 finds the least variable that occurs with one sign only. */
  lemma FirstPureIsLeast(f: Formula, a: seq<bool>)
    requires NoZero(f) && Fits(f, |a|)
    ensures var p := FirstPure(Positives(f), Negatives(f), 1, |a|);
      (p == -1 <==> Positives(f) <= Negatives(f))
      && (p != -1 ==> p in Positives(f) - Negatives(f)
                      && forall w :: w in Positives(f) - Negatives(f) ==> p <= w)
  {
    var pos, neg := Positives(f), Negatives(f);
    forall w | w in pos ensures 1 <= w < |a| {
      var c, l :| c in f && l in c && l > 0 && l == w;
    }
  }

  // ---------------------------------------------------------------------------
  // choose_variable

  function VarsOf(f: Formula): set<nat> {
    set c, l | c in f && l in c :: Var(l)
  }

  /** `choose_variable`: the smallest variable occurring in `f`, or -1. */
  function SmallestVar(f: Formula): (r: int)
    ensures r == -1 <==> VarsOf(f) == {}
    ensures r != -1 ==> r in VarsOf(f) && forall w :: w in VarsOf(f) ==> r <= w
  {
    if f == [] then -1
    else
      var front := f[..|f| - 1];
      var last := f[|f| - 1];
      var r0 := SmallestVar(front);
      var r1 := SmallestVarOfClause(last);
      assert VarsOf(f) == VarsOf(front) + VarsOfClause(last) by {
        assert forall c :: c in f <==> c in front || c == last;
      }
      if r0 == -1 then r1
      else if r1 == -1 || r0 <= r1 then r0
      else r1
  }

  function VarsOfClause(c: Clause): set<nat> {
    set l | l in c :: Var(l)
  }

  lemma VarsSnoc(f: Formula, c: Clause)
    ensures VarsOf(f + [c]) == VarsOf(f) + VarsOfClause(c)
  {
    assert forall d :: d in f + [c] <==> d in f || d == c;
  }

  lemma ClauseVarsSnoc(c: Clause, l: int)
    ensures VarsOfClause(c + [l]) == VarsOfClause(c) + {Var(l)}
  {
    assert forall x :: x in c + [l] <==> x in c || x == l;
  }

  function SmallestVarOfClause(c: Clause): (r: int)
    ensures r == -1 <==> VarsOfClause(c) == {}
    ensures r != -1 ==> r in VarsOfClause(c) && forall w :: w in VarsOfClause(c) ==> r <= w
  {
    if c == [] then -1
    else
      var front := c[..|c| - 1];
      var v := Var(c[|c| - 1]);
      var r0 := SmallestVarOfClause(front);
      assert VarsOfClause(c) == VarsOfClause(front) + {v} by {
        assert forall l :: l in c <==> l in front || l == c[|c| - 1];
      }
      if r0 == -1 || v < r0 then v else r0
  }

  // ---------------------------------------------------------------------------
  // dpll

  /** Simplifying after assigning the chosen variable removes a literal. */
  lemma BranchShrinks(f: Formula, a: seq<bool>, nv: int)
    requires NoZero(f) && Fits(f, |a|)
    requires nv == SmallestVar(f) && nv != -1
    ensures LitCount(Simplified(f, a)) < LitCount(f)
  {
    var c, l :| c in f && l in c && Var(l) == nv;
    SimplifiedShrinks(f, a, c, l);
  }

  /** `dpll(formula, assignment, var)`: the answer and the shared assignment
      afterwards. The second branch starts from the assignment the first
      branch left behind, with only the branching variable reset. */
  function Dpll(f: Formula, a: seq<bool>, v: int): (r: (bool, seq<bool>))
    requires NoZero(f) && Fits(f, |a|)
    ensures |r.1| == |a|
    decreases LitCount(f)
  {
    if f == [] then (true, a)
    else if HasEmpty(f) then (false, a)
    else
      var p := Propagated(f, a);
      var f1, a1 := p.0, p.1;
      if HasEmpty(f1) then (false, a1)
      else
        var e := PureEliminated(f1, a1);
        var f2, a2 := e.1, e.2;
        if f2 == [] then (true, a2)
        else
          var nv := SmallestVar(f2);
          if nv == -1 then (true, a2)
          else
            var aT := a2[nv := true];
            BranchShrinks(f2, aT, nv);
            var t := Dpll(Simplified(f2, aT), aT, nv + 1);
            if t.0 then (true, t.1)
            else
              var aF := t.1[nv := false];
              BranchShrinks(f2, aF, nv);
              Dpll(Simplified(f2, aF), aF, nv + 1)
  }
}
