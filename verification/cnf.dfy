/** Clauses and formulas in conjunctive normal form, as the C++ solver's
    `SATSolver::Clause` and `SATSolver::Formula` types and the Python lists
    of literal lists define them: literal `l` refers to variable `|l|` and is
    negated when `l < 0`. */
module Cnf {

  type Clause = seq<int>
  type Formula = seq<Clause>

  /** The variable a literal refers to (`std::abs(lit)`). */
  function Var(l: int): (v: nat)
    ensures v == l || v == -l
  {
    if l < 0 then -l else l
  }

  /** No literal is 0 (0 is neither a variable nor its negation). */
  predicate NoZero(f: Formula) {
    forall c :: c in f ==> 0 !in c
  }

  /** Every literal's variable is an index below `n`. */
  predicate Fits(f: Formula, n: int) {
    forall c, l :: c in f && l in c ==> Var(l) < n
  }

  predicate ClauseFits(c: Clause, n: int) {
    forall l :: l in c ==> Var(l) < n
  }

  predicate HasEmpty(f: Formula) {
    [] in f
  }

  /** Total number of literal occurrences. */
  function LitCount(f: Formula): nat {
    if f == [] then 0 else LitCount(f[..|f| - 1]) + |f[|f| - 1]|
  }

  /** The largest variable of the formula, 0 when it has no literal. */
  function MaxVar(f: Formula): nat {
    if f == [] then 0
    else
      var m0 := MaxVar(f[..|f| - 1]);
      var m1 := MaxVarOfClause(f[|f| - 1]);
      if m0 < m1 then m1 else m0
  }

  /** The largest variable of a clause, 0 when it is empty. */
  function MaxVarOfClause(c: Clause): nat {
    if c == [] then 0
    else
      var m0 := MaxVarOfClause(c[..|c| - 1]);
      var v := Var(c[|c| - 1]);
      if m0 < v then v else m0
  }

  /** No literal of the clause names a variable above its maximum, and a
      non-zero maximum is the variable of one of its literals. */
  lemma {:induction false} MaxVarOfClauseBounds(c: Clause)
    ensures ClauseFits(c, MaxVarOfClause(c) + 1)
    ensures MaxVarOfClause(c) == 0 || exists l :: l in c && Var(l) == MaxVarOfClause(c)
    decreases |c|
  {
    if c != [] {
      var front := c[..|c| - 1];
      MaxVarOfClauseBounds(front);
      assert forall l :: l in c ==> l in front || l == c[|c| - 1];
      var m0 := MaxVarOfClause(front);
      if m0 != 0 {
        var l :| l in front && Var(l) == m0;
        assert l in c;
      }
      assert c[|c| - 1] in c;
    }
  }

  /** Every literal's variable is at most `MaxVar(f)`, which is 0 or the
      variable of some literal. */
  lemma {:induction false} MaxVarBounds(f: Formula)
    ensures Fits(f, MaxVar(f) + 1)
    ensures MaxVar(f) == 0 || exists c, l :: c in f && l in c && Var(l) == MaxVar(f)
    decreases |f|
  {
    if f != [] {
      var front := f[..|f| - 1];
      var last := f[|f| - 1];
      MaxVarBounds(front);
      MaxVarOfClauseBounds(last);
      assert forall c :: c in f ==> c in front || c == last;
      var m0 := MaxVar(front);
      if m0 != 0 {
        var c, l :| c in front && l in c && Var(l) == m0;
        assert c in f;
      }
      var m1 := MaxVarOfClause(last);
      if m1 != 0 {
        var l :| l in last && Var(l) == m1;
        assert last in f;
      }
    }
  }

  lemma MaxVarSnoc(f: Formula, c: Clause)
    ensures MaxVar(f + [c]) == if MaxVar(f) < MaxVarOfClause(c) then MaxVarOfClause(c) else MaxVar(f)
  {
    assert (f + [c])[..|f|] == f;
  }

  lemma MaxVarOfClauseSnoc(c: Clause, l: int)
    ensures MaxVarOfClause(c + [l]) == if MaxVarOfClause(c) < Var(l) then Var(l) else MaxVarOfClause(c)
  {
    assert (c + [l])[..|c|] == c;
  }

  // ---------------------------------------------------------------------------
  // Meaning of a formula under a total assignment (index = variable)

  predicate LitTrue(l: int, a: seq<bool>)
    requires Var(l) < |a|
  {
    (l > 0 && a[Var(l)]) || (l < 0 && !a[Var(l)])
  }

  predicate LitFalse(l: int, a: seq<bool>)
    requires Var(l) < |a|
  {
    (l > 0 && !a[Var(l)]) || (l < 0 && a[Var(l)])
  }

  predicate ClauseTrue(c: Clause, a: seq<bool>)
    requires ClauseFits(c, |a|)
  {
    exists l :: l in c && LitTrue(l, a)
  }

  /** Assignment `a` makes every clause true. */
  predicate Satisfies(a: seq<bool>, f: Formula)
    requires Fits(f, |a|)
  {
    forall c :: c in f ==> ClauseTrue(c, a)
  }

  /** Some assignment over variables below `n` makes every clause true. */
  ghost predicate Satisfiable(f: Formula) {
    exists a: seq<bool> :: Fits(f, |a|) && Satisfies(a, f)
  }
}
