/** What the Grover oracle's circuits do: the clause dictionary's meaning,
    the classical effect of each clause block, the cancellation of compute
    and uncompute, and the ancilla the Z reads. */
module GroverFacts {
  import opened Results
  import opened Gates
  import opened MctOracle
  import opened GroverSpec

  // ---------------------------------------------------------------------------
  // The clause dictionary

  /** Once a prefix of the clause clashes, the whole clause does. */
  lemma {:induction false} TautologyStays(c: seq<int>, j: nat)
    requires j <= |c| && UniqueVars(c[..j]).Tautology?
    ensures UniqueVars(c).Tautology?
    decreases |c| - j
  {
    if j < |c| {
      assert c[..j + 1][..j] == c[..j];
      TautologyStays(c, j + 1);
    } else {
      assert c[..j] == c;
    }
  }

  /** The keys are distinct and are exactly the dictionary's keys. */
  ghost predicate KeysOfMap(ks: seq<int>, neg: map<int, bool>) {
    DistinctKeys(ks) && forall k :: k in neg <==> k in ks
  }

  /** Every literal's key is recorded with that literal's sign. */
  predicate SignsOf(c: seq<int>, neg: map<int, bool>) {
    forall i :: 0 <= i < |c| ==> KeyOf(c[i]) in neg && neg[KeyOf(c[i])] == (c[i] < 0)
  }

  /** Every key is some literal's key. */
  predicate KeysFromClause(c: seq<int>, ks: seq<int>) {
    forall a :: 0 <= a < |ks| ==> exists i :: 0 <= i < |c| && KeyOf(c[i]) == ks[a]
  }

  /** A later key never occurs before an earlier one has. */
  predicate FirstOccurrenceOrder(c: seq<int>, ks: seq<int>) {
    forall a, b, j :: 0 <= a < b < |ks| && 0 <= j < |c| && KeyOf(c[j]) == ks[b] ==>
      exists i :: 0 <= i < j && KeyOf(c[i]) == ks[a]
  }

  ghost predicate Recorded(c: seq<int>, ks: seq<int>, neg: map<int, bool>) {
    KeysOfMap(ks, neg) && SignsOf(c, neg) && KeysFromClause(c, ks) && FirstOccurrenceOrder(c, ks)
  }

  lemma KeysFromClauseSnoc(p: seq<int>, l: int, ks: seq<int>)
    requires KeysFromClause(p, ks)
    ensures KeysFromClause(p + [l], ks)
    ensures KeysFromClause(p + [l], ks + [KeyOf(l)])
  {
    var c := p + [l];
    forall a | 0 <= a < |ks| ensures exists i :: 0 <= i < |c| && KeyOf(c[i]) == ks[a] {
      var i :| 0 <= i < |p| && KeyOf(p[i]) == ks[a];
      assert c[i] == p[i];
    }
    assert KeyOf(c[|p|]) == KeyOf(l);
  }

  lemma FirstOccurrenceSame(p: seq<int>, l: int, ks: seq<int>)
    requires FirstOccurrenceOrder(p, ks) && KeysFromClause(p, ks)
    ensures FirstOccurrenceOrder(p + [l], ks)
  {
    var c := p + [l];
    forall a, b, j | 0 <= a < b < |ks| && 0 <= j < |c| && KeyOf(c[j]) == ks[b]
      ensures exists i :: 0 <= i < j && KeyOf(c[i]) == ks[a]
    {
      if j < |p| {
        assert KeyOf(p[j]) == ks[b];
        var i :| 0 <= i < j && KeyOf(p[i]) == ks[a];
        assert c[i] == p[i];
      } else {
        var i :| 0 <= i < |p| && KeyOf(p[i]) == ks[a];
        assert c[i] == p[i];
      }
    }
  }

  lemma FirstOccurrenceNew(p: seq<int>, l: int, ks: seq<int>)
    requires FirstOccurrenceOrder(p, ks) && KeysFromClause(p, ks)
    requires forall i :: 0 <= i < |p| ==> KeyOf(p[i]) != KeyOf(l)
    ensures FirstOccurrenceOrder(p + [l], ks + [KeyOf(l)])
  {
    var c := p + [l];
    var ks' := ks + [KeyOf(l)];
    forall a, b, j | 0 <= a < b < |ks'| && 0 <= j < |c| && KeyOf(c[j]) == ks'[b]
      ensures exists i :: 0 <= i < j && KeyOf(c[i]) == ks'[a]
    {
      assert ks'[a] == ks[a];
      if b < |ks| {
        assert j < |p|;
        assert KeyOf(p[j]) == ks[b];
        var i :| 0 <= i < j && KeyOf(p[i]) == ks[a];
        assert c[i] == p[i];
      } else {
        var i :| 0 <= i < |p| && KeyOf(p[i]) == ks[a];
        assert c[i] == p[i];
        assert j == |p|;
      }
    }
  }

  /** A literal whose key is already recorded with its sign changes nothing. */
  lemma RecordedSame(p: seq<int>, l: int, ks: seq<int>, neg: map<int, bool>)
    requires Recorded(p, ks, neg) && KeyOf(l) in neg && neg[KeyOf(l)] == (l < 0)
    ensures Recorded(p + [l], ks, neg)
  {
    var c := p + [l];
    assert forall i :: 0 <= i < |p| ==> c[i] == p[i];
    assert SignsOf(c, neg);
    KeysFromClauseSnoc(p, l, ks);
    FirstOccurrenceSame(p, l, ks);
  }

  /** A literal with a new key appends that key. */
  lemma RecordedNew(p: seq<int>, l: int, ks: seq<int>, neg: map<int, bool>)
    requires Recorded(p, ks, neg) && KeyOf(l) !in neg
    ensures Recorded(p + [l], ks + [KeyOf(l)], neg[KeyOf(l) := l < 0])
  {
    var c := p + [l];
    var k := KeyOf(l);
    var ks' := ks + [k];
    var neg' := neg[k := l < 0];
    assert KeysOfMap(ks, neg) && SignsOf(p, neg) && KeysFromClause(p, ks);
    assert forall i :: 0 <= i < |p| ==> c[i] == p[i];
    assert forall i :: 0 <= i < |p| ==> KeyOf(p[i]) != k;
    assert KeysOfMap(ks', neg');
    assert SignsOf(c, neg');
    KeysFromClauseSnoc(p, l, ks);
    FirstOccurrenceNew(p, l, ks);
  }

  /** Without a clash the dictionary holds each literal's key once, in order
      of first occurrence, mapped to that literal's sign. */
  lemma {:induction false} UniqueVarsKeys(c: seq<int>)
    ensures var u := UniqueVars(c);
      u.Vars? ==> Recorded(c, u.keys, u.negative)
    decreases |c|
  {
    var u := UniqueVars(c);
    if c != [] && u.Vars? {
      var n := |c| - 1;
      var p := c[..n];
      assert c == p + [c[n]];
      UniqueVarsKeys(p);
      var v := UniqueVars(p);
      if KeyOf(c[n]) in v.negative {
        RecordedSame(p, c[n], v.keys, v.negative);
      } else {
        RecordedNew(p, c[n], v.keys, v.negative);
      }
    }
  }

  lemma ClashPrefix(p: seq<int>, l: int)
    requires Clash(p)
    ensures Clash(p + [l])
  {
    var c := p + [l];
    var i, j :| 0 <= i < |p| && 0 <= j < |p| && KeyOf(p[i]) == KeyOf(p[j]) && (p[i] < 0) != (p[j] < 0);
    assert c[i] == p[i] && c[j] == p[j];
  }

  /** On a clash-free prefix, one more literal clashes exactly when its key
      is recorded with the other sign. */
  lemma ClashLast(p: seq<int>, l: int, ks: seq<int>, neg: map<int, bool>)
    requires Recorded(p, ks, neg) && !Clash(p)
    ensures Clash(p + [l]) <==> KeyOf(l) in neg && neg[KeyOf(l)] != (l < 0)
  {
    var c := p + [l];
    var n := |p|;
    assert KeysOfMap(ks, neg) && SignsOf(p, neg) && KeysFromClause(p, ks);
    assert forall i :: 0 <= i < n ==> c[i] == p[i];
    if KeyOf(l) in neg && neg[KeyOf(l)] != (l < 0) {
      var a :| 0 <= a < |ks| && ks[a] == KeyOf(l);
      var i :| 0 <= i < |p| && KeyOf(p[i]) == ks[a];
      assert KeyOf(c[i]) == KeyOf(c[n]) && (c[i] < 0) != (c[n] < 0);
    } else {
      forall i, j | 0 <= i < |c| && 0 <= j < |c| && KeyOf(c[i]) == KeyOf(c[j])
        ensures (c[i] < 0) == (c[j] < 0)
      {
        if i < n && j < n {
          assert KeyOf(p[i]) == KeyOf(p[j]);
        } else if i < n {
          assert KeyOf(p[i]) in neg;
        } else if j < n {
          assert KeyOf(p[j]) in neg;
        }
      }
    }
  }

  /** The dictionary loop returns early exactly when some variable occurs
      both plain and negated. */
  lemma {:induction false} UniqueVarsTautology(c: seq<int>)
    ensures UniqueVars(c).Tautology? <==> Clash(c)
    decreases |c|
  {
    if c != [] {
      var n := |c| - 1;
      var p := c[..n];
      assert c == p + [c[n]];
      UniqueVarsTautology(p);
      if Clash(p) {
        ClashPrefix(p, c[n]);
      } else {
        UniqueVarsKeys(p);
        var v := UniqueVars(p);
        ClashLast(p, c[n], v.keys, v.negative);
      }
    }
  }

  // ---------------------------------------------------------------------------
  // Negative keys and flips

  /** The X loop's qubits are the controls whose sign is negative. */
  lemma {:induction false} NegativeQubitsFlipped(n: nat, ks: seq<int>, neg: map<int, bool>)
    requires forall j :: 0 <= j < |ks| ==> ks[j] in neg
    requires Resolve(n, ks).Ok?
    ensures NegativeQubits(n, ks, neg) == Ok(Flipped(Resolve(n, ks).value, Signs(ks, neg)))
    decreases |ks|
  {
    if ks != [] {
      var k := |ks| - 1;
      var init := ks[..k];
      NegativeQubitsFlipped(n, init, neg);
      var qs := Resolve(n, ks).value;
      var fs := Signs(ks, neg);
      assert Resolve(n, ks) == Ok(Resolve(n, init).value + [QubitOf(n, ks[k]).value]);
      assert qs[..k] == Resolve(n, init).value;
      assert fs[..k] == Signs(init, neg);
      assert fs[k] == neg[ks[k]];
      assert Flipped(qs, fs) == Flipped(qs[..k], fs[..k]) + (if fs[k] then [qs[k]] else []);
      assert QubitOf(n, ks[k]) == Ok(qs[k]);
      var prev := Flipped(Resolve(n, init).value, Signs(init, neg));
      assert NegativeQubits(n, init, neg) == Ok(prev);
      if neg[ks[k]] {
        assert NegativeQubits(n, ks, neg) == Ok(prev + [qs[k]]);
      } else {
        assert NegativeQubits(n, ks, neg) == Ok(prev);
        assert prev + [] == prev;
      }
    }
  }

  // ---------------------------------------------------------------------------
  // Classical effect of one clause block

  /** A plan's qubits lie in a register of `size` qubits, its controls are
      distinct and its target is not one of them. */
  predicate PlanFits(p: Plan, size: nat) {
    match p
    case AlwaysOn(t) => t < size
    case Gated(e) =>
      WellFormed(e) && Distinct(e.controls) && ControlsBelow(e, size)
      && e.target < size && e.target !in e.controls
  }

  lemma ClausePlanFits(n: nat, c: seq<int>, anc: nat, size: nat)
    requires ClausePlan(n, c, anc).Ok? && n <= size && anc < size
    ensures PlanFits(ClausePlan(n, c, anc).value, size)
  {
    var p := ClausePlan(n, c, anc).value;
    if p.Gated? {
      var qs := p.entry.controls;
      assert qs + [anc] == p.entry.controls + [p.entry.target];
      assert forall k :: 0 <= k < |qs| ==> (qs + [anc])[k] == qs[k];
      assert (qs + [anc])[|qs|] == anc;
    }
  }

  lemma AllOnFrame(s: seq<bool>, cs: seq<nat>, t: nat, b: bool)
    requires forall k :: 0 <= k < |cs| ==> cs[k] < |s|
    requires t < |s| && t !in cs
    ensures AllOn(s[t := b], cs) == AllOn(s, cs)
  {
    assert forall k :: 0 <= k < |cs| ==> s[t := b][cs[k]] == s[cs[k]];
  }

  lemma FiresFrame(e: Entry, s: seq<bool>, b: bool)
    requires WellFormed(e) && ControlsBelow(e, |s|) && e.target < |s| && e.target !in e.controls
    ensures Fires(e, s[e.target := b]) == Fires(e, s)
  {
    assert forall k :: 0 <= k < |e.controls| ==> s[e.target := b][e.controls[k]] == s[e.controls[k]];
  }

  lemma ApplyX(t: nat, s: seq<bool>)
    requires t < |s|
    ensures Classical(X(t)) && GateInRange(X(t), |s|)
    ensures Apply(X(t), s) == s[t := !s[t]]
  {
    assert Qubits(X(t)) == [t];
  }

  /** A bracket of the same layer around two gates. */
  lemma RunBracket(xs: seq<Gate>, a: Gate, b: Gate, s: seq<bool>)
    requires ClassicalCircuit(xs, |s|)
    requires Classical(a) && GateInRange(a, |s|) && Classical(b) && GateInRange(b, |s|)
    ensures ClassicalCircuit(xs + [a, b] + xs, |s|)
    ensures Run(xs + [a, b] + xs, s) == Run(xs, Apply(b, Apply(a, Run(xs, s))))
  {
    assert ClassicalCircuit([a], |s|) && ClassicalCircuit([b], |s|);
    RunFour(xs, [a], [b], xs, s);
    assert xs + [a] + [b] + xs == xs + [a, b] + xs;
    assert Run([a], Run(xs, s)) == Apply(a, Run(xs, s));
    assert Run([b], Apply(a, Run(xs, s))) == Apply(b, Apply(a, Run(xs, s)));
  }

  /** The compute block XORs "not every control fires" into its target and
      leaves every other qubit as it was. */
  lemma ComputeEffect(e: Entry, s: seq<bool>)
    requires PlanFits(Gated(e), |s|)
    ensures ClassicalCircuit(ComputeBlock(e), |s|)
    ensures Run(ComputeBlock(e), s) == s[e.target := s[e.target] != !Fires(e, s)]
  {
    var fl := Flipped(e.controls, e.flips);
    var xs := XLayer(fl);
    var g := TargetGate(e.controls, e.target);
    var t := e.target;
    BracketReadsFires(e, s);
    var s1 := Run(xs, s);
    ApplyTargetGate(e.controls, t, s1);
    var s2 := Apply(g, s1);
    ApplyX(t, s2);
    var s3 := Apply(X(t), s2);
    assert s3 == s1[t := s1[t] != !Fires(e, s)];
    RunBracket(xs, g, X(t), s);
    BracketReadsFires(e, s3);
    assert t !in fl;
    BracketCancels(fl, t, !Fires(e, s), s, s1, Run(xs, s3));
  }

  /** The uncompute block has the same effect. */
  lemma UncomputeEffect(e: Entry, s: seq<bool>)
    requires PlanFits(Gated(e), |s|)
    ensures ClassicalCircuit(UncomputeBlock(e), |s|)
    ensures Run(UncomputeBlock(e), s) == s[e.target := s[e.target] != !Fires(e, s)]
  {
    var fl := Flipped(e.controls, e.flips);
    var xs := XLayer(fl);
    var g := TargetGate(e.controls, e.target);
    var t := e.target;
    BracketReadsFires(e, s);
    var s1 := Run(xs, s);
    ApplyX(t, s1);
    var s2 := Apply(X(t), s1);
    ApplyTargetGate(e.controls, t, s2);
    AllOnFrame(s1, e.controls, t, !s1[t]);
    var s3 := Apply(g, s2);
    assert s3 == s1[t := s1[t] != !Fires(e, s)];
    RunBracket(xs, X(t), g, s);
    BracketReadsFires(e, s3);
    assert t !in fl;
    BracketCancels(fl, t, !Fires(e, s), s, s1, Run(xs, s3));
  }

  /** `_unapply_clause_oracle` undoes `_apply_clause_oracle` on every basis
      state. */
  lemma ApplyUnapply(p: Plan, s: seq<bool>)
    requires PlanFits(p, |s|)
    ensures ClassicalCircuit(ApplyGates(p) + UnapplyGates(p), |s|)
    ensures Run(ApplyGates(p) + UnapplyGates(p), s) == s
  {
    match p
    case AlwaysOn(t) =>
      assert Qubits(X(t)) == [t];
      assert ClassicalCircuit([X(t)], |s|);
      RunAppend([X(t)], [X(t)], s);
      assert Run([X(t)], s) == Apply(X(t), s);
      assert Run([X(t)], Apply(X(t), s)) == Apply(X(t), Apply(X(t), s));
    case Gated(e) =>
      ComputeEffect(e, s);
      var s1 := Run(ComputeBlock(e), s);
      UncomputeEffect(e, s1);
      FiresFrame(e, s, s[e.target] != !Fires(e, s));
      RunAppend(ComputeBlock(e), UncomputeBlock(e), s);
  }

  lemma PlanClassical(p: Plan, size: nat)
    requires PlanFits(p, size)
    ensures PlanWellFormed(p)
    ensures ClassicalCircuit(ApplyGates(p), size) && ClassicalCircuit(UnapplyGates(p), size)
  {
    var s := seq(size, _ => false);
    match p
    case AlwaysOn(t) =>
      ApplyX(t, s);
    case Gated(e) =>
      ComputeEffect(e, s);
      UncomputeEffect(e, s);
  }

  // ---------------------------------------------------------------------------
  // Compute and uncompute over all clauses

  predicate AllPlansFit(ps: seq<Plan>, size: nat) {
    forall i :: 0 <= i < |ps| ==> PlanFits(ps[i], size)
  }

  lemma {:induction false} PlansAt(n: nat, cs: seq<seq<int>>, first: nat, i: nat)
    requires Plans(n, cs, first).Ok? && i < |cs|
    ensures ClausePlan(n, cs[i], first + i) == Ok(Plans(n, cs, first).value[i])
    decreases |cs|
  {
    var k := |cs| - 1;
    assert cs[..k][..] == cs[..k];
    if i < k {
      PlansAt(n, cs[..k], first, i);
    }
  }

  /** Clause `i` is planned onto qubit `n + i` inside a register of `size`. */
  lemma PlansFit(n: nat, cs: seq<seq<int>>, size: nat)
    requires Plans(n, cs, n).Ok? && n + |cs| <= size
    ensures AllPlansFit(Plans(n, cs, n).value, size)
    ensures AllPlansWellFormed(Plans(n, cs, n).value)
  {
    var ps := Plans(n, cs, n).value;
    forall i | 0 <= i < |ps| ensures PlanFits(ps[i], size) && PlanWellFormed(ps[i]) {
      PlanFitsAt(n, cs, size, i);
    }
  }

  lemma PlanFitsAt(n: nat, cs: seq<seq<int>>, size: nat, i: nat)
    requires Plans(n, cs, n).Ok? && n + |cs| <= size && i < |cs|
    ensures PlanFits(Plans(n, cs, n).value[i], size) && PlanWellFormed(Plans(n, cs, n).value[i])
  {
    PlansAt(n, cs, n, i);
    ClausePlanFits(n, cs[i], n + i, size);
  }

  lemma {:induction false} UncomputeAllSnoc(ps: seq<Plan>, p: Plan)
    requires AllPlansWellFormed(ps) && PlanWellFormed(p)
    ensures AllPlansWellFormed(ps + [p])
    ensures UncomputeAll(ps + [p]) == UnapplyGates(p) + UncomputeAll(ps)
    decreases |ps|
  {
    var q := ps + [p];
    assert AllPlansWellFormed(q);
    if ps == [] {
      assert q[1..] == [];
      assert UncomputeAll(q) == UncomputeAll(q[1..]) + UnapplyGates(q[0]);
    } else {
      assert q[0] == ps[0] && q[1..] == ps[1..] + [p];
      UncomputeAllSnoc(ps[1..], p);
      var a := UnapplyGates(p);
      var b := UncomputeAll(ps[1..]);
      var c := UnapplyGates(ps[0]);
      assert UncomputeAll(q) == UncomputeAll(q[1..]) + UnapplyGates(q[0]);
      assert UncomputeAll(q) == (a + b) + c;
      assert UncomputeAll(ps) == b + c;
      assert (a + b) + c == a + (b + c);
    }
  }

  /** The uncompute loop undoes the compute loop on every basis state. */
  lemma {:induction false} ComputeUncompute(ps: seq<Plan>, s: seq<bool>)
    requires AllPlansWellFormed(ps) && AllPlansFit(ps, |s|)
    ensures ClassicalCircuit(ComputeAll(ps), |s|) && ClassicalCircuit(UncomputeAll(ps), |s|)
    ensures Run(ComputeAll(ps) + UncomputeAll(ps), s) == s
    decreases |ps|
  {
    if ps == [] {
      assert ComputeAll(ps) + UncomputeAll(ps) == [];
    } else {
      var k := |ps| - 1;
      var init := ps[..k];
      var last := ps[k];
      assert ps == init + [last];
      ComputeUncompute(init, s);
      UncomputeAllSnoc(init, last);
      var c := ComputeAll(init);
      var u := UncomputeAll(init);
      var a := ApplyGates(last);
      var b := UnapplyGates(last);
      assert ComputeAll(ps) == c + a;
      assert UncomputeAll(ps) == b + u;
      PlanClassical(last, |s|);
      var t := Run(c, s);
      ApplyUnapply(last, t);
      RunAppend(a, b, t);
      RunFour(c, a, b, u, s);
      RunAppend(c, a, s);
      RunAppend(b, u, s);
      RunAppend(c, u, s);
      assert ComputeAll(ps) + UncomputeAll(ps) == c + a + b + u;
    }
  }

  /** The final multi-controlled X twice restores every basis state. */
  lemma PhaseGateTwice(n: nat, m: nat, s: seq<bool>)
    requires n + m < |s|
    ensures ClassicalCircuit([PhaseGate(n, m), PhaseGate(n, m)], |s|)
    ensures Run([PhaseGate(n, m), PhaseGate(n, m)], s) == s
  {
    var g := PhaseGate(n, m);
    var cs := Range(n, m);
    InRange(n + m, n, m);
    ApplyTargetGate(cs, n + m, s);
    var s1 := Apply(g, s);
    ApplyTargetGate(cs, n + m, s1);
    AllOnFrame(s, cs, n + m, s1[n + m]);
    assert [g, g][1..] == [g];
    assert Run([g, g], s) == Run([g], s1);
    assert Run([g], s1) == Apply(g, s1);
    assert Apply(g, s1) == s;
  }

  // ---------------------------------------------------------------------------
  // The oracle around its Z

  /** Where the Z sits: after the H layer, the compute loop and the first
      final multi-controlled X. */
  function ZIndex(n: nat, cs: seq<seq<int>>): nat
    requires Plans(n, cs, n).Ok?
  {
    PlansWellFormed(n, cs, n);
    n + |ComputeAll(Plans(n, cs, n).value)| + 1
  }

  lemma OracleSplit(n: nat, cs: seq<seq<int>>)
    requires OracleCircuit(n, cs).Ok?
    ensures AllPlansWellFormed(Plans(n, cs, n).value)
    ensures var ps := Plans(n, cs, n).value;
      var g := PhaseGate(n, |cs|);
      SplitAt(OracleCircuit(n, cs).value.gates, n, ZIndex(n, cs), HLayer(Range(0, n)), ComputeAll(ps), g, Z(n + |cs|), UncomputeAll(ps))
  {
    OracleParts(n, cs);
    var ps := Plans(n, cs, n).value;
    var g := PhaseGate(n, |cs|);
    FiveParts(HLayer(Range(0, n)), ComputeAll(ps), g, Z(n + |cs|), UncomputeAll(ps), OracleCircuit(n, cs).value.gates, n, ZIndex(n, cs));
  }

  /** A classical block, a gate that cancels itself after it, and a block
      that undoes the first. */
  lemma MirrorAround(c: seq<Gate>, g: Gate, u: seq<Gate>, s: seq<bool>)
    requires ClassicalCircuit(c, |s|) && ClassicalCircuit(u, |s|) && ClassicalCircuit([g, g], |s|)
    requires Run(c + u, s) == s
    requires Run([g, g], Run(c, s)) == Run(c, s)
    ensures ClassicalCircuit((c + [g]) + ([g] + u), |s|)
    ensures Run((c + [g]) + ([g] + u), s) == s
  {
    RunFour(c, [g, g], u, [], s);
    RunAppend(c, u, s);
    Regroup(c, g, u);
  }

  lemma Regroup(c: seq<Gate>, g: Gate, u: seq<Gate>)
    ensures c + [g, g] + u + [] == (c + [g]) + ([g] + u)
  {
    assert c + [g, g] + u + [] == c + [g, g] + u;
    assert (c + [g]) + ([g] + u) == c + ([g] + [g]) + u;
  }

  /** `gs` is `h + c + [g, z, g] + u`, with `z` at position `k` and `h`
      ending at position `n`. */
  predicate SplitAt(gs: seq<Gate>, n: nat, k: nat, h: seq<Gate>, c: seq<Gate>, g: Gate, z: Gate, u: seq<Gate>) {
    n == |h| && k == |h| + |c| + 1 && k < |gs|
    && gs[..n] == h && gs[n..k] == c + [g] && gs[k] == z && gs[k + 1..] == [g] + u
  }

  lemma SplitSlices(gs: seq<Gate>, n: nat, k: nat, h: seq<Gate>, c: seq<Gate>, g: Gate, z: Gate, u: seq<Gate>)
    requires SplitAt(gs, n, k, h, c, g, z, u)
    ensures n <= k < |gs| && gs[..n] == h && gs[n..k] == c + [g] && gs[k] == z && gs[k + 1..] == [g] + u
  {
  }

  lemma FiveParts(h: seq<Gate>, c: seq<Gate>, g: Gate, z: Gate, u: seq<Gate>, gs: seq<Gate>, n: nat, k: nat)
    requires gs == h + c + [g, z, g] + u && n == |h| && k == |h| + |c| + 1
    ensures SplitAt(gs, n, k, h, c, g, z, u)
  {
    assert gs == (h + (c + [g])) + ([z] + ([g] + u));
  }

  /** The gates of `gs` before position `k` from position `n` on, followed by
      those after `k`, form a classical circuit that leaves `s` unchanged. */
  predicate IdentityAround(gs: seq<Gate>, n: nat, k: nat, s: seq<bool>) {
    n <= k < |gs|
    && ClassicalCircuit(gs[n..k] + gs[k + 1..], |s|)
    && Run(gs[n..k] + gs[k + 1..], s) == s
  }

  lemma SlicesAround(gs: seq<Gate>, n: nat, k: nat, before: seq<Gate>, after: seq<Gate>, s: seq<bool>)
    requires n <= k < |gs| && gs[n..k] == before && gs[k + 1..] == after
    requires ClassicalCircuit(before + after, |s|) && Run(before + after, s) == s
    ensures IdentityAround(gs, n, k, s)
  {
  }

  /** The oracle with its H layer and its Z removed is the identity on every
      basis state: the gates before the Z and the gates after it undo each
      other. */
  lemma OracleSkeletonIdentity(n: nat, cs: seq<seq<int>>, s: seq<bool>)
    requires OracleCircuit(n, cs).Ok? && |s| == OracleCircuit(n, cs).value.numQubits
    ensures var gs := OracleCircuit(n, cs).value.gates;
      var k := ZIndex(n, cs);
      IdentityAround(gs, n, k, s) && gs[..n] == HLayer(Range(0, n)) && gs[k] == Z(n + |cs|)
  {
    var m := |cs|;
    OracleSplit(n, cs);
    var ps := Plans(n, cs, n).value;
    PlansFit(n, cs, |s|);
    var g := PhaseGate(n, m);
    var c := ComputeAll(ps);
    var u := UncomputeAll(ps);
    SplitSlices(OracleCircuit(n, cs).value.gates, n, ZIndex(n, cs), HLayer(Range(0, n)), c, g, Z(n + m), u);
    ComputeUncompute(ps, s);
    PhaseGateTwice(n, m, Run(c, s));
    MirrorAround(c, g, u, s);
    SlicesAround(OracleCircuit(n, cs).value.gates, n, ZIndex(n, cs), c + [g], [g] + u, s);
  }
}
