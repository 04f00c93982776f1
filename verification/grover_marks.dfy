/** What the Grover oracle computes on a basis state of the variable
    register: each clause ancilla is toggled unless every literal of the
    clause is true (a NAND of the literals, although the comments of
    quantum_circuit.py speak of an OR), and the last ancilla is toggled when
    every clause ancilla reads 1. */
module GroverMarks {
  import opened Results
  import opened Gates
  import opened MctOracle
  import opened GroverSpec
  import opened GroverFacts

  // ---------------------------------------------------------------------------
  // Literal values

  /** Every literal indexes the variable register. */
  predicate LiteralsResolve(n: nat, c: seq<int>) {
    forall i :: 0 <= i < |c| ==> QubitOf(n, KeyOf(c[i])).Ok?
  }

  /** The qubit a literal's key indexes, negated for a negative literal. */
  predicate LiteralTrue(n: nat, l: int, s: seq<bool>)
    requires QubitOf(n, KeyOf(l)).Ok? && n <= |s|
  {
    s[QubitOf(n, KeyOf(l)).value] != (l < 0)
  }

  predicate AllTrue(n: nat, c: seq<int>, s: seq<bool>)
    requires LiteralsResolve(n, c) && n <= |s|
  {
    forall i :: 0 <= i < |c| ==> LiteralTrue(n, c[i], s)
  }

  /** The clause as a disjunction: some literal is true. */
  predicate SomeTrue(n: nat, c: seq<int>, s: seq<bool>)
    requires LiteralsResolve(n, c) && n <= |s|
  {
    exists i :: 0 <= i < |c| && LiteralTrue(n, c[i], s)
  }

  /** The dictionary's keys all resolve exactly when every literal does. */
  lemma KeysResolveIff(n: nat, c: seq<int>)
    requires UniqueVars(c).Vars?
    ensures Resolve(n, UniqueVars(c).keys).Ok? <==> LiteralsResolve(n, c)
  {
    var u := UniqueVars(c);
    UniqueVarsKeys(c);
    var ks := u.keys;
    if Resolve(n, ks).Ok? {
      forall i | 0 <= i < |c| ensures QubitOf(n, KeyOf(c[i])).Ok? {
        assert KeyOf(c[i]) in u.negative;
        var a :| 0 <= a < |ks| && ks[a] == KeyOf(c[i]);
      }
    }
    if LiteralsResolve(n, c) {
      forall a | 0 <= a < |ks| ensures QubitOf(n, ks[a]).Ok? {
        var i :| 0 <= i < |c| && KeyOf(c[i]) == ks[a];
      }
    }
  }

  /** A clause with both signs of a variable never has all literals true. */
  lemma ClashNotAllTrue(n: nat, c: seq<int>, s: seq<bool>)
    requires Clash(c) && LiteralsResolve(n, c) && n <= |s|
    ensures !AllTrue(n, c, s)
  {
    var i, j :| 0 <= i < |c| && 0 <= j < |c| && KeyOf(c[i]) == KeyOf(c[j]) && (c[i] < 0) != (c[j] < 0);
    assert !(LiteralTrue(n, c[i], s) && LiteralTrue(n, c[j], s));
  }

  /** A gated clause's multi-controlled X fires exactly when every literal
      is true. */
  lemma PlanFiresIffTrue(n: nat, c: seq<int>, anc: nat, s: seq<bool>)
    requires ClausePlan(n, c, anc).Ok? && ClausePlan(n, c, anc).value.Gated? && n <= |s|
    ensures LiteralsResolve(n, c)
    ensures var e := ClausePlan(n, c, anc).value.entry;
      WellFormed(e) && ControlsBelow(e, n) && ControlsBelow(e, |s|)
      && (Fires(e, s) <==> AllTrue(n, c, s))
  {
    FiresThenTrue(n, c, anc, s);
    TrueThenFires(n, c, anc, s);
  }

  /** The control pattern of a gated clause: one control per key, in key
      order, flipped for the negative keys. */
  lemma GatedEntry(n: nat, c: seq<int>, anc: nat)
    requires ClausePlan(n, c, anc).Ok? && ClausePlan(n, c, anc).value.Gated?
    ensures LiteralsResolve(n, c)
    ensures UniqueVars(c).Vars? && Resolve(n, UniqueVars(c).keys).Ok?
    ensures ClausePlan(n, c, anc).value.entry ==
      Entry(Resolve(n, UniqueVars(c).keys).value, Signs(UniqueVars(c).keys, UniqueVars(c).negative), anc)
  {
    UniqueVarsKeys(c);
    KeysResolveIff(n, c);
  }

  lemma FiresThenTrue(n: nat, c: seq<int>, anc: nat, s: seq<bool>)
    requires ClausePlan(n, c, anc).Ok? && ClausePlan(n, c, anc).value.Gated? && n <= |s|
    ensures LiteralsResolve(n, c)
    ensures var e := ClausePlan(n, c, anc).value.entry;
      WellFormed(e) && ControlsBelow(e, n) && ControlsBelow(e, |s|)
      && (Fires(e, s) ==> AllTrue(n, c, s))
  {
    GatedEntry(n, c, anc);
    var u := UniqueVars(c);
    var ks := u.keys;
    var neg := u.negative;
    UniqueVarsKeys(c);
    var qs := Resolve(n, ks).value;
    var e := ClausePlan(n, c, anc).value.entry;
    if Fires(e, s) {
      forall i | 0 <= i < |c| ensures LiteralTrue(n, c[i], s) {
        assert KeyOf(c[i]) in neg;
        var a :| 0 <= a < |ks| && ks[a] == KeyOf(c[i]);
        assert QubitOf(n, ks[a]) == Ok(qs[a]);
        assert s[qs[a]] != e.flips[a];
      }
    }
  }

  lemma TrueThenFires(n: nat, c: seq<int>, anc: nat, s: seq<bool>)
    requires ClausePlan(n, c, anc).Ok? && ClausePlan(n, c, anc).value.Gated? && n <= |s|
    ensures LiteralsResolve(n, c)
    ensures var e := ClausePlan(n, c, anc).value.entry;
      WellFormed(e) && ControlsBelow(e, n) && ControlsBelow(e, |s|)
      && (AllTrue(n, c, s) ==> Fires(e, s))
  {
    GatedEntry(n, c, anc);
    var u := UniqueVars(c);
    var ks := u.keys;
    UniqueVarsKeys(c);
    var qs := Resolve(n, ks).value;
    var e := ClausePlan(n, c, anc).value.entry;
    if AllTrue(n, c, s) {
      forall a | 0 <= a < |qs| ensures s[qs[a]] != e.flips[a] {
        var i :| 0 <= i < |c| && KeyOf(c[i]) == ks[a];
        assert LiteralTrue(n, c[i], s);
        assert QubitOf(n, ks[a]) == Ok(qs[a]);
      }
    }
  }

  // ---------------------------------------------------------------------------
  // One clause on its ancilla

  /** Whether a plan toggles its ancilla on state `s`. */
  predicate Toggles(p: Plan, s: seq<bool>)
    requires PlanFits(p, |s|)
  {
    match p
    case AlwaysOn(_) => true
    case Gated(e) => !Fires(e, s)
  }

  lemma ApplyEffect(p: Plan, s: seq<bool>)
    requires PlanFits(p, |s|)
    ensures PlanWellFormed(p) && ClassicalCircuit(ApplyGates(p), |s|)
    ensures Run(ApplyGates(p), s) == s[PlanTarget(p) := s[PlanTarget(p)] != Toggles(p, s)]
  {
    PlanClassical(p, |s|);
    match p
    case AlwaysOn(t) =>
      ApplyX(t, s);
      assert Run([X(t)], s) == Run([], Apply(X(t), s));
    case Gated(e) =>
      ComputeEffect(e, s);
  }

  /** A clause with a key and no clash gets a multi-controlled X. */
  lemma GatedWhenKeys(n: nat, c: seq<int>, anc: nat)
    requires ClausePlan(n, c, anc).Ok? && UniqueVars(c).Vars? && UniqueVars(c).keys != []
    ensures ClausePlan(n, c, anc).value.Gated?
  {
    var u := UniqueVars(c);
    var qs := Resolve(n, u.keys).value;
    assert |qs| == |u.keys|;
  }

  /** `_apply_clause_oracle` toggles the ancilla unless every literal is
      true; the empty clause always toggles it. */
  lemma ClauseEffect(n: nat, c: seq<int>, anc: nat, s: seq<bool>)
    requires ClausePlan(n, c, anc).Ok? && LiteralsResolve(n, c) && n <= |s| && anc < |s|
    ensures PlanWellFormed(ClausePlan(n, c, anc).value)
    ensures ClassicalCircuit(ApplyGates(ClausePlan(n, c, anc).value), |s|)
    ensures Run(ApplyGates(ClausePlan(n, c, anc).value), s)
      == s[anc := s[anc] != (c == [] || !AllTrue(n, c, s))]
  {
    var p := ClausePlan(n, c, anc).value;
    ClausePlanFits(n, c, anc, |s|);
    ApplyEffect(p, s);
    UniqueVarsTautology(c);
    var u := UniqueVars(c);
    if u.Tautology? {
      ClashNotAllTrue(n, c, s);
    } else if c == [] {
      assert p == AlwaysOn(anc);
    } else {
      UniqueVarsKeys(c);
      KeysResolveIff(n, c);
      assert KeyOf(c[0]) in u.negative;
      GatedWhenKeys(n, c, anc);
      PlanFiresIffTrue(n, c, anc, s);
    }
  }

  // ---------------------------------------------------------------------------
  // The compute loop

  predicate ReadsBelow(p: Plan, n: nat) {
    p.Gated? ==> ControlsBelow(p.entry, n)
  }

  /** The plans of a clause list on ancillas `n`, `n + 1`, ...: they fit a
      register of `size` qubits and read only the variable qubits. */
  predicate Laid(ps: seq<Plan>, n: nat, size: nat) {
    forall i :: 0 <= i < |ps| ==>
      PlanFits(ps[i], size) && PlanTarget(ps[i]) == n + i && ReadsBelow(ps[i], n)
  }

  /** `s` with ancilla `n + i` toggled as plan `i` decides. */
  function Marked(ps: seq<Plan>, n: nat, s: seq<bool>): (t: seq<bool>)
    requires Laid(ps, n, |s|)
    ensures |t| == |s|
  {
    seq(|s|, q requires 0 <= q < |s| => if n <= q < n + |ps| then s[q] != Toggles(ps[q - n], s) else s[q])
  }

  lemma TogglesFrame(p: Plan, n: nat, s: seq<bool>, t: seq<bool>)
    requires PlanFits(p, |s|) && ReadsBelow(p, n) && |t| == |s| && n <= |s|
    requires forall q :: 0 <= q < n ==> s[q] == t[q]
    ensures Toggles(p, s) == Toggles(p, t)
  {
    if p.Gated? {
      var e := p.entry;
      assert forall k :: 0 <= k < |e.controls| ==> s[e.controls[k]] == t[e.controls[k]];
    }
  }

  /** Marking one more plan toggles one more ancilla, as that plan decides
      on the state already marked. */
  lemma MarkedSnoc(ps: seq<Plan>, n: nat, s: seq<bool>)
    requires Laid(ps, n, |s|) && ps != [] && n <= |s|
    ensures Laid(ps[..|ps| - 1], n, |s|)
    ensures var k := |ps| - 1;
      var t := Marked(ps[..k], n, s);
      n + k < |s| && Toggles(ps[k], t) == Toggles(ps[k], s)
      && Marked(ps, n, s) == t[n + k := t[n + k] != Toggles(ps[k], t)]
  {
    var k := |ps| - 1;
    var init := ps[..k];
    assert Laid(init, n, |s|);
    var t := Marked(init, n, s);
    TogglesFrame(ps[k], n, s, t);
    forall q | 0 <= q < |s| ensures Marked(ps, n, s)[q] == t[n + k := t[n + k] != Toggles(ps[k], t)][q] {
      if n <= q < n + k {
        assert ps[q - n] == init[q - n];
      }
    }
  }

  lemma {:induction false} ComputeAllEffect(ps: seq<Plan>, n: nat, s: seq<bool>)
    requires Laid(ps, n, |s|) && AllPlansWellFormed(ps) && n <= |s|
    ensures ClassicalCircuit(ComputeAll(ps), |s|)
    ensures Run(ComputeAll(ps), s) == Marked(ps, n, s)
    decreases |ps|
  {
    if ps == [] {
      assert Marked(ps, n, s) == s;
    } else {
      var k := |ps| - 1;
      var init := ps[..k];
      var last := ps[k];
      MarkedSnoc(ps, n, s);
      assert AllPlansWellFormed(init);
      ComputeAllEffect(init, n, s);
      var t := Marked(init, n, s);
      ApplyEffect(last, t);
      assert PlanTarget(last) == n + k;
      RunAppend(ComputeAll(init), ApplyGates(last), s);
      assert ComputeAll(ps) == ComputeAll(init) + ApplyGates(last);
      assert Run(ComputeAll(ps), s) == Run(ApplyGates(last), t);
    }
  }

  /** The plans `Plans` returns are laid out one per ancilla. */
  lemma PlansLaid(n: nat, cs: seq<seq<int>>, size: nat)
    requires Plans(n, cs, n).Ok? && n + |cs| <= size
    ensures AllPlansWellFormed(Plans(n, cs, n).value)
    ensures Laid(Plans(n, cs, n).value, n, size)
  {
    var ps := Plans(n, cs, n).value;
    PlansFit(n, cs, size);
    forall i | 0 <= i < |ps| ensures PlanTarget(ps[i]) == n + i && ReadsBelow(ps[i], n) {
      PlansAt(n, cs, n, i);
      if ps[i].Gated? {
        PlanFiresIffTrue(n, cs[i], n + i, seq(n, _ => false));
      }
    }
  }

  // ---------------------------------------------------------------------------
  // What the Z reads

  /** Running `gs` from `s`, whose ancillas are 0, leaves the variable
      qubits alone and sets the last ancilla exactly when every clause has
      a literal that is false (or is empty). */
  predicate SetsPhase(gs: seq<Gate>, n: nat, cs: seq<seq<int>>, s: seq<bool>) {
    |s| == n + |cs| + 1
    && (forall i :: 0 <= i < |cs| ==> LiteralsResolve(n, cs[i]))
    && ClassicalCircuit(gs, |s|)
    && Run(gs, s)[..n] == s[..n]
    && (Run(gs, s)[n + |cs|] <==> forall i :: 0 <= i < |cs| ==> cs[i] == [] || !AllTrue(n, cs[i], s))
  }

  /** Qubits `n` to `n + m - 1` all read 1. */
  predicate AncillasOn(t: seq<bool>, n: nat, m: nat)
    requires n + m <= |t|
  {
    forall q :: n <= q < n + m ==> t[q]
  }

  lemma PhaseApply(n: nat, m: nat, t: seq<bool>)
    requires n + m < |t|
    ensures Classical(PhaseGate(n, m)) && GateInRange(PhaseGate(n, m), |t|)
    ensures Apply(PhaseGate(n, m), t) == t[n + m := t[n + m] != AllOn(t, Range(n, m))]
  {
    ApplyTargetGate(Range(n, m), n + m, t);
  }

  /** The final multi-controlled X toggles the last ancilla when every clause
      ancilla reads 1. */
  lemma PhaseGateEffect(n: nat, m: nat, t: seq<bool>)
    requires n + m < |t|
    ensures ClassicalCircuit([PhaseGate(n, m)], |t|)
    ensures Run([PhaseGate(n, m)], t) == t[n + m := t[n + m] != AncillasOn(t, n, m)]
  {
    var ctl := Range(n, m);
    var g := PhaseGate(n, m);
    PhaseApply(n, m, t);
    var a := Apply(g, t);
    assert [g][1..] == [];
    assert Run([g], t) == Run([], a);
    assert AllOn(t, ctl) == AncillasOn(t, n, m) by {
      if AllOn(t, ctl) {
        forall q | n <= q < n + m ensures t[q] {
          assert ctl[q - n] == q;
        }
      }
      if AncillasOn(t, n, m) {
        forall k | 0 <= k < m ensures t[ctl[k]] {
          assert ctl[k] == n + k;
        }
      }
    }
  }

  /** Ancilla `n + i` of the marked state is plan `i`'s toggle of a zero. */
  lemma MarkedAncillas(ps: seq<Plan>, n: nat, s: seq<bool>)
    requires Laid(ps, n, |s|) && n + |ps| <= |s|
    requires forall q :: n <= q < |s| ==> !s[q]
    ensures Marked(ps, n, s)[..n] == s[..n]
    ensures AncillasOn(Marked(ps, n, s), n, |ps|) <==> forall i :: 0 <= i < |ps| ==> Toggles(ps[i], s)
  {
    var t := Marked(ps, n, s);
    if AncillasOn(t, n, |ps|) {
      forall i | 0 <= i < |ps| ensures Toggles(ps[i], s) {
        assert t[n + i];
      }
    }
    if forall i :: 0 <= i < |ps| ==> Toggles(ps[i], s) {
      forall q | n <= q < n + |ps| ensures t[q] {
        assert Toggles(ps[q - n], s);
      }
    }
  }

  lemma PhaseFromMarks(ps: seq<Plan>, cs: seq<seq<int>>, n: nat, s: seq<bool>)
    requires |s| == n + |cs| + 1 && |ps| == |cs| && |cs| > 0
    requires forall i :: 0 <= i < |cs| ==> LiteralsResolve(n, cs[i])
    requires Laid(ps, n, |s|) && AllPlansWellFormed(ps)
    requires forall q :: n <= q < |s| ==> !s[q]
    requires forall i :: 0 <= i < |cs| ==> (Toggles(ps[i], s) <==> cs[i] == [] || !AllTrue(n, cs[i], s))
    ensures SetsPhase(ComputeAll(ps) + [PhaseGate(n, |cs|)], n, cs, s)
  {
    var m := |cs|;
    var g := PhaseGate(n, m);
    ComputeAllEffect(ps, n, s);
    var t := Marked(ps, n, s);
    PhaseGateEffect(n, m, t);
    RunAppend(ComputeAll(ps), [g], s);
    MarkedAncillas(ps, n, s);
    var r := Run(ComputeAll(ps) + [g], s);
    assert r == t[n + m := t[n + m] != AncillasOn(t, n, m)];
    assert t[n + m] == s[n + m];
    assert r[..n] == t[..n];
  }

  /** A clause's plan toggles its ancilla unless every literal is true. */
  lemma ClauseToggles(n: nat, c: seq<int>, anc: nat, s: seq<bool>, p: Plan)
    requires ClausePlan(n, c, anc) == Ok(p) && LiteralsResolve(n, c) && n <= |s| && anc < |s|
    requires PlanFits(p, |s|)
    ensures Toggles(p, s) <==> c == [] || !AllTrue(n, c, s)
  {
    ClauseEffect(n, c, anc, s);
    ApplyEffect(p, s);
    assert Run(ApplyGates(p), s)[anc] == (s[anc] != Toggles(p, s));
  }

  /** Plan `i` toggles ancilla `n + i` unless clause `i` has all its literals
      true. */
  lemma PlansToggle(n: nat, cs: seq<seq<int>>, s: seq<bool>)
    requires Plans(n, cs, n).Ok? && n + |cs| <= |s|
    requires forall i :: 0 <= i < |cs| ==> LiteralsResolve(n, cs[i])
    ensures AllPlansWellFormed(Plans(n, cs, n).value) && Laid(Plans(n, cs, n).value, n, |s|)
    ensures forall i :: 0 <= i < |cs| ==>
      (Toggles(Plans(n, cs, n).value[i], s) <==> cs[i] == [] || !AllTrue(n, cs[i], s))
  {
    var ps := Plans(n, cs, n).value;
    PlansLaid(n, cs, |s|);
    forall i | 0 <= i < |cs| ensures Toggles(ps[i], s) <==> cs[i] == [] || !AllTrue(n, cs[i], s) {
      PlanToggles(n, cs, s, i);
    }
  }

  /** Plan `i` alone. */
  lemma PlanToggles(n: nat, cs: seq<seq<int>>, s: seq<bool>, i: nat)
    requires Plans(n, cs, n).Ok? && n + |cs| <= |s| && i < |cs|
    requires LiteralsResolve(n, cs[i])
    ensures AllPlansWellFormed(Plans(n, cs, n).value) && Laid(Plans(n, cs, n).value, n, |s|)
    ensures Toggles(Plans(n, cs, n).value[i], s) <==> cs[i] == [] || !AllTrue(n, cs[i], s)
  {
    PlansLaid(n, cs, |s|);
    PlansAt(n, cs, n, i);
    ClauseToggles(n, cs[i], n + i, s, Plans(n, cs, n).value[i]);
  }

  /** Every clause ancilla holds the NAND of its clause's literals before
      the Z: for zero ancillas, the Z's qubit is 1 exactly when every clause
      has a false literal. */
  lemma OracleMarks(n: nat, cs: seq<seq<int>>, s: seq<bool>)
    requires OracleCircuit(n, cs).Ok? && |s| == n + |cs| + 1
    requires forall i :: 0 <= i < |cs| ==> LiteralsResolve(n, cs[i])
    requires forall q :: n <= q < |s| ==> !s[q]
    ensures var gs := OracleCircuit(n, cs).value.gates;
      var k := ZIndex(n, cs);
      n <= k <= |gs| && SetsPhase(gs[n..k], n, cs, s)
  {
    OracleSplit(n, cs);
    var ps := Plans(n, cs, n).value;
    SplitSlices(OracleCircuit(n, cs).value.gates, n, ZIndex(n, cs), HLayer(Range(0, n)), ComputeAll(ps),
      PhaseGate(n, |cs|), Z(n + |cs|), UncomputeAll(ps));
    PlansToggle(n, cs, s);
    PhaseFromMarks(Plans(n, cs, n).value, cs, n, s);
  }

  /** With one clause `[1, 2, 3]` over three variables, the all-zero state,
      which falsifies the clause, and the state `x1 = 1`, which satisfies it,
      are both marked; the all-one state, which satisfies it, is not. */
  lemma NandNotOr(s0: seq<bool>, s1: seq<bool>, s7: seq<bool>)
    requires s0 == [false, false, false, false, false]
    requires s1 == [true, false, false, false, false]
    requires s7 == [true, true, true, false, false]
    ensures LiteralsResolve(3, [1, 2, 3])
    ensures !SomeTrue(3, [1, 2, 3], s0) && SomeTrue(3, [1, 2, 3], s1) && SomeTrue(3, [1, 2, 3], s7)
    ensures !AllTrue(3, [1, 2, 3], s0) && !AllTrue(3, [1, 2, 3], s1) && AllTrue(3, [1, 2, 3], s7)
  {
    var c := [1, 2, 3];
    assert QubitOf(3, KeyOf(c[0])) == Ok(0);
    assert QubitOf(3, KeyOf(c[1])) == Ok(1);
    assert QubitOf(3, KeyOf(c[2])) == Ok(2);
    assert LiteralTrue(3, c[0], s1);
    assert LiteralTrue(3, c[0], s7);
    assert !LiteralTrue(3, c[1], s1);
  }

  // ---------------------------------------------------------------------------
  // When the oracle can be built

  /** With no zero literal and the ancilla past the variables, a clause is
      accepted exactly when it clashes or every literal indexes a variable. */
  lemma ClausePlanOkIff(n: nat, c: seq<int>, anc: nat)
    requires anc >= n
    ensures ClausePlan(n, c, anc).Ok? ==> Clash(c) || LiteralsResolve(n, c)
    ensures (forall i :: 0 <= i < |c| ==> c[i] != 0) ==>
      (ClausePlan(n, c, anc).Ok? <==> Clash(c) || LiteralsResolve(n, c))
  {
    UniqueVarsTautology(c);
    var u := UniqueVars(c);
    if u.Vars? {
      KeysResolveIff(n, c);
      if (forall i :: 0 <= i < |c| ==> c[i] != 0) && LiteralsResolve(n, c) {
        NonZeroKeysOwnQubits(n, c);
        DistinctWithAncilla(Resolve(n, u.keys).value, u.keys, n, anc);
      }
    }
  }

  /** With no zero literal every key is non-negative, so it indexes its own
      qubit. */
  lemma NonZeroKeysOwnQubits(n: nat, c: seq<int>)
    requires UniqueVars(c).Vars? && Resolve(n, UniqueVars(c).keys).Ok?
    requires forall i :: 0 <= i < |c| ==> c[i] != 0
    ensures var ks := UniqueVars(c).keys;
      DistinctKeys(ks) && forall a :: 0 <= a < |ks| ==> Resolve(n, ks).value[a] == ks[a]
  {
    var u := UniqueVars(c);
    UniqueVarsKeys(c);
    var ks := u.keys;
    var qs := Resolve(n, ks).value;
    forall a | 0 <= a < |ks| ensures qs[a] == ks[a] {
      var i :| 0 <= i < |c| && KeyOf(c[i]) == ks[a];
      assert QubitOf(n, ks[a]) == Ok(qs[a]);
    }
  }

  lemma DistinctWithAncilla(qs: seq<nat>, ks: seq<int>, n: nat, anc: nat)
    requires |qs| == |ks| && DistinctKeys(ks) && anc >= n
    requires forall a :: 0 <= a < |ks| ==> qs[a] == ks[a] && qs[a] < n
    ensures Distinct(qs + [anc])
  {
    var r := qs + [anc];
    forall i, j | 0 <= i < j < |r| ensures r[i] != r[j] {
      assert r[i] == qs[i];
      if j < |qs| {
        assert r[j] == qs[j];
      }
    }
  }

  /** A zero literal indexes the last variable, so `[0, 2, 1]` over two
      variables names qubit 1 twice. */
  lemma ZeroLiteralDuplicates(c: seq<int>)
    requires c == [0, 2, 1]
    ensures ClausePlan(2, c, 2) == Err(DuplicateQubits)
  {
    assert c[..2][..1] == [0];
    assert c[..2] == [0, 2];
    assert UniqueVars([0]) == Vars([-1], map[-1 := false]);
    assert UniqueVars(c[..2]) == Vars([-1, 1], map[-1 := false, 1 := false]);
    var u := UniqueVars(c);
    assert u == Vars([-1, 1, 0], map[-1 := false, 1 := false, 0 := false]);
    var ks := [-1, 1, 0];
    assert QubitOf(2, ks[0]) == Ok(1);
    assert QubitOf(2, ks[1]) == Ok(1);
    assert QubitOf(2, ks[2]) == Ok(0);
    var qs := Resolve(2, ks).value;
    assert qs[0] == 1 && qs[1] == 1;
    assert (qs + [2])[0] == (qs + [2])[1];
  }

  /** The plans exist exactly when every clause's plan does. */
  lemma {:induction false} PlansOkIff(n: nat, cs: seq<seq<int>>, first: nat)
    ensures Plans(n, cs, first).Ok? <==> forall i :: 0 <= i < |cs| ==> ClausePlan(n, cs[i], first + i).Ok?
    decreases |cs|
  {
    if cs != [] {
      var k := |cs| - 1;
      var init := cs[..k];
      PlansOkIff(n, init, first);
      PlansLastOk(n, cs, first);
      if Plans(n, cs, first).Ok? {
        forall i | 0 <= i < |cs| ensures ClausePlan(n, cs[i], first + i).Ok? {
          if i < k {
            assert init[i] == cs[i];
          }
        }
      } else if Plans(n, init, first).Ok? {
        assert !ClausePlan(n, cs[k], first + k).Ok?;
      } else {
        var i :| 0 <= i < k && !ClausePlan(n, init[i], first + i).Ok?;
        assert init[i] == cs[i];
      }
    }
  }

  /** `Plans` of a non-empty list exists exactly when the plans of all but
      the last clause and the last clause's plan do. */
  lemma PlansLastOk(n: nat, cs: seq<seq<int>>, first: nat)
    requires cs != []
    ensures Plans(n, cs, first).Ok? <==>
      Plans(n, cs[..|cs| - 1], first).Ok? && ClausePlan(n, cs[|cs| - 1], first + (|cs| - 1)).Ok?
  {
  }

  /** `build_oracle_circuit` succeeds exactly when there is a clause and
      every clause's plan exists; the circuit has `n` variable qubits, one
      ancilla per clause and the phase ancilla. */
  lemma OracleOkIff(n: nat, cs: seq<seq<int>>)
    ensures OracleCircuit(n, cs).Ok? <==> cs != [] && forall i :: 0 <= i < |cs| ==> ClausePlan(n, cs[i], n + i).Ok?
    ensures OracleCircuit(n, cs).Ok? ==>
      OracleCircuit(n, cs).value.numQubits == n + |cs| + 1 && OracleCircuit(n, cs).value.numClbits == n
    ensures cs == [] ==> OracleCircuit(n, cs) == Err(NoControls)
  {
    PlansOkIff(n, cs, n);
  }

  // ---------------------------------------------------------------------------
  // The Grover circuit

  lemma {:induction false} RepeatLength(b: seq<Gate>, k: nat)
    ensures |Repeat(b, k)| == k * |b|
  {
    if k > 0 {
      RepeatLength(b, k - 1);
    }
  }

  /** Round `i` of `k` repetitions is a copy of the block. */
  lemma {:induction false} RepeatSlice(b: seq<Gate>, k: nat, i: nat)
    requires i < k
    ensures |Repeat(b, k)| == k * |b|
    ensures Repeat(b, k)[i * |b| .. i * |b| + |b|] == b
  {
    RepeatLength(b, k);
    RepeatLength(b, k - 1);
    var prev := Repeat(b, k - 1);
    assert Repeat(b, k) == prev + b;
    if i == k - 1 {
      assert i * |b| == |prev|;
    } else {
      RepeatSlice(b, k - 1, i);
      assert (i + 1) * |b| <= (k - 1) * |b|;
      assert i * |b| + |b| == (i + 1) * |b|;
      assert (prev + b)[i * |b| .. i * |b| + |b|] == prev[i * |b| .. i * |b| + |b|];
    }
  }

  /** `create_grover_circuit` succeeds exactly when there is a clause, the
      oracle can be built and, if there is a round, there are at least two
      variables. */
  lemma GroverOkIff(n: nat, cs: seq<seq<int>>, iterations: int)
    ensures GroverCircuit(n, cs, iterations).Ok? <==>
      cs != [] && OracleCircuit(n, cs).Ok? && (iterations <= 0 || n >= 2)
    ensures cs == [] ==> GroverCircuit(n, cs, iterations) == Err(NoClauses)
    ensures cs != [] && OracleCircuit(n, cs).Ok? && iterations > 0 && n == 0 ==>
      GroverCircuit(n, cs, iterations) == Err(IndexOutOfRange)
    ensures cs != [] && OracleCircuit(n, cs).Ok? && iterations > 0 && n == 1 ==>
      GroverCircuit(n, cs, iterations) == Err(NoControls)
  {
  }

  /** `gs` is the prefix `h`, `k` copies of `b` of which the `i`-th sits at
      `|h| + i * |b|`, and the tail `m`. */
  predicate RoundsLayout(gs: seq<Gate>, h: seq<Gate>, b: seq<Gate>, k: nat, m: seq<Gate>, i: nat) {
    |gs| == |h| + k * |b| + |m|
    && i * |b| + |b| <= k * |b|
    && gs[..|h|] == h
    && gs[|h| + i * |b| .. |h| + i * |b| + |b|] == b
    && gs[|h| + k * |b| ..] == m
  }

  /** The Grover circuit: an H on each variable qubit, then each round is a
      copy of the oracle followed by the diffusion block, then a measurement
      of each variable qubit into its bit. */
  lemma GroverLayout(n: nat, cs: seq<seq<int>>, iterations: int, i: nat)
    requires GroverCircuit(n, cs, iterations).Ok? && i < iterations
    ensures n >= 2 && OracleCircuit(n, cs).Ok?
    ensures var g := GroverCircuit(n, cs, iterations).value;
      g.numQubits == n + |cs| + 1 && g.numClbits == n
      && RoundsLayout(g.gates, HLayer(Range(0, n)), OracleCircuit(n, cs).value.gates + Diffusion(n),
                      iterations as nat, Measures(n), i)
  {
    OracleOkIff(n, cs);
    var o := OracleCircuit(n, cs).value;
    var round := o.gates + Diffusion(n);
    Rounds(HLayer(Range(0, n)), round, iterations as nat, Measures(n), i);
  }

  /** Where round `i` and the tail sit in a prefix, `k` rounds and a tail. */
  lemma Rounds(h: seq<Gate>, b: seq<Gate>, k: nat, m: seq<Gate>, i: nat)
    requires i < k
    ensures RoundsLayout(h + Repeat(b, k) + m, h, b, k, m, i)
  {
    RepeatSlice(b, k, i);
    var rs := Repeat(b, k);
    var gs := h + rs + m;
    assert (i + 1) * |b| <= k * |b|;
    assert i * |b| + |b| == (i + 1) * |b|;
    assert gs[|h| + i * |b| .. |h| + i * |b| + |b|] == rs[i * |b| .. i * |b| + |b|];
  }
}
