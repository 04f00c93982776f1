/** `SATOracle` of src/quantum_circuit.py: a variable count and a clause
    list that `add_clause` grows, and the circuits built from them. A Qiskit
    circuit under construction is a sequence of gates that each step extends
    and hands on; a raised exception is an `Err` carrying its message. */
module GroverOracle {
  import opened Results
  import opened Gates
  import opened MctOracle
  import opened GroverSpec
  import opened GroverFacts
  import opened GroverMarks

  class SATOracle {
    var numVariables: nat
    var clauses: seq<seq<int>>
    /** The last oracle circuit built, `None` until one is. */
    var circuit: Option<Circuit>

    /** Every clause has three literals, as `add_clause` demands. */
    predicate ThreeSat()
      reads this
    {
      forall i :: 0 <= i < |clauses| ==> |clauses[i]| == 3
    }

    constructor (numVariables: nat)
      ensures this.numVariables == numVariables && clauses == [] && circuit == None
      ensures ThreeSat()
    {
      this.numVariables := numVariables;
      clauses := [];
      circuit := None;
    }

    /** `add_clause`: a clause of three literals is appended; any other
        length raises and leaves the list alone. */
    method AddClause(clause: seq<int>) returns (r: Outcome)
      modifies this
      ensures |clause| != 3 ==> r == Fail(OnlyThreeSat) && clauses == old(clauses)
      ensures |clause| == 3 ==> r == Pass && clauses == old(clauses) + [clause]
      ensures numVariables == old(numVariables) && circuit == old(circuit)
      ensures old(ThreeSat()) ==> ThreeSat()
    {
      if |clause| != 3 {
        return Fail(OnlyThreeSat);
      }
      clauses := clauses + [clause];
      r := Pass;
    }

    /** The `unique_vars` loop: literals in order, stopping at the first
        variable seen with both signs. */
    static method CollectUniqueVars(clause: seq<int>) returns (u: Unique)
      ensures u == UniqueVars(clause)
    {
      var keys: seq<int> := [];
      var negative: map<int, bool> := map[];
      var i := 0;
      while i < |clause|
        invariant 0 <= i <= |clause|
        invariant UniqueVars(clause[..i]) == Vars(keys, negative)
      {
        var literal := clause[i];
        var k := KeyOf(literal);
        assert clause[..i + 1][..i] == clause[..i];
        if k in negative {
          if negative[k] != (literal < 0) {
            TautologyStays(clause, i + 1);
            return Tautology;
          }
        } else {
          keys := keys + [k];
          negative := negative[k := literal < 0];
        }
        i := i + 1;
      }
      assert clause[..i] == clause;
      u := Vars(keys, negative);
    }

    /** An X on the qubit of each negative key, in key order. */
    static method FlipNegatives(gates: seq<Gate>, n: nat, ks: seq<int>, neg: map<int, bool>) returns (r: Result<seq<Gate>>)
      requires forall j :: 0 <= j < |ks| ==> ks[j] in neg
      ensures r == (var qs :- NegativeQubits(n, ks, neg); Ok(gates + XLayer(qs)))
    {
      var acc := gates;
      var i := 0;
      while i < |ks|
        invariant 0 <= i <= |ks|
        invariant NegativeQubits(n, ks[..i], neg).Ok?
        invariant acc == gates + XLayer(NegativeQubits(n, ks[..i], neg).value)
      {
        var prev := NegativeQubits(n, ks[..i], neg).value;
        assert ks[..i + 1][..i] == ks[..i];
        if neg[ks[i]] {
          var q := QubitOf(n, ks[i]);
          if q.Err? {
            NegativeQubitsPrefixErr(n, ks, neg, i + 1);
            return Err(q.message);
          }
          XLayerAppend(prev, [q.value]);
          acc := acc + [X(q.value)];
        }
        i := i + 1;
      }
      assert ks[..i] == ks;
      r := Ok(acc);
    }

    /** `[qreg[k] for k in keys]`. */
    static method ResolveKeys(n: nat, ks: seq<int>) returns (r: Result<seq<nat>>)
      ensures r == Resolve(n, ks)
    {
      var qs: seq<nat> := [];
      var i := 0;
      while i < |ks|
        invariant 0 <= i <= |ks|
        invariant Resolve(n, ks[..i]) == Ok(qs)
      {
        assert ks[..i + 1][..i] == ks[..i];
        var q := QubitOf(n, ks[i]);
        if q.Err? {
          ResolvePrefixErr(n, ks, i + 1);
          return Err(q.message);
        }
        qs := qs + [q.value];
        i := i + 1;
      }
      assert ks[..i] == ks;
      r := Ok(qs);
    }

    /** `_apply_clause_oracle`: the gates for one clause on ancilla `anc`
        appended to `gates`, or the exception raised on the way. */
    static method ApplyClauseOracle(gates: seq<Gate>, n: nat, anc: nat, clause: seq<int>) returns (r: Result<seq<Gate>>)
      ensures r == ClauseApplied(gates, n, anc, clause)
    {
      var u := CollectUniqueVars(clause);
      if u.Tautology? {
        assert ClausePlan(n, clause, anc) == Ok(AlwaysOn(anc));
        return Ok(gates + [X(anc)]);
      }
      var ks, neg := u.keys, u.negative;
      var flipped := FlipNegatives(gates, n, ks, neg);
      if flipped.Err? {
        NegativeFailsResolve(n, ks, neg);
        assert ClausePlan(n, clause, anc) == Err(IndexOutOfRange);
        return Err(flipped.message);
      }
      var controls := ResolveKeys(n, ks);
      if controls.Err? {
        assert ClausePlan(n, clause, anc) == Err(IndexOutOfRange);
        return Err(controls.message);
      }
      var qs := controls.value;
      NegativeQubitsFlipped(n, ks, neg);
      var xs := XLayer(Flipped(qs, Signs(ks, neg)));
      var acc := flipped.value;
      if |qs| > 0 {
        if !Distinct(qs + [anc]) {
          ClausePlanOfVars(n, clause, anc);
          return Err(DuplicateQubits);
        }
        acc := acc + [TargetGate(qs, anc), X(anc)];
      } else {
        acc := acc + [X(anc)];
      }
      acc := acc + xs;
      ApplyAssembled(gates, n, anc, clause);
      r := Ok(acc);
    }

    /** `_unapply_clause_oracle`: the same with the ancilla's X before the
        multi-controlled X. */
    static method UnapplyClauseOracle(gates: seq<Gate>, n: nat, anc: nat, clause: seq<int>) returns (r: Result<seq<Gate>>)
      ensures r == ClauseUnapplied(gates, n, anc, clause)
    {
      var u := CollectUniqueVars(clause);
      if u.Tautology? {
        assert ClausePlan(n, clause, anc) == Ok(AlwaysOn(anc));
        return Ok(gates + [X(anc)]);
      }
      var ks, neg := u.keys, u.negative;
      var flipped := FlipNegatives(gates, n, ks, neg);
      if flipped.Err? {
        NegativeFailsResolve(n, ks, neg);
        assert ClausePlan(n, clause, anc) == Err(IndexOutOfRange);
        return Err(flipped.message);
      }
      var controls := ResolveKeys(n, ks);
      if controls.Err? {
        assert ClausePlan(n, clause, anc) == Err(IndexOutOfRange);
        return Err(controls.message);
      }
      var qs := controls.value;
      NegativeQubitsFlipped(n, ks, neg);
      var xs := XLayer(Flipped(qs, Signs(ks, neg)));
      var acc := flipped.value;
      if |qs| > 0 {
        if !Distinct(qs + [anc]) {
          ClausePlanOfVars(n, clause, anc);
          return Err(DuplicateQubits);
        }
        acc := acc + [X(anc), TargetGate(qs, anc)];
      } else {
        acc := acc + [X(anc)];
      }
      acc := acc + xs;
      UnapplyAssembled(gates, n, anc, clause);
      r := Ok(acc);
    }

    /** The first loop of `build_oracle_circuit`: clause `i` computed into
        ancilla `n + i`, in order, until one raises. */
    static method ComputeClauses(gates: seq<Gate>, n: nat, cs: seq<seq<int>>) returns (r: Result<seq<Gate>>)
      ensures Plans(n, cs, n).Err? ==> r == Err(Plans(n, cs, n).message)
      ensures Plans(n, cs, n).Ok? ==>
        AllPlansWellFormed(Plans(n, cs, n).value) && r == Ok(gates + ComputeAll(Plans(n, cs, n).value))
    {
      var acc := gates;
      ghost var ps: seq<Plan> := [];
      var i := 0;
      while i < |cs|
        invariant 0 <= i <= |cs|
        invariant PlansUpTo(n, cs, i) == Ok(ps) && AllPlansWellFormed(ps)
        invariant acc == gates + ComputeAll(ps)
      {
        var next := ClauseApplied(acc, n, n + i, cs[i]);
        if next.Err? {
          ComputeRaises(acc, n, cs, i, ps);
          return Err(next.message);
        }
        ps := ComputeGrows(gates, n, cs, i, ps, acc);
        acc := next.value;
        i := i + 1;
      }
      PlansUpToWhole(n, cs);
      r := Ok(acc);
    }

    /** The second loop of `build_oracle_circuit`: the clauses uncomputed
        from the last to the first. */
    static method UncomputeClauses(gates: seq<Gate>, n: nat, cs: seq<seq<int>>) returns (r: seq<Gate>)
      requires Plans(n, cs, n).Ok?
      ensures AllPlansWellFormed(Plans(n, cs, n).value)
      ensures r == gates + UncomputeAll(Plans(n, cs, n).value)
    {
      PlansWellFormed(n, cs, n);
      ghost var ps := Plans(n, cs, n).value;
      var m := |cs|;
      r := gates;
      var j := 0;
      while j < m
        invariant 0 <= j <= m
        invariant r == gates + UncomputeAll(ps[m - j..])
      {
        var k := m - 1 - j;
        var next := ClauseUnapplied(r, n, n + k, cs[k]);
        UnappliedAt(r, n, cs, k);
        UncomputeGrows(gates, ps, m, j, k, r);
        r := next.value;
        j := j + 1;
      }
      assert ps[m - m..] == ps;
    }

    /** `build_oracle_circuit`: the H layer, each clause computed into its
        ancilla, the final multi-controlled X around a Z, and the clauses
        uncomputed from the last; the circuit is kept when it is built. */
    method BuildOracleCircuit() returns (r: Result<Circuit>)
      modifies this
      ensures r == OracleCircuit(numVariables, clauses)
      ensures numVariables == old(numVariables) && clauses == old(clauses)
      ensures circuit == (if r.Ok? then Some(r.value) else old(circuit))
    {
      var n := numVariables;
      var cs := clauses;
      var m := |cs|;
      var computed := ComputeClauses(HLayer(Range(0, n)), n, cs);
      if computed.Err? {
        return Err(computed.message);
      }
      if m == 0 {
        return Err(NoControls);
      }
      var g := PhaseGate(n, m);
      var gates := UncomputeClauses(computed.value + [g, Z(n + m), g], n, cs);
      var built := Circuit(n + m + 1, n, gates);
      circuit := Some(built);
      r := Ok(built);
    }

    /** One round of `create_grover_circuit`: the oracle's gates, then the
        diffusion block, which needs a last data qubit and a control. */
    static method GroverRound(gates: seq<Gate>, o: seq<Gate>, n: nat) returns (r: Result<seq<Gate>>)
      ensures n == 0 ==> r == Err(IndexOutOfRange)
      ensures n == 1 ==> r == Err(NoControls)
      ensures n >= 2 ==> r == Ok(gates + (o + Diffusion(n)))
    {
      var all := Range(0, n);
      var acc := gates + o + HLayer(all) + XLayer(all);
      if n == 0 {
        return Err(IndexOutOfRange);
      }
      acc := acc + [H(n - 1)];
      if n == 1 {
        return Err(NoControls);
      }
      acc := acc + [TargetGate(Range(0, n - 1), n - 1), H(n - 1)] + XLayer(all) + HLayer(all);
      DiffusionAppended(gates, o, HLayer(all), XLayer(all), H(n - 1), TargetGate(Range(0, n - 1), n - 1));
      r := Ok(acc);
    }

    /** `create_grover_circuit(iterations)`: the H layer, each round the
        oracle and the diffusion block, then the measurements. The oracle
        built on the way is kept as `circuit`. */
    method CreateGroverCircuit(iterations: int) returns (r: Result<Circuit>)
      modifies this
      ensures r == GroverCircuit(numVariables, clauses, iterations)
      ensures numVariables == old(numVariables) && clauses == old(clauses)
      ensures circuit == (if clauses != [] && OracleCircuit(numVariables, clauses).Ok?
                          then Some(OracleCircuit(numVariables, clauses).value) else old(circuit))
    {
      var n := numVariables;
      var cs := clauses;
      if cs == [] {
        return Err(NoClauses);
      }
      var oracle := BuildOracleCircuit();
      if oracle.Err? {
        return Err(oracle.message);
      }
      var o := oracle.value;
      var rounds := GroverRounds(HLayer(Range(0, n)), o.gates, n, iterations);
      if rounds.Err? {
        GroverRoundFails(n, cs, iterations);
        return Err(rounds.message);
      }
      var gates := rounds.value;
      GroverDone(n, cs, iterations, o, gates);
      gates := gates + Measures(n);
      r := Ok(Circuit(o.numQubits, n, gates));
    }

    /** The loop of `create_grover_circuit`: `iterations` rounds after the
        prefix `h`. */
    static method GroverRounds(h: seq<Gate>, o: seq<Gate>, n: nat, iterations: int) returns (r: Result<seq<Gate>>)
      ensures iterations > 0 && n == 0 ==> r == Err(IndexOutOfRange)
      ensures iterations > 0 && n == 1 ==> r == Err(NoControls)
      ensures iterations <= 0 ==> r == Ok(h)
      ensures iterations > 0 && n >= 2 ==> r == Ok(h + Repeat(o + Diffusion(n), iterations))
    {
      var gates := h;
      var k := 0;
      while k < iterations
        invariant 0 <= k && (k == 0 || k <= iterations)
        invariant RoundsDone(gates, h, o, n, k)
      {
        var next := GroverRound(gates, o, n);
        if next.Err? {
          return Err(next.message);
        }
        RoundsStep(gates, h, o, n, k);
        gates := next.value;
        k := k + 1;
      }
      r := Ok(gates);
    }
  }

  // ---------------------------------------------------------------------------
  // Loop steps

  /** The state of the round loop of `create_grover_circuit` after `k`
      rounds: the prefix `h`, then `k` copies of the oracle `o` and the
      diffusion block. */
  predicate RoundsDone(gates: seq<Gate>, h: seq<Gate>, o: seq<Gate>, n: nat, k: nat) {
    if k == 0 then gates == h else n >= 2 && gates == h + Repeat(o + Diffusion(n), k)
  }

  /** With a round to run and fewer than two data qubits, the circuit is
      the diffusion block's exception. */
  lemma GroverRoundFails(n: nat, cs: seq<seq<int>>, iterations: int)
    requires cs != [] && OracleCircuit(n, cs).Ok? && iterations > 0 && n < 2
    ensures GroverCircuit(n, cs, iterations) == Err(if n == 0 then IndexOutOfRange else NoControls)
  {
  }

  /** The rounds all run: the circuit is the loop's gates and the
      measurements. */
  lemma GroverDone(n: nat, cs: seq<seq<int>>, iterations: int, o: Circuit, gates: seq<Gate>)
    requires cs != [] && OracleCircuit(n, cs) == Ok(o)
    requires iterations <= 0 ==> gates == HLayer(Range(0, n))
    requires iterations > 0 ==> n >= 2 && gates == HLayer(Range(0, n)) + Repeat(o.gates + Diffusion(n), iterations)
    ensures GroverCircuit(n, cs, iterations) == Ok(Circuit(o.numQubits, n, gates + Measures(n)))
  {
    var h := HLayer(Range(0, n));
    if iterations <= 0 {
      assert h + [] == h;
    }
  }

  /** The diffusion block appended piece by piece. */
  lemma DiffusionAppended(gates: seq<Gate>, o: seq<Gate>, h: seq<Gate>, x: seq<Gate>, a: Gate, t: Gate)
    ensures gates + o + h + x + [a] + [t, a] + x + h == gates + (o + (h + x + [a, t, a] + x + h))
  {
    assert [a] + [t, a] == [a, t, a];
  }

  lemma RoundsStep(gates: seq<Gate>, h: seq<Gate>, o: seq<Gate>, n: nat, k: nat)
    requires n >= 2 && RoundsDone(gates, h, o, n, k)
    ensures RoundsDone(gates + (o + Diffusion(n)), h, o, n, k + 1)
  {
    if k > 0 {
      assert h + Repeat(o + Diffusion(n), k) + (o + Diffusion(n)) == h + (Repeat(o + Diffusion(n), k) + (o + Diffusion(n)));
    }
  }

  /** The X layer over the negative controls is empty when there is no
      control. */
  lemma NoControlsNoFlips(qs: seq<nat>, fs: seq<bool>)
    requires |qs| == |fs| && qs == []
    ensures XLayer(Flipped(qs, fs)) == []
  {
  }

  /** The gates `_apply_clause_oracle` appends once its controls resolve. */
  lemma ApplyAssembled(gates: seq<Gate>, n: nat, anc: nat, c: seq<int>)
    requires UniqueVars(c).Vars? && Resolve(n, UniqueVars(c).keys).Ok?
    requires var qs := Resolve(n, UniqueVars(c).keys).value; qs == [] || Distinct(qs + [anc])
    ensures var u := UniqueVars(c);
      var qs := Resolve(n, u.keys).value;
      var xs := XLayer(Flipped(qs, Signs(u.keys, u.negative)));
      ClausePlan(n, c, anc).Ok? && PlanWellFormed(ClausePlan(n, c, anc).value)
      && gates + ApplyGates(ClausePlan(n, c, anc).value)
         == gates + xs + (if qs == [] then [X(anc)] else [TargetGate(qs, anc), X(anc)]) + xs
  {
    var u := UniqueVars(c);
    var qs := Resolve(n, u.keys).value;
    ClausePlanOfVars(n, c, anc);
    if qs == [] {
      NoControlsNoFlips(qs, Signs(u.keys, u.negative));
      AlwaysOnApplied(gates, anc, XLayer(Flipped(qs, Signs(u.keys, u.negative))));
    } else {
      GatedApplied(gates, qs, Signs(u.keys, u.negative), anc);
    }
  }

  /** The gates `_unapply_clause_oracle` appends once its controls resolve. */
  lemma UnapplyAssembled(gates: seq<Gate>, n: nat, anc: nat, c: seq<int>)
    requires UniqueVars(c).Vars? && Resolve(n, UniqueVars(c).keys).Ok?
    requires var qs := Resolve(n, UniqueVars(c).keys).value; qs == [] || Distinct(qs + [anc])
    ensures var u := UniqueVars(c);
      var qs := Resolve(n, u.keys).value;
      var xs := XLayer(Flipped(qs, Signs(u.keys, u.negative)));
      ClausePlan(n, c, anc).Ok? && PlanWellFormed(ClausePlan(n, c, anc).value)
      && gates + UnapplyGates(ClausePlan(n, c, anc).value)
         == gates + xs + (if qs == [] then [X(anc)] else [X(anc), TargetGate(qs, anc)]) + xs
  {
    var u := UniqueVars(c);
    var qs := Resolve(n, u.keys).value;
    ClausePlanOfVars(n, c, anc);
    if qs == [] {
      NoControlsNoFlips(qs, Signs(u.keys, u.negative));
      AlwaysOnUnapplied(gates, anc, XLayer(Flipped(qs, Signs(u.keys, u.negative))));
    } else {
      GatedUnapplied(gates, qs, Signs(u.keys, u.negative), anc);
    }
  }

  lemma AlwaysOnApplied(gates: seq<Gate>, anc: nat, xs: seq<Gate>)
    requires xs == []
    ensures gates + ApplyGates(AlwaysOn(anc)) == gates + xs + [X(anc)] + xs
  {
  }

  lemma AlwaysOnUnapplied(gates: seq<Gate>, anc: nat, xs: seq<Gate>)
    requires xs == []
    ensures gates + UnapplyGates(AlwaysOn(anc)) == gates + xs + [X(anc)] + xs
  {
  }

  lemma GatedApplied(gates: seq<Gate>, qs: seq<nat>, fs: seq<bool>, anc: nat)
    requires |qs| == |fs|
    ensures PlanWellFormed(Gated(Entry(qs, fs, anc)))
    ensures var xs := XLayer(Flipped(qs, fs));
      gates + ApplyGates(Gated(Entry(qs, fs, anc))) == gates + xs + [TargetGate(qs, anc), X(anc)] + xs
  {
    var xs := XLayer(Flipped(qs, fs));
    assert gates + (xs + [TargetGate(qs, anc), X(anc)] + xs) == gates + xs + [TargetGate(qs, anc), X(anc)] + xs;
  }

  lemma GatedUnapplied(gates: seq<Gate>, qs: seq<nat>, fs: seq<bool>, anc: nat)
    requires |qs| == |fs|
    ensures PlanWellFormed(Gated(Entry(qs, fs, anc)))
    ensures var xs := XLayer(Flipped(qs, fs));
      gates + UnapplyGates(Gated(Entry(qs, fs, anc))) == gates + xs + [X(anc), TargetGate(qs, anc)] + xs
  {
    var xs := XLayer(Flipped(qs, fs));
    assert gates + (xs + [X(anc), TargetGate(qs, anc)] + xs) == gates + xs + [X(anc), TargetGate(qs, anc)] + xs;
  }

  lemma ClausePlanOfVars(n: nat, c: seq<int>, anc: nat)
    requires UniqueVars(c).Vars? && Resolve(n, UniqueVars(c).keys).Ok?
    ensures var u := UniqueVars(c);
      var qs := Resolve(n, u.keys).value;
      ClausePlan(n, c, anc) ==
        if qs == [] then Ok(AlwaysOn(anc))
        else if !Distinct(qs + [anc]) then Err(DuplicateQubits)
        else Ok(Gated(Entry(qs, Signs(u.keys, u.negative), anc)))
  {
  }

  /** What `_apply_clause_oracle` leaves: the exception its clause raises,
      or `gates` followed by the clause's gates. */
  function ClauseApplied(gates: seq<Gate>, n: nat, anc: nat, clause: seq<int>): Result<seq<Gate>> {
    var p :- ClausePlan(n, clause, anc);
    Ok(gates + ApplyGates(p))
  }

  /** What `_unapply_clause_oracle` leaves: the same with the uncompute
      gates. */
  function ClauseUnapplied(gates: seq<Gate>, n: nat, anc: nat, clause: seq<int>): Result<seq<Gate>> {
    var p :- ClausePlan(n, clause, anc);
    Ok(gates + UnapplyGates(p))
  }

  /** A clause whose compute raises ends `Plans` with that exception. */
  lemma ComputeRaises(acc: seq<Gate>, n: nat, cs: seq<seq<int>>, i: nat, ps: seq<Plan>)
    requires i < |cs| && PlansUpTo(n, cs, i) == Ok(ps)
    requires ClauseApplied(acc, n, n + i, cs[i]).Err?
    ensures Plans(n, cs, n) == Err(ClauseApplied(acc, n, n + i, cs[i]).message)
  {
    PlansUpToNext(n, cs, i);
    PlansUpToPrefix(n, cs, i + 1);
    PlansPrefixErr(n, cs, n, i + 1);
  }

  /** A clause whose compute succeeds extends the computed prefix by the
      compute gates of its plan. */
  lemma ComputeGrows(gates: seq<Gate>, n: nat, cs: seq<seq<int>>, i: nat, ps: seq<Plan>, acc: seq<Gate>)
      returns (ps': seq<Plan>)
    requires i < |cs| && PlansUpTo(n, cs, i) == Ok(ps) && AllPlansWellFormed(ps)
    requires acc == gates + ComputeAll(ps)
    requires ClauseApplied(acc, n, n + i, cs[i]).Ok?
    ensures PlansUpTo(n, cs, i + 1) == Ok(ps') && AllPlansWellFormed(ps')
    ensures ClauseApplied(acc, n, n + i, cs[i]).value == gates + ComputeAll(ps')
  {
    PlansUpToNext(n, cs, i);
    var p := ClausePlan(n, cs[i], n + i).value;
    ps' := ps + [p];
    ComputeAllSnoc(gates, ps, p);
  }

  /** One more clause of `PlansUpTo`. */
  lemma PlansUpToNext(n: nat, cs: seq<seq<int>>, i: nat)
    requires i < |cs| && PlansUpTo(n, cs, i).Ok?
    ensures ClausePlan(n, cs[i], n + i).Err? ==> PlansUpTo(n, cs, i + 1) == Err(ClausePlan(n, cs[i], n + i).message)
    ensures ClausePlan(n, cs[i], n + i).Ok? ==>
      PlansUpTo(n, cs, i + 1) == Ok(PlansUpTo(n, cs, i).value + [ClausePlan(n, cs[i], n + i).value])
  {
    assert n + (i + 1) - 1 == n + i && (i + 1) - 1 == i;
  }

  /** Building the plans one clause at a time gives `Plans`. */
  lemma PlansUpToWhole(n: nat, cs: seq<seq<int>>)
    ensures PlansUpTo(n, cs, |cs|) == Plans(n, cs, n)
  {
    PlansUpToPrefix(n, cs, |cs|);
    assert cs[..|cs|] == cs;
  }

  /** Once every clause has a plan, `_unapply_clause_oracle` does not
      raise on clause `k` and appends the uncompute gates of its plan. */
  lemma UnappliedAt(gates: seq<Gate>, n: nat, cs: seq<seq<int>>, k: nat)
    requires Plans(n, cs, n).Ok? && k < |cs|
    ensures PlanWellFormed(Plans(n, cs, n).value[k])
    ensures ClauseUnapplied(gates, n, n + k, cs[k]) == Ok(gates + UnapplyGates(Plans(n, cs, n).value[k]))
  {
    PlansAt(n, cs, n, k);
    UnappliedOk(gates, n, n + k, cs[k], Plans(n, cs, n).value[k]);
  }

  /** Uncomputing plan `k` after the plans above it extends the uncomputed
      suffix by one plan. */
  lemma UncomputeGrows(gates: seq<Gate>, ps: seq<Plan>, m: nat, j: nat, k: nat, r: seq<Gate>)
    requires AllPlansWellFormed(ps) && m == |ps| && j < m && k == m - 1 - j
    requires r == gates + UncomputeAll(ps[m - j..])
    ensures r + UnapplyGates(ps[k]) == gates + UncomputeAll(ps[m - (j + 1)..])
  {
    UncomputeAllStep(gates, ps, k);
    assert ps[k + 1..] == ps[m - j..];
  }

  lemma UnappliedOk(gates: seq<Gate>, n: nat, anc: nat, c: seq<int>, p: Plan)
    requires ClausePlan(n, c, anc) == Ok(p)
    ensures PlanWellFormed(p) && ClauseUnapplied(gates, n, anc, c) == Ok(gates + UnapplyGates(p))
  {
  }

  lemma UncomputeAllStep(gates: seq<Gate>, ps: seq<Plan>, k: nat)
    requires AllPlansWellFormed(ps) && k < |ps|
    ensures AllPlansWellFormed(ps[k..]) && AllPlansWellFormed(ps[k + 1..])
    ensures gates + UncomputeAll(ps[k..]) == gates + UncomputeAll(ps[k + 1..]) + UnapplyGates(ps[k])
  {
    assert ps[k..][1..] == ps[k + 1..];
    assert UncomputeAll(ps[k..]) == UncomputeAll(ps[k + 1..]) + UnapplyGates(ps[k]);
  }

  /** The plans of the first `i` clauses, built one clause at a time as
      the compute loop does. */
  function PlansUpTo(n: nat, cs: seq<seq<int>>, i: nat): Result<seq<Plan>>
    requires i <= |cs|
    decreases i
  {
    if i == 0 then Ok([])
    else
      var ps :- PlansUpTo(n, cs, i - 1);
      var p :- ClausePlan(n, cs[i - 1], n + i - 1);
      Ok(ps + [p])
  }

  lemma {:induction false} PlansUpToPrefix(n: nat, cs: seq<seq<int>>, i: nat)
    requires i <= |cs|
    ensures PlansUpTo(n, cs, i) == Plans(n, cs[..i], n)
    decreases i
  {
    if i > 0 {
      PlansUpToPrefix(n, cs, i - 1);
      assert cs[..i][..i - 1] == cs[..i - 1];
    }
  }

  lemma ComputeAllSnoc(gates: seq<Gate>, ps: seq<Plan>, p: Plan)
    requires AllPlansWellFormed(ps) && PlanWellFormed(p)
    ensures AllPlansWellFormed(ps + [p])
    ensures gates + ComputeAll(ps + [p]) == gates + ComputeAll(ps) + ApplyGates(p)
  {
    assert (ps + [p])[..|ps|] == ps;
    assert ComputeAll(ps + [p]) == ComputeAll(ps) + ApplyGates(p);
  }

  /** A clause that raises ends `Plans` with its exception. */
  lemma {:induction false} PlansPrefixErr(n: nat, cs: seq<seq<int>>, first: nat, j: nat)
    requires j <= |cs| && Plans(n, cs[..j], first).Err?
    ensures Plans(n, cs, first) == Plans(n, cs[..j], first)
    decreases |cs| - j
  {
    if j < |cs| {
      assert cs[..j + 1][..j] == cs[..j];
      PlansPrefixErr(n, cs, first, j + 1);
    } else {
      assert cs[..j] == cs;
    }
  }

  lemma {:induction false} ResolvePrefixErr(n: nat, ks: seq<int>, j: nat)
    requires j <= |ks| && Resolve(n, ks[..j]).Err?
    ensures Resolve(n, ks) == Err(IndexOutOfRange)
    decreases |ks| - j
  {
    if j < |ks| {
      assert ks[..j + 1][..j] == ks[..j];
      ResolvePrefixErr(n, ks, j + 1);
    } else {
      assert ks[..j] == ks;
    }
  }

  lemma {:induction false} NegativeQubitsPrefixErr(n: nat, ks: seq<int>, neg: map<int, bool>, j: nat)
    requires forall i :: 0 <= i < |ks| ==> ks[i] in neg
    requires j <= |ks| && NegativeQubits(n, ks[..j], neg).Err?
    ensures NegativeQubits(n, ks, neg) == NegativeQubits(n, ks[..j], neg)
    decreases |ks| - j
  {
    if j < |ks| {
      assert ks[..j + 1][..j] == ks[..j];
      NegativeQubitsPrefixErr(n, ks, neg, j + 1);
    } else {
      assert ks[..j] == ks;
    }
  }

  /** A negative key that does not index the register is a key that does
      not resolve. */
  lemma {:induction false} NegativeFailsResolve(n: nat, ks: seq<int>, neg: map<int, bool>)
    requires forall i :: 0 <= i < |ks| ==> ks[i] in neg
    requires NegativeQubits(n, ks, neg).Err?
    ensures NegativeQubits(n, ks, neg) == Err(IndexOutOfRange) && Resolve(n, ks).Err?
    decreases |ks|
  {
    var k := |ks| - 1;
    if NegativeQubits(n, ks[..k], neg).Err? {
      NegativeFailsResolve(n, ks[..k], neg);
    }
  }

  // ---------------------------------------------------------------------------
  // The example

  /** `create_simple_3sat_example`: three variables and the clauses
      (x1 | x2 | x3), (!x1 | x2 | !x3), (x1 | !x2 | x3). */
  method CreateSimple3satExample() returns (o: SATOracle)
    ensures fresh(o)
    ensures o.numVariables == 3 && o.clauses == ExampleClauses() && o.circuit == None
    ensures o.ThreeSat()
  {
    o := new SATOracle(3);
    var r1 := o.AddClause([1, 2, 3]);
    var r2 := o.AddClause([-1, 2, -3]);
    var r3 := o.AddClause([1, -2, 3]);
  }

  function ExampleClauses(): seq<seq<int>> {
    [[1, 2, 3], [-1, 2, -3], [1, -2, 3]]
  }

  /** The example's oracle builds: three variable qubits, three clause
      ancillas and the phase ancilla. */
  lemma ExampleOracle(n: nat, cs: seq<seq<int>>)
    requires n == 3 && cs == ExampleClauses()
    ensures OracleCircuit(n, cs).Ok? && OracleCircuit(n, cs).value.numQubits == 7
    ensures OracleCircuit(n, cs).value.numClbits == 3
  {
    forall i | 0 <= i < |cs|
      ensures ClausePlan(n, cs[i], n + i).Ok?
    {
      if i == 0 {
        ExampleClauseOk(n, cs[0], n);
      } else if i == 1 {
        ExampleClauseOk(n, cs[1], n + 1);
      } else {
        ExampleClauseOk(n, cs[2], n + 2);
      }
    }
    OracleOkIff(n, cs);
  }

  /** A clause of three non-zero literals over variables 1 to 3 has a plan
      on three variable qubits. */
  lemma ExampleClauseOk(n: nat, c: seq<int>, anc: nat)
    requires n == 3 && anc >= n && |c| == 3
    requires forall j :: 0 <= j < 3 ==> c[j] != 0 && -3 <= c[j] <= 3
    ensures ClausePlan(n, c, anc).Ok?
  {
    ClausePlanOkIff(n, c, anc);
    assert forall j :: 0 <= j < |c| ==> QubitOf(n, KeyOf(c[j])).Ok?;
  }
}
