/** What `SATOracle` in src/quantum_circuit.py builds, as functions of its
    variable count and clause list: each clause is deduplicated into
    controls on the variable qubits, computed into its own ancilla, the last
    ancilla collects the conjunction of the clause ancillas around a Z, and
    the clauses are uncomputed in reverse order. Qubit `i < n` is variable
    `i + 1`; ancilla `i` is qubit `n + i`. */
module GroverSpec {
  import opened Results
  import opened Gates
  import opened MctOracle

  const OnlyThreeSat := "Only 3-SAT clauses are supported"
  const NoClauses := "No clauses added to the oracle"

  // ---------------------------------------------------------------------------
  // Clause preprocessing: the `unique_vars` dictionary

  /** `abs(literal) - 1`, the dictionary key of a literal (-1 for literal 0). */
  function KeyOf(l: int): (k: int)
    ensures k >= -1
  {
    (if l < 0 then -l else l) - 1
  }

  /** A clause's dictionary, or the early return on a variable seen with both
      signs. `keys` is the dictionary's insertion order. */
  datatype Unique = Tautology | Vars(keys: seq<int>, negative: map<int, bool>)

  function UniqueVars(c: seq<int>): (u: Unique)
    ensures u.Vars? ==> forall j :: 0 <= j < |u.keys| ==> u.keys[j] in u.negative
    decreases |c|
  {
    if c == [] then Vars([], map[])
    else
      match UniqueVars(c[..|c| - 1])
      case Tautology => Tautology
      case Vars(ks, neg) =>
        var l := c[|c| - 1];
        var k := KeyOf(l);
        if k in neg then
          if neg[k] != (l < 0) then Tautology else Vars(ks, neg)
        else Vars(ks + [k], neg[k := l < 0])
  }

  /** Some variable occurs both plain and negated. */
  predicate Clash(c: seq<int>) {
    exists i, j :: 0 <= i < |c| && 0 <= j < |c| && KeyOf(c[i]) == KeyOf(c[j]) && (c[i] < 0) != (c[j] < 0)
  }

  predicate DistinctKeys(ks: seq<int>) {
    forall a, b :: 0 <= a < b < |ks| ==> ks[a] != ks[b]
  }

  // ---------------------------------------------------------------------------
  // Register indexing

  /** `qreg[k]` on a register of `n` qubits: Python indexing, negative keys
      counting from the end. */
  function QubitOf(n: nat, k: int): (r: Result<nat>)
    ensures r.Ok? <==> -(n as int) <= k < n
    ensures r.Ok? ==> r.value < n
    ensures r.Err? ==> r.message == IndexOutOfRange
  {
    if -(n as int) <= k < n then Ok(if k < 0 then n + k else k) else Err(IndexOutOfRange)
  }

  /** `[qreg[k] for k in keys]`. */
  function Resolve(n: nat, ks: seq<int>): (r: Result<seq<nat>>)
    ensures r.Ok? <==> forall j :: 0 <= j < |ks| ==> QubitOf(n, ks[j]).Ok?
    ensures r.Ok? ==> |r.value| == |ks|
    ensures r.Ok? ==> forall j :: 0 <= j < |ks| ==> QubitOf(n, ks[j]) == Ok(r.value[j])
    ensures r.Err? ==> r.message == IndexOutOfRange
    decreases |ks|
  {
    if ks == [] then Ok([])
    else
      var init := ks[..|ks| - 1];
      var p := Resolve(n, init);
      if p.Err? then
        assert exists j :: 0 <= j < |init| && QubitOf(n, init[j]).Err?;
        p
      else
        var q :- QubitOf(n, ks[|ks| - 1]);
        Ok(p.value + [q])
  }

  /** The qubits of the negative keys, in key order: what the X loop indexes. */
  function NegativeQubits(n: nat, ks: seq<int>, neg: map<int, bool>): Result<seq<nat>>
    requires forall j :: 0 <= j < |ks| ==> ks[j] in neg
    decreases |ks|
  {
    if ks == [] then Ok([])
    else
      var k := ks[|ks| - 1];
      var p :- NegativeQubits(n, ks[..|ks| - 1], neg);
      if neg[k] then
        var q :- QubitOf(n, k);
        Ok(p + [q])
      else Ok(p)
  }

  /** `is_negative` of each key, in key order. */
  function Signs(ks: seq<int>, neg: map<int, bool>): (fs: seq<bool>)
    requires forall j :: 0 <= j < |ks| ==> ks[j] in neg
    ensures |fs| == |ks|
  {
    seq(|ks|, j requires 0 <= j < |ks| => neg[ks[j]])
  }

  // ---------------------------------------------------------------------------
  // One clause's gates

  /** What a clause puts on its ancilla: a lone X (a clause with both signs of
      a variable, or no controls) or an X-bracketed multi-controlled X. */
  datatype Plan = AlwaysOn(target: nat) | Gated(entry: Entry)

  function PlanTarget(p: Plan): nat {
    match p
    case AlwaysOn(t) => t
    case Gated(e) => e.target
  }

  /** The plan `_apply_clause_oracle` and `_unapply_clause_oracle` follow for
      a clause on ancilla `anc`, or the exception they raise: an index past
      the variable register, or a control named twice (two keys that index
      the same qubit). */
  function ClausePlan(n: nat, c: seq<int>, anc: nat): (r: Result<Plan>)
    ensures r.Ok? ==> PlanTarget(r.value) == anc && PlanWellFormed(r.value)
  {
    match UniqueVars(c)
    case Tautology => Ok(AlwaysOn(anc))
    case Vars(ks, neg) =>
      var qs :- Resolve(n, ks);
      if qs == [] then Ok(AlwaysOn(anc))
      else if !Distinct(qs + [anc]) then Err(DuplicateQubits)
      else Ok(Gated(Entry(qs, Signs(ks, neg), anc)))
  }

  /** X on the negated controls, the controlled X and an X on the target,
      X on the negated controls again. */
  function ComputeBlock(e: Entry): seq<Gate>
    requires WellFormed(e)
  {
    var xs := XLayer(Flipped(e.controls, e.flips));
    xs + [TargetGate(e.controls, e.target), X(e.target)] + xs
  }

  /** The same with the target's X before the controlled X. */
  function UncomputeBlock(e: Entry): seq<Gate>
    requires WellFormed(e)
  {
    var xs := XLayer(Flipped(e.controls, e.flips));
    xs + [X(e.target), TargetGate(e.controls, e.target)] + xs
  }

  predicate PlanWellFormed(p: Plan) {
    p.Gated? ==> WellFormed(p.entry)
  }

  /** The gates `_apply_clause_oracle` appends. */
  function ApplyGates(p: Plan): seq<Gate>
    requires PlanWellFormed(p)
  {
    match p
    case AlwaysOn(t) => [X(t)]
    case Gated(e) => ComputeBlock(e)
  }

  /** The gates `_unapply_clause_oracle` appends. */
  function UnapplyGates(p: Plan): seq<Gate>
    requires PlanWellFormed(p)
  {
    match p
    case AlwaysOn(t) => [X(t)]
    case Gated(e) => UncomputeBlock(e)
  }

  // ---------------------------------------------------------------------------
  // The oracle

  /** The plans of the clauses, clause `i` on qubit `first + i`; the first
      clause that raises ends it. */
  function Plans(n: nat, cs: seq<seq<int>>, first: nat): (r: Result<seq<Plan>>)
    ensures r.Ok? ==> |r.value| == |cs|
    decreases |cs|
  {
    if cs == [] then Ok([])
    else
      var k := |cs| - 1;
      var ps :- Plans(n, cs[..k], first);
      var p :- ClausePlan(n, cs[k], first + k);
      Ok(ps + [p])
  }

  predicate AllPlansWellFormed(ps: seq<Plan>) {
    forall i :: 0 <= i < |ps| ==> PlanWellFormed(ps[i])
  }

  /** The compute loop: clause plans in ascending order. */
  function ComputeAll(ps: seq<Plan>): seq<Gate>
    requires AllPlansWellFormed(ps)
    decreases |ps|
  {
    if ps == [] then [] else ComputeAll(ps[..|ps| - 1]) + ApplyGates(ps[|ps| - 1])
  }

  /** The uncompute loop: clause plans from the last to the first. */
  function UncomputeAll(ps: seq<Plan>): seq<Gate>
    requires AllPlansWellFormed(ps)
    decreases |ps|
  {
    if ps == [] then [] else UncomputeAll(ps[1..]) + UnapplyGates(ps[0])
  }

  /** `circuit.h(qreg)`: an H on each listed qubit. */
  function HLayer(qs: seq<nat>): (gs: seq<Gate>)
    ensures |gs| == |qs|
    ensures forall k :: 0 <= k < |qs| ==> gs[k] == H(qs[k])
  {
    seq(|qs|, k requires 0 <= k < |qs| => H(qs[k]))
  }

  /** The multi-controlled X from the clause ancillas onto the last one. */
  function PhaseGate(n: nat, m: nat): Gate {
    TargetGate(Range(n, m), n + m)
  }

  /** The circuit `build_oracle_circuit` returns, or the exception it raises:
      `n` variable qubits, `m + 1` ancillas, `n` classical bits. With no
      clause the final multi-controlled X has no control. */
  function OracleCircuit(n: nat, cs: seq<seq<int>>): Result<Circuit> {
    var ps :- Plans(n, cs, n);
    var m := |cs|;
    if m == 0 then Err(NoControls)
    else
      PlansWellFormed(n, cs, n);
      var g := PhaseGate(n, m);
      Ok(Circuit(n + m + 1, n, HLayer(Range(0, n)) + ComputeAll(ps) + [g, Z(n + m), g] + UncomputeAll(ps)))
  }

  /** The parts of a built oracle. */
  lemma OracleParts(n: nat, cs: seq<seq<int>>)
    requires OracleCircuit(n, cs).Ok?
    ensures cs != [] && Plans(n, cs, n).Ok? && AllPlansWellFormed(Plans(n, cs, n).value)
    ensures var ps := Plans(n, cs, n).value;
      var g := PhaseGate(n, |cs|);
      OracleCircuit(n, cs).value
        == Circuit(n + |cs| + 1, n, HLayer(Range(0, n)) + ComputeAll(ps) + [g, Z(n + |cs|), g] + UncomputeAll(ps))
  {
    PlansWellFormed(n, cs, n);
  }

  lemma {:induction false} PlansWellFormed(n: nat, cs: seq<seq<int>>, first: nat)
    requires Plans(n, cs, first).Ok?
    ensures AllPlansWellFormed(Plans(n, cs, first).value)
    decreases |cs|
  {
    if cs != [] {
      PlansWellFormed(n, cs[..|cs| - 1], first);
    }
  }

  // ---------------------------------------------------------------------------
  // The Grover circuit

  /** The diffusion block on `n >= 2` data qubits. */
  function Diffusion(n: nat): seq<Gate>
    requires n >= 2
  {
    var all := Range(0, n);
    HLayer(all) + XLayer(all) + [H(n - 1), TargetGate(Range(0, n - 1), n - 1), H(n - 1)] + XLayer(all) + HLayer(all)
  }

  /** `k` copies of `b`. */
  function Repeat(b: seq<Gate>, k: nat): seq<Gate> {
    if k == 0 then [] else Repeat(b, k - 1) + b
  }

  /** `circuit.measure(qreg, creg)`: data qubit `i` into bit `i`. */
  function Measures(n: nat): (gs: seq<Gate>)
    ensures |gs| == n
    ensures forall i :: 0 <= i < n ==> gs[i] == Measure(i, i)
  {
    seq(n, i requires 0 <= i < n => Measure(i, i))
  }

  /** The circuit `create_grover_circuit(iterations)` returns, or the
      exception it raises. The diffusion block indexes the last data qubit
      (no data qubit: IndexError) and controls on the others (one data qubit:
      no control); with no iteration neither happens. */
  function GroverCircuit(n: nat, cs: seq<seq<int>>, iterations: int): Result<Circuit> {
    if cs == [] then Err(NoClauses)
    else
      var o :- OracleCircuit(n, cs);
      if iterations > 0 && n == 0 then Err(IndexOutOfRange)
      else if iterations > 0 && n == 1 then Err(NoControls)
      else
        var rounds := if iterations > 0 then Repeat(o.gates + Diffusion(n), iterations) else [];
        Ok(Circuit(o.numQubits, n, HLayer(Range(0, n)) + rounds + Measures(n)))
  }
}
