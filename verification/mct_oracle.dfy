/** The multi-controlled-Toffoli oracle `build_circuit_from_cnf_with_global_and`
    builds from a CNF formula (src/cnf_to_mct_json.py): one qubit per
    variable, one per clause, unused ancillas and a global output qubit.
    Every clause qubit is set to 1, each clause XORs the conjunction of its
    literals into its qubit, the global qubit collects the conjunction of the
    clause qubits, and the clause blocks are replayed in reverse order to
    uncompute. */
module MctOracle {
  import opened Results
  import opened Cnf
  import opened Gates

  // ---------------------------------------------------------------------------
  // Layout

  datatype Layout = Layout(varQubits: seq<nat>, clauseQubits: seq<nat>, ancillaQubits: seq<nat>, globalQubit: nat)

  /** `[start + i for i in range(n)]`. */
  function Range(start: nat, n: nat): (r: seq<nat>)
    ensures |r| == n
    ensures forall i :: 0 <= i < n ==> r[i] == start + i
  {
    seq(n, i requires 0 <= i < n => start + i)
  }

  /** `max(len(c) - 2 for c in clauses)` over a non-empty list. */
  function MaxExcess(clauses: Formula): int
    requires clauses != []
    decreases |clauses|
  {
    var e := |clauses[|clauses| - 1]| - 2;
    if |clauses| == 1 then e
    else
      var m := MaxExcess(clauses[..|clauses| - 1]);
      if m < e then e else m
  }

  function NumAncilla(clauses: Formula): nat {
    if clauses == [] then 0
    else
      var m := MaxExcess(clauses);
      if m < 0 then 0 else m
  }

  function NumQubits(nvars: nat, clauses: Formula): nat {
    nvars + |clauses| + NumAncilla(clauses) + 1
  }

  function MakeLayout(nvars: nat, clauses: Formula): Layout {
    var m := |clauses|;
    var a := NumAncilla(clauses);
    Layout(Range(0, nvars), Range(nvars, m), Range(nvars + m, a), nvars + m + a)
  }

  /** The variable, clause and ancilla qubits followed by the global qubit
      are exactly 0, 1, ..., num_qubits - 1, and every clause of more than
      two literals has that many ancillas minus two. */
  lemma LayoutPartition(nvars: nat, clauses: Formula)
    ensures var l := MakeLayout(nvars, clauses);
      l.varQubits + l.clauseQubits + l.ancillaQubits + [l.globalQubit] == Range(0, NumQubits(nvars, clauses))
      && l.globalQubit == NumQubits(nvars, clauses) - 1
    ensures forall c :: c in clauses ==> |c| - 2 <= NumAncilla(clauses)
  {
    var l := MakeLayout(nvars, clauses);
    var all := l.varQubits + l.clauseQubits + l.ancillaQubits + [l.globalQubit];
    assert |all| == NumQubits(nvars, clauses);
    forall i | 0 <= i < |all| ensures all[i] == i {
      if i < nvars {
      } else if i < nvars + |clauses| {
        assert all[i] == l.clauseQubits[i - nvars];
      } else if i < nvars + |clauses| + NumAncilla(clauses) {
        assert all[i] == l.ancillaQubits[i - nvars - |clauses|];
      }
    }
    if clauses != [] {
      MaxExcessBound(clauses);
    }
  }

  lemma {:induction false} MaxExcessBound(clauses: Formula)
    requires clauses != []
    ensures forall c :: c in clauses ==> |c| - 2 <= MaxExcess(clauses)
    decreases |clauses|
  {
    if |clauses| > 1 {
      var front := clauses[..|clauses| - 1];
      MaxExcessBound(front);
      assert forall c :: c in clauses ==> c in front || c == clauses[|clauses| - 1];
    }
  }

  // ---------------------------------------------------------------------------
  // Clause blocks

  const IndexOutOfRange := "list index out of range"
  const NoControls := "multi-controlled X needs at least one control qubit"
  const DuplicateQubits := "duplicate qubit arguments"

  /** `var_qubits[abs(lit) - 1]`: literal 0 indexes -1, the last variable. */
  function ControlOf(nvars: nat, lit: int): (r: Result<nat>)
    ensures r.Ok? ==> r.value < nvars
    ensures r.Ok? <==> (Var(lit) <= nvars && (lit != 0 || nvars > 0))
    ensures r.Ok? && lit != 0 ==> r.value == Var(lit) - 1
    ensures r.Ok? && lit == 0 ==> r.value == nvars - 1
  {
    var idx := Var(lit) - 1;
    if idx < nvars && (0 <= idx || 0 < nvars) then Ok(if idx < 0 then nvars - 1 else idx)
    else Err(IndexOutOfRange)
  }

  /** The controls and X-flips of one clause (flip when the literal is not
      positive), or the error of the first literal that has no variable. */
  function ClauseControls(nvars: nat, clause: Clause): (r: Result<(seq<nat>, seq<bool>)>)
    ensures r.Ok? ==> |r.value.0| == |clause| && |r.value.1| == |clause|
    ensures r.Ok? ==> forall k :: 0 <= k < |clause| ==>
      ControlOf(nvars, clause[k]) == Ok(r.value.0[k]) && r.value.1[k] == (clause[k] <= 0)
    decreases |clause|
  {
    if clause == [] then Ok(([], []))
    else
      var p :- ClauseControls(nvars, clause[..|clause| - 1]);
      var q :- ControlOf(nvars, clause[|clause| - 1]);
      Ok((p.0 + [q], p.1 + [clause[|clause| - 1] <= 0]))
  }

  /** A recorded clause block: controls, their flips and the target. */
  datatype Entry = Entry(controls: seq<nat>, flips: seq<bool>, target: nat)

  predicate WellFormed(e: Entry) {
    |e.controls| == |e.flips|
  }

  /** The controls whose flip is set, in order. */
  function Flipped(cs: seq<nat>, fs: seq<bool>): (r: seq<nat>)
    requires |cs| == |fs|
    ensures forall q :: q in r ==> q in cs
    decreases |cs|
  {
    if cs == [] then []
    else
      var n := |cs| - 1;
      Flipped(cs[..n], fs[..n]) + (if fs[n] then [cs[n]] else [])
  }

  /** CX, CCX or MCX from the controls onto the target, by control count. */
  function TargetGate(cs: seq<nat>, t: nat): Gate {
    if |cs| == 1 then CX(cs[0], t)
    else if |cs| == 2 then CCX(cs[0], cs[1], t)
    else MCX(cs, t)
  }

  /** X on each flipped control, the target gate, X on the flipped controls
      again. */
  function Block(e: Entry): seq<Gate>
    requires WellFormed(e)
  {
    var xs := XLayer(Flipped(e.controls, e.flips));
    xs + [TargetGate(e.controls, e.target)] + xs
  }

  /** The recorded block of one clause, or why Qiskit or Python refuses it. */
  function EntryOf(nvars: nat, clause: Clause, target: nat): (r: Result<Entry>)
    ensures r.Ok? ==> WellFormed(r.value) && r.value.target == target
  {
    var p :- ClauseControls(nvars, clause);
    if clause == [] then Err(NoControls)
    else if !Distinct(p.0) then Err(DuplicateQubits)
    else Ok(Entry(p.0, p.1, target))
  }

  /** The history after the clauses, clause i targeting qubit nvars + i;
      the first refused clause ends it. */
  function Entries(nvars: nat, clauses: Formula): (r: Result<seq<Entry>>)
    ensures r.Ok? ==> |r.value| == |clauses|
    decreases |clauses|
  {
    if clauses == [] then Ok([])
    else
      var n := |clauses| - 1;
      var es :- Entries(nvars, clauses[..n]);
      var e :- EntryOf(nvars, clauses[n], nvars + n);
      Ok(es + [e])
  }

  predicate AllWellFormed(es: seq<Entry>) {
    forall i :: 0 <= i < |es| ==> WellFormed(es[i])
  }

  /** The clause blocks in recording order. */
  function Blocks(es: seq<Entry>): seq<Gate>
    requires AllWellFormed(es)
    decreases |es|
  {
    if es == [] then [] else Blocks(es[..|es| - 1]) + Block(es[|es| - 1])
  }

  /** The clause blocks in reverse recording order. */
  function Replay(es: seq<Entry>): seq<Gate>
    requires AllWellFormed(es)
    decreases |es|
  {
    if es == [] then [] else Replay(es[1..]) + Block(es[0])
  }

  /** The global gate, absent when there are no clauses. */
  function GlobalGates(cqs: seq<nat>, g: nat): seq<Gate> {
    if cqs == [] then [] else [TargetGate(cqs, g)]
  }

  datatype Built = Built(circuit: Circuit, layout: Layout)

  /** The circuit and layout `build_circuit_from_cnf_with_global_and`
      returns, or the exception it raises. */
  function BuildSpec(nvars: nat, clauses: Formula): Result<Built> {
    var l := MakeLayout(nvars, clauses);
    var es :- Entries(nvars, clauses);
    EntriesWellFormed(nvars, clauses);
    Ok(Built(Circuit(NumQubits(nvars, clauses), 1,
      XLayer(l.clauseQubits) + Blocks(es) + GlobalGates(l.clauseQubits, l.globalQubit) + Replay(es)), l))
  }

  lemma {:induction false} EntriesWellFormed(nvars: nat, clauses: Formula)
    requires Entries(nvars, clauses).Ok?
    ensures var es := Entries(nvars, clauses).value;
      AllWellFormed(es)
      && forall i :: 0 <= i < |es| ==>
        es[i].target == nvars + i && Distinct(es[i].controls)
        && (forall k :: 0 <= k < |es[i].controls| ==> es[i].controls[k] < nvars)
        && EntryOf(nvars, clauses[i], nvars + i) == Ok(es[i])
    decreases |clauses|
  {
    if clauses != [] {
      var n := |clauses| - 1;
      EntriesWellFormed(nvars, clauses[..n]);
    }
  }

  /** The literals of the clause name pairwise different variable qubits. */
  predicate DistinctVariables(nvars: nat, c: Clause)
    requires Resolves(nvars, c)
  {
    forall a, b :: 0 <= a < b < |c| ==> ControlOf(nvars, c[a]).value != ControlOf(nvars, c[b]).value
  }

  lemma {:induction false} ClauseControlsOkIff(nvars: nat, c: Clause)
    ensures ClauseControls(nvars, c).Ok? <==> Resolves(nvars, c)
    decreases |c|
  {
    if c != [] {
      var n := |c| - 1;
      ClauseControlsOkIff(nvars, c[..n]);
      assert forall k :: 0 <= k < n ==> c[..n][k] == c[k];
    }
  }

  /** A clause is accepted exactly when it has a literal, every literal has
      a variable qubit, and no two literals share one. */
  lemma EntryOfOkIff(nvars: nat, c: Clause, t: nat)
    ensures EntryOf(nvars, c, t).Ok? <==>
      c != [] && Resolves(nvars, c) && DistinctVariables(nvars, c)
  {
    ClauseControlsOkIff(nvars, c);
  }

  lemma {:induction false} EntriesOkIff(nvars: nat, clauses: Formula)
    ensures Entries(nvars, clauses).Ok? <==>
      forall i :: 0 <= i < |clauses| ==> EntryOf(nvars, clauses[i], nvars + i).Ok?
    decreases |clauses|
  {
    if clauses != [] {
      var n := |clauses| - 1;
      EntriesOkIff(nvars, clauses[..n]);
      assert forall i :: 0 <= i < n ==> clauses[..n][i] == clauses[i];
    }
  }

  /** The build succeeds exactly when every clause is non-empty, refers only
      to existing variables (literal 0 standing for the last one) and names
      no variable twice. */
  lemma BuildOkIff(nvars: nat, clauses: Formula)
    ensures BuildSpec(nvars, clauses).Ok? <==>
      forall i :: 0 <= i < |clauses| ==>
        clauses[i] != [] && Resolves(nvars, clauses[i]) && DistinctVariables(nvars, clauses[i])
  {
    EntriesOkIff(nvars, clauses);
    forall i | 0 <= i < |clauses|
      ensures EntryOf(nvars, clauses[i], nvars + i).Ok? <==>
        clauses[i] != [] && Resolves(nvars, clauses[i]) && DistinctVariables(nvars, clauses[i])
    {
      EntryOfOkIff(nvars, clauses[i], nvars + i);
    }
  }

  /** Clause i of a successful build is recorded with its literals'
      variable qubits as controls, clause qubit i as target, and an X
      bracket on exactly the controls of non-positive literals. */
  lemma ClauseBlock(nvars: nat, clauses: Formula, i: nat)
    requires Entries(nvars, clauses).Ok? && i < |clauses|
    ensures var e := Entries(nvars, clauses).value[i];
      WellFormed(e) && e.target == nvars + i && |e.controls| == |clauses[i]| > 0
      && (forall k :: 0 <= k < |e.controls| ==>
            ControlOf(nvars, clauses[i][k]) == Ok(e.controls[k])
            && (e.controls[k] in Flipped(e.controls, e.flips) <==> clauses[i][k] <= 0))
      && (forall q :: q in Flipped(e.controls, e.flips) ==> q in e.controls)
  {
    EntriesWellFormed(nvars, clauses);
    var e := Entries(nvars, clauses).value[i];
    FlippedFacts(e.controls, e.flips);
  }

  // ---------------------------------------------------------------------------
  // Classical meaning

  predicate ControlsBelow(e: Entry, bound: nat) {
    forall k :: 0 <= k < |e.controls| ==> e.controls[k] < bound
  }

  /** Every control of the block reads 1 once its flip is applied. */
  predicate Fires(e: Entry, s: seq<bool>)
    requires WellFormed(e) && ControlsBelow(e, |s|)
  {
    forall k :: 0 <= k < |e.controls| ==> s[e.controls[k]] != e.flips[k]
  }

  lemma ApplyTargetGate(cs: seq<nat>, t: nat, s: seq<bool>)
    requires forall k :: 0 <= k < |cs| ==> cs[k] < |s|
    requires t < |s|
    ensures Classical(TargetGate(cs, t)) && GateInRange(TargetGate(cs, t), |s|)
    ensures Apply(TargetGate(cs, t), s) == s[t := s[t] != AllOn(s, cs)]
  {
    var g := TargetGate(cs, t);
    assert forall k :: 0 <= k < |cs| ==> Qubits(g)[k] == cs[k];
    assert Qubits(g)[|cs|] == t;
  }

  /** A flip-set control is one whose flip is set, and flipping keeps
      distinct controls distinct. */
  lemma {:induction false} FlippedFacts(cs: seq<nat>, fs: seq<bool>)
    requires |cs| == |fs| && Distinct(cs)
    ensures Distinct(Flipped(cs, fs))
    ensures forall k :: 0 <= k < |cs| ==> (cs[k] in Flipped(cs, fs) <==> fs[k])
    decreases |cs|
  {
    if cs != [] {
      var n := |cs| - 1;
      var fl := Flipped(cs[..n], fs[..n]);
      assert forall i, j :: 0 <= i < j < n ==> cs[..n][i] == cs[i] && cs[..n][j] == cs[j];
      FlippedFacts(cs[..n], fs[..n]);
      assert cs[n] !in fl by {
        assert cs[n] !in cs[..n];
      }
      if fs[n] {
        DistinctSnoc(fl, cs[n]);
      } else {
        assert fl + [] == fl;
      }
      forall k | 0 <= k < |cs| ensures cs[k] in Flipped(cs, fs) <==> fs[k] {
        if k < n {
          assert cs[..n][k] == cs[k] && fs[..n][k] == fs[k];
          assert cs[k] != cs[n];
        }
      }
    }
  }

  lemma DistinctSnoc(xs: seq<nat>, x: nat)
    requires Distinct(xs) && x !in xs
    ensures Distinct(xs + [x])
  {
    var ys := xs + [x];
    forall i, j | 0 <= i < j < |ys| ensures ys[i] != ys[j] {
      if j < |xs| {
        assert ys[i] == xs[i] && ys[j] == xs[j];
      } else {
        assert ys[i] == xs[i] && ys[i] in xs;
      }
    }
  }

  /** After the first X bracket every control reads 1 exactly when the
      block fires on the state before it. */
  lemma BracketReadsFires(e: Entry, s: seq<bool>)
    requires WellFormed(e) && Distinct(e.controls) && ControlsBelow(e, |s|)
    ensures forall q :: q in Flipped(e.controls, e.flips) ==> q < |s|
    ensures ClassicalCircuit(XLayer(Flipped(e.controls, e.flips)), |s|)
    ensures forall q :: 0 <= q < |s| ==>
      Run(XLayer(Flipped(e.controls, e.flips)), s)[q] == (if q in Flipped(e.controls, e.flips) then !s[q] else s[q])
    ensures AllOn(Run(XLayer(Flipped(e.controls, e.flips)), s), e.controls) == Fires(e, s)
  {
    var fl := Flipped(e.controls, e.flips);
    FlippedFacts(e.controls, e.flips);
    forall k | 0 <= k < |fl| ensures fl[k] < |s| {
      assert fl[k] in fl;
    }
    RunXLayer(fl, s);
  }

  /** A block runs as its first bracket, its target gate and its second
      bracket. */
  lemma RunBlock(e: Entry, s: seq<bool>)
    requires WellFormed(e) && ControlsBelow(e, |s|) && e.target < |s|
    requires ClassicalCircuit(XLayer(Flipped(e.controls, e.flips)), |s|)
    ensures ClassicalCircuit(Block(e), |s|)
    ensures var xs := XLayer(Flipped(e.controls, e.flips));
      var g := TargetGate(e.controls, e.target);
      Classical(g) && GateInRange(g, |s|)
      && Run(Block(e), s) == Run(xs, Apply(g, Run(xs, s)))
  {
    var xs := XLayer(Flipped(e.controls, e.flips));
    var g := TargetGate(e.controls, e.target);
    ApplyTargetGate(e.controls, e.target, Run(xs, s));
    RunAround(xs, g, xs, s);
  }

  /** Flipping the same qubits around a single-qubit update that avoids them
      leaves only the update. */
  lemma BracketCancels(fl: seq<nat>, t: nat, b: bool, s: seq<bool>, s1: seq<bool>, s3: seq<bool>)
    requires t < |s| && t !in fl && |s1| == |s| && |s3| == |s|
    requires forall q :: 0 <= q < |s| ==> s1[q] == (if q in fl then !s[q] else s[q])
    requires forall q :: 0 <= q < |s| ==>
      s3[q] == (if q in fl then !s1[t := s1[t] != b][q] else s1[t := s1[t] != b][q])
    ensures s3 == s[t := s[t] != b]
  {
    forall q | 0 <= q < |s| ensures s3[q] == s[t := s[t] != b][q] {
      if q == t {
      } else {
      }
    }
  }

  /** One clause block XORs "every control fires" into its target and
      leaves every other qubit as it was: the X brackets cancel. */
  lemma BlockEffect(e: Entry, s: seq<bool>)
    requires WellFormed(e) && Distinct(e.controls) && ControlsBelow(e, |s|)
    requires e.target < |s| && e.target !in e.controls
    ensures ClassicalCircuit(Block(e), |s|)
    ensures Run(Block(e), s) == s[e.target := s[e.target] != Fires(e, s)]
  {
    var fl := Flipped(e.controls, e.flips);
    var xs := XLayer(fl);
    var g := TargetGate(e.controls, e.target);
    BracketReadsFires(e, s);
    RunBlock(e, s);
    var s1 := Run(xs, s);
    ApplyTargetGate(e.controls, e.target, s1);
    var s2 := Apply(g, s1);
    assert s2 == s1[e.target := s1[e.target] != Fires(e, s)];
    BracketReadsFires(e, s2);
    assert e.target !in fl;
    BracketCancels(fl, e.target, Fires(e, s), s, s1, Run(xs, s2));
  }

  /** Every entry is well formed, with distinct controls below `nvars` and a
      target in `[nvars, n)`. */
  predicate Shaped(es: seq<Entry>, nvars: nat, n: nat) {
    forall i :: 0 <= i < |es| ==> EntryShaped(es[i], nvars, n)
  }

  predicate EntryShaped(e: Entry, nvars: nat, n: nat) {
    WellFormed(e) && Distinct(e.controls) && ControlsBelow(e, nvars) && nvars <= e.target < n
  }

  /** Whether the blocks XOR an odd number of firings into qubit `q`. */
  function Toggle(es: seq<Entry>, q: nat, s: seq<bool>): bool
    requires forall i :: 0 <= i < |es| ==> WellFormed(es[i]) && ControlsBelow(es[i], |s|)
    decreases |es|
  {
    if es == [] then false
    else
      var n := |es| - 1;
      Toggle(es[..n], q, s) != (es[n].target == q && Fires(es[n], s))
  }

  lemma {:induction false} ToggleCons(es: seq<Entry>, q: nat, s: seq<bool>)
    requires es != []
    requires forall i :: 0 <= i < |es| ==> WellFormed(es[i]) && ControlsBelow(es[i], |s|)
    ensures Toggle(es, q, s) == (Toggle(es[1..], q, s) != (es[0].target == q && Fires(es[0], s)))
    decreases |es|
  {
    if |es| > 1 {
      var n := |es| - 1;
      ToggleCons(es[..n], q, s);
      assert es[..n][1..] == es[1..][..n - 1];
    }
  }

  /** Firings read only the controls, so states that agree below `nvars`
      toggle alike. */
  lemma {:induction false} ToggleFrame(es: seq<Entry>, nvars: nat, q: nat, s: seq<bool>, t: seq<bool>)
    requires |s| == |t| && Shaped(es, nvars, |s|) && nvars <= |s|
    requires forall p :: 0 <= p < nvars ==> s[p] == t[p]
    ensures Toggle(es, q, s) == Toggle(es, q, t)
    decreases |es|
  {
    if es != [] {
      ToggleFrame(es[..|es| - 1], nvars, q, s, t);
    }
  }

  /** Toggle only reaches targets. */
  lemma {:induction false} ToggleTargets(es: seq<Entry>, nvars: nat, s: seq<bool>)
    requires Shaped(es, nvars, |s|) && nvars <= |s|
    requires forall i :: 0 <= i < |es| ==> es[i].target == nvars + i
    ensures forall q :: 0 <= q < |s| && !(nvars <= q < nvars + |es|) ==> !Toggle(es, q, s)
    ensures forall i :: 0 <= i < |es| ==> Toggle(es, nvars + i, s) == Fires(es[i], s)
    decreases |es|
  {
    if es != [] {
      ToggleTargets(es[..|es| - 1], nvars, s);
    }
  }

  lemma {:induction false} BlocksEffect(es: seq<Entry>, nvars: nat, s: seq<bool>)
    requires Shaped(es, nvars, |s|) && nvars <= |s|
    ensures AllWellFormed(es) && ClassicalCircuit(Blocks(es), |s|)
    ensures forall q :: 0 <= q < |s| ==> Run(Blocks(es), s)[q] == (s[q] != Toggle(es, q, s))
    decreases |es|
  {
    if es != [] {
      var n := |es| - 1;
      var e := es[n];
      assert Shaped(es[..n], nvars, |s|);
      BlocksEffect(es[..n], nvars, s);
      var s1 := Run(Blocks(es[..n]), s);
      StepAfter(es[..n], e, nvars, s, s1);
      RunAppend(Blocks(es[..n]), Block(e), s);
      assert Blocks(es) == Blocks(es[..n]) + Block(e);
    }
  }

  /** A block run after blocks `es`: it reads the same controls as on `s`. */
  lemma StepAfter(es: seq<Entry>, e: Entry, nvars: nat, s: seq<bool>, s1: seq<bool>)
    requires Shaped(es, nvars, |s|) && EntryShaped(e, nvars, |s|) && nvars <= |s|
    requires |s1| == |s| && forall q :: 0 <= q < |s| ==> s1[q] == (s[q] != Toggle(es, q, s))
    ensures ClassicalCircuit(Block(e), |s|)
    ensures Run(Block(e), s1) == s1[e.target := s1[e.target] != Fires(e, s)]
  {
    forall p | 0 <= p < nvars ensures s1[p] == s[p] {
      ToggleBelow(es, nvars, p, s);
    }
    assert e.target !in e.controls;
    BlockEffect(e, s1);
    assert Fires(e, s1) == Fires(e, s);
  }

  lemma {:induction false} ToggleBelow(es: seq<Entry>, nvars: nat, q: nat, s: seq<bool>)
    requires Shaped(es, nvars, |s|) && q < nvars <= |s|
    ensures !Toggle(es, q, s)
    decreases |es|
  {
    if es != [] {
      ToggleBelow(es[..|es| - 1], nvars, q, s);
    }
  }

  lemma {:induction false} ReplayEffect(es: seq<Entry>, nvars: nat, s: seq<bool>)
    requires Shaped(es, nvars, |s|) && nvars <= |s|
    ensures AllWellFormed(es) && ClassicalCircuit(Replay(es), |s|)
    ensures forall q :: 0 <= q < |s| ==> Run(Replay(es), s)[q] == (s[q] != Toggle(es, q, s))
    decreases |es|
  {
    if es != [] {
      var e := es[0];
      assert Shaped(es[1..], nvars, |s|);
      ReplayEffect(es[1..], nvars, s);
      var s1 := Run(Replay(es[1..]), s);
      StepAfter(es[1..], e, nvars, s, s1);
      RunAppend(Replay(es[1..]), Block(e), s);
      forall q | 0 <= q < |s| ensures Run(Replay(es), s)[q] == (s[q] != Toggle(es, q, s)) {
        ToggleCons(es, q, s);
      }
    }
  }

  lemma InRange(q: nat, start: nat, n: nat)
    ensures q in Range(start, n) <==> start <= q < start + n
  {
    if start <= q < start + n {
      assert Range(start, n)[q - start] == q;
    }
  }

  lemma RangeDistinct(start: nat, n: nat)
    ensures Distinct(Range(start, n))
  {
  }

  lemma EntriesShaped(nvars: nat, clauses: Formula)
    requires Entries(nvars, clauses).Ok?
    ensures var es := Entries(nvars, clauses).value;
      AllWellFormed(es) && Shaped(es, nvars, NumQubits(nvars, clauses))
      && forall i :: 0 <= i < |es| ==> es[i].target == nvars + i
  {
    EntriesWellFormed(nvars, clauses);
  }

  /** The state at the middle of the circuit: after the clause qubits are
      set and every clause block has run, before the global gate. */
  function Middle(nvars: nat, clauses: Formula, s: seq<bool>): seq<bool>
    requires Entries(nvars, clauses).Ok? && |s| == NumQubits(nvars, clauses)
  {
    var es := Entries(nvars, clauses).value;
    var cqs := MakeLayout(nvars, clauses).clauseQubits;
    EntriesShaped(nvars, clauses);
    BlocksEffect(es, nvars, Run(XLayer(cqs), s));
    RunXLayer(cqs, s);
    Run(Blocks(es), Run(XLayer(cqs), s))
  }

  /** A literal's value on a basis state: its variable's qubit, negated
      unless the literal is positive. */
  function LiteralValue(nvars: nat, l: int, s: seq<bool>): bool
    requires ControlOf(nvars, l).Ok? && nvars <= |s|
  {
    var q := ControlOf(nvars, l).value;
    if l > 0 then s[q] else !s[q]
  }

  /** Every literal of the clause has a variable qubit. */
  predicate Resolves(nvars: nat, c: Clause) {
    forall k :: 0 <= k < |c| ==> ControlOf(nvars, c[k]).Ok?
  }

  predicate AllLiteralsTrue(nvars: nat, c: Clause, s: seq<bool>)
    requires Resolves(nvars, c) && nvars <= |s|
  {
    forall k :: 0 <= k < |c| ==> LiteralValue(nvars, c[k], s)
  }

  /** A recorded block fires exactly when every literal of its clause is
      true. */
  lemma FiresIffLiteralsTrue(nvars: nat, c: Clause, t: nat, s: seq<bool>)
    requires EntryOf(nvars, c, t).Ok? && nvars <= |s|
    ensures Resolves(nvars, c) && ControlsBelow(EntryOf(nvars, c, t).value, |s|)
    ensures Fires(EntryOf(nvars, c, t).value, s) == AllLiteralsTrue(nvars, c, s)
  {
  }

  lemma LiteralsFrame(nvars: nat, c: Clause, s: seq<bool>, t: seq<bool>)
    requires Resolves(nvars, c) && nvars <= |s| && nvars <= |t|
    requires forall p :: 0 <= p < nvars ==> s[p] == t[p]
    ensures AllLiteralsTrue(nvars, c, s) == AllLiteralsTrue(nvars, c, t)
  {
    assert forall k :: 0 <= k < |c| ==> LiteralValue(nvars, c[k], s) == LiteralValue(nvars, c[k], t);
  }

  /** The state after the clause qubits are set: those qubits negated. */
  lemma AfterClauseX(nvars: nat, clauses: Formula, s: seq<bool>)
    requires |s| == NumQubits(nvars, clauses)
    ensures var cqs := MakeLayout(nvars, clauses).clauseQubits;
      ClassicalCircuit(XLayer(cqs), |s|)
      && forall q :: 0 <= q < |s| ==>
        Run(XLayer(cqs), s)[q] == (if nvars <= q < nvars + |clauses| then !s[q] else s[q])
  {
    var cqs := MakeLayout(nvars, clauses).clauseQubits;
    RunXLayer(cqs, s);
    forall q | 0 <= q < |s| ensures q in cqs <==> nvars <= q < nvars + |clauses| {
      InRange(q, nvars, |clauses|);
    }
  }

  /** The middle state qubit by qubit, as toggles of the state after the
      clause qubits are set. */
  lemma MiddleToggles(nvars: nat, clauses: Formula, s: seq<bool>)
    requires Entries(nvars, clauses).Ok? && |s| == NumQubits(nvars, clauses)
    ensures var es := Entries(nvars, clauses).value;
      var s1 := Run(XLayer(MakeLayout(nvars, clauses).clauseQubits), s);
      ClassicalCircuit(XLayer(MakeLayout(nvars, clauses).clauseQubits), |s|)
      && AllWellFormed(es) && Shaped(es, nvars, |s|) && ClassicalCircuit(Blocks(es), |s|)
      && Middle(nvars, clauses, s) == Run(Blocks(es), s1)
      && forall q :: 0 <= q < |s| ==> Middle(nvars, clauses, s)[q] == (s1[q] != Toggle(es, q, s1))
  {
    var es := Entries(nvars, clauses).value;
    var cqs := MakeLayout(nvars, clauses).clauseQubits;
    EntriesShaped(nvars, clauses);
    AfterClauseX(nvars, clauses, s);
    BlocksEffect(es, nvars, Run(XLayer(cqs), s));
  }

  lemma EntryAt(nvars: nat, clauses: Formula, i: nat)
    requires Entries(nvars, clauses).Ok? && i < |clauses|
    ensures var e := Entries(nvars, clauses).value[i];
      EntryOf(nvars, clauses[i], nvars + i) == Ok(e) && WellFormed(e)
  {
    EntriesWellFormed(nvars, clauses);
  }

  lemma MiddleClauseQubit(nvars: nat, clauses: Formula, s: seq<bool>, i: nat)
    requires Entries(nvars, clauses).Ok? && |s| == NumQubits(nvars, clauses)
    requires i < |clauses|
    ensures Resolves(nvars, clauses[i])
    ensures Middle(nvars, clauses, s)[nvars + i] == (!s[nvars + i] != AllLiteralsTrue(nvars, clauses[i], s))
  {
    var es := Entries(nvars, clauses).value;
    var s1 := Run(XLayer(MakeLayout(nvars, clauses).clauseQubits), s);
    var q := nvars + i;
    assert Middle(nvars, clauses, s)[q] == (s1[q] != Toggle(es, q, s1)) by {
      MiddleToggles(nvars, clauses, s);
    }
    assert s1[q] == !s[q] && forall p :: 0 <= p < nvars ==> s1[p] == s[p] by {
      AfterClauseX(nvars, clauses, s);
    }
    EntryAt(nvars, clauses, i);
    FiresIffLiteralsTrue(nvars, clauses[i], q, s1);
    assert Toggle(es, q, s1) == Fires(es[i], s1) by {
      MiddleToggles(nvars, clauses, s);
      EntriesShaped(nvars, clauses);
      ToggleTargets(es, nvars, s1);
    }
    LiteralsFrame(nvars, clauses[i], s, s1);
  }

  lemma MiddleOtherQubit(nvars: nat, clauses: Formula, s: seq<bool>, q: nat)
    requires Entries(nvars, clauses).Ok? && |s| == NumQubits(nvars, clauses)
    requires q < |s| && !(nvars <= q < nvars + |clauses|)
    ensures Middle(nvars, clauses, s)[q] == s[q]
  {
    var es := Entries(nvars, clauses).value;
    var s1 := Run(XLayer(MakeLayout(nvars, clauses).clauseQubits), s);
    MiddleToggles(nvars, clauses, s);
    AfterClauseX(nvars, clauses, s);
    EntriesShaped(nvars, clauses);
    ToggleTargets(es, nvars, s1);
  }

  /** The global qubit is the last one and is unchanged at the middle. */
  lemma MiddleGlobal(nvars: nat, clauses: Formula, s: seq<bool>)
    requires Entries(nvars, clauses).Ok? && |s| == NumQubits(nvars, clauses)
    ensures nvars + |clauses| < |s|
    ensures Middle(nvars, clauses, s)[|s| - 1] == s[|s| - 1]
  {
    MiddleOtherQubit(nvars, clauses, s, |s| - 1);
  }

  /** At the middle of the circuit clause qubit i holds its input negated,
      XOR whether every literal of clause i is true; no other qubit has
      changed. */
  lemma MiddleState(nvars: nat, clauses: Formula, s: seq<bool>)
    requires Entries(nvars, clauses).Ok? && |s| == NumQubits(nvars, clauses)
    ensures forall i :: 0 <= i < |clauses| ==> Resolves(nvars, clauses[i])
    ensures forall i :: 0 <= i < |clauses| ==>
      Middle(nvars, clauses, s)[nvars + i] == (!s[nvars + i] != AllLiteralsTrue(nvars, clauses[i], s))
    ensures forall q :: 0 <= q < |s| && !(nvars <= q < nvars + |clauses|) ==>
      Middle(nvars, clauses, s)[q] == s[q]
  {
    forall i | 0 <= i < |clauses|
      ensures Resolves(nvars, clauses[i])
      ensures Middle(nvars, clauses, s)[nvars + i] == (!s[nvars + i] != AllLiteralsTrue(nvars, clauses[i], s))
    {
      MiddleClauseQubit(nvars, clauses, s, i);
    }
    forall q | 0 <= q < |s| && !(nvars <= q < nvars + |clauses|)
      ensures Middle(nvars, clauses, s)[q] == s[q]
    {
      MiddleOtherQubit(nvars, clauses, s, q);
    }
  }

  /** Every qubit in `[start, start + n)` is 1. */
  predicate OnBetween(s: seq<bool>, start: nat, n: nat)
    requires start + n <= |s|
  {
    forall q :: start <= q < start + n ==> s[q]
  }

  lemma AllOnRange(s: seq<bool>, start: nat, n: nat)
    requires start + n <= |s|
    ensures AllOn(s, Range(start, n)) == OnBetween(s, start, n)
  {
    if OnBetween(s, start, n) {
      assert AllOn(s, Range(start, n));
    }
    if AllOn(s, Range(start, n)) {
      forall q | start <= q < start + n ensures s[q] {
        assert Range(start, n)[q - start] == q;
      }
    }
  }

  /** The global gate XORs "every clause qubit is 1" into the global qubit,
      and does nothing without clauses. */
  lemma GlobalEffect(cqs: seq<nat>, g: nat, s: seq<bool>)
    requires forall k :: 0 <= k < |cqs| ==> cqs[k] < |s|
    requires g < |s|
    ensures ClassicalCircuit(GlobalGates(cqs, g), |s|)
    ensures Run(GlobalGates(cqs, g), s) == if cqs == [] then s else s[g := s[g] != AllOn(s, cqs)]
  {
    if cqs != [] {
      ApplyTargetGate(cqs, g, s);
      assert ClassicalCircuit([TargetGate(cqs, g)], |s|);
      assert Run([TargetGate(cqs, g)], s) == Apply(TargetGate(cqs, g), s);
    }
  }

  /** The state after the global gate, qubit by qubit. */
  lemma AfterGlobal(nvars: nat, clauses: Formula, s: seq<bool>)
    requires Entries(nvars, clauses).Ok? && |s| == NumQubits(nvars, clauses)
    ensures var l := MakeLayout(nvars, clauses);
      var mid := Middle(nvars, clauses, s);
      ClassicalCircuit(GlobalGates(l.clauseQubits, l.globalQubit), |s|)
      && l.globalQubit == |s| - 1
      && Run(GlobalGates(l.clauseQubits, l.globalQubit), mid)
        == mid[|s| - 1 := mid[|s| - 1] != (|clauses| > 0 && OnBetween(mid, nvars, |clauses|))]
  {
    var l := MakeLayout(nvars, clauses);
    var mid := Middle(nvars, clauses, s);
    GlobalEffect(l.clauseQubits, l.globalQubit, mid);
    AllOnRange(mid, nvars, |clauses|);
  }

  /** Replaying the blocks after the global gate undoes every clause block:
      below the global qubit the state is the one before the blocks ran. */
  lemma Uncompute(nvars: nat, clauses: Formula, s: seq<bool>, s3: seq<bool>)
    requires Entries(nvars, clauses).Ok? && |s| == NumQubits(nvars, clauses)
    requires |s3| == |s|
    requires forall q :: 0 <= q < |s| - 1 ==> s3[q] == Middle(nvars, clauses, s)[q]
    ensures var es := Entries(nvars, clauses).value;
      var s1 := Run(XLayer(MakeLayout(nvars, clauses).clauseQubits), s);
      AllWellFormed(es) && ClassicalCircuit(Replay(es), |s|)
      && (forall q :: 0 <= q < |s| - 1 ==> Run(Replay(es), s3)[q] == s1[q])
      && Run(Replay(es), s3)[|s| - 1] == s3[|s| - 1]
  {
    var es := Entries(nvars, clauses).value;
    var s1 := Run(XLayer(MakeLayout(nvars, clauses).clauseQubits), s);
    var mid := Middle(nvars, clauses, s);
    MiddleToggles(nvars, clauses, s);
    EntriesShaped(nvars, clauses);
    ReplayEffect(es, nvars, s3);
    forall p | 0 <= p < nvars ensures mid[p] == s1[p] {
      ToggleBelow(es, nvars, p, s1);
    }
    forall q | 0 <= q < |s| ensures Toggle(es, q, s3) == Toggle(es, q, s1) {
      ToggleFrame(es, nvars, q, s1, s3);
    }
    ToggleTargets(es, nvars, s1);
  }

  /** The gates of a successful build, part by part. */
  lemma BuildGates(nvars: nat, clauses: Formula)
    requires BuildSpec(nvars, clauses).Ok?
    ensures Entries(nvars, clauses).Ok?
    ensures var l := MakeLayout(nvars, clauses);
      var es := Entries(nvars, clauses).value;
      AllWellFormed(es)
      && BuildSpec(nvars, clauses).value.circuit.gates
        == XLayer(l.clauseQubits) + Blocks(es) + GlobalGates(l.clauseQubits, l.globalQubit) + Replay(es)
  {
    EntriesWellFormed(nvars, clauses);
  }

  /** `r` is `s` with the clause qubits `[nvars, nvars + m)` negated and the
      last qubit XORed with `b`. */
  predicate PhaseEffect(s: seq<bool>, r: seq<bool>, nvars: nat, m: nat, b: bool)
    requires nvars + m < |s|
  {
    |r| == |s|
    && (forall q :: 0 <= q < |s| - 1 ==> r[q] == (if nvars <= q < nvars + m then !s[q] else s[q]))
    && r[|s| - 1] == (s[|s| - 1] != b)
  }

  /** The four phases put together, qubit by qubit. */
  lemma ComposePhases(nvars: nat, m: nat, s: seq<bool>, s1: seq<bool>, mid: seq<bool>,
                      s3: seq<bool>, r: seq<bool>, b: bool)
    requires nvars + m < |s| && |s1| == |s| && |mid| == |s| && |r| == |s|
    requires forall q :: 0 <= q < |s| ==> s1[q] == (if nvars <= q < nvars + m then !s[q] else s[q])
    requires s3 == mid[|s| - 1 := mid[|s| - 1] != b]
    requires mid[|s| - 1] == s[|s| - 1]
    requires forall q :: 0 <= q < |s| - 1 ==> r[q] == s1[q]
    requires r[|s| - 1] == s3[|s| - 1]
    ensures PhaseEffect(s, r, nvars, m, b)
  {
  }

  /** A successful build runs as the middle state followed by the global
      gate and the replayed blocks. */
  lemma RunBuild(nvars: nat, clauses: Formula, s: seq<bool>)
    requires BuildSpec(nvars, clauses).Ok? && |s| == NumQubits(nvars, clauses)
    ensures Entries(nvars, clauses).Ok?
    ensures var l := MakeLayout(nvars, clauses);
      var es := Entries(nvars, clauses).value;
      var gs := BuildSpec(nvars, clauses).value.circuit.gates;
      AllWellFormed(es) && ClassicalCircuit(gs, |s|)
      && ClassicalCircuit(Replay(es), |s|) && ClassicalCircuit(GlobalGates(l.clauseQubits, l.globalQubit), |s|)
      && Run(gs, s) == Run(Replay(es), Run(GlobalGates(l.clauseQubits, l.globalQubit), Middle(nvars, clauses, s)))
  {
    BuildGates(nvars, clauses);
    var l := MakeLayout(nvars, clauses);
    var es := Entries(nvars, clauses).value;
    AfterClauseX(nvars, clauses, s);
    MiddleToggles(nvars, clauses, s);
    AfterGlobal(nvars, clauses, s);
    EntriesShaped(nvars, clauses);
    ReplayEffect(es, nvars, s);
    RunFour(XLayer(l.clauseQubits), Blocks(es), GlobalGates(l.clauseQubits, l.globalQubit), Replay(es), s);
  }

  /** The global gate and the replay, run from the middle state, give the
      input with the clause qubits negated and the global qubit toggled. */
  lemma TailEffect(nvars: nat, clauses: Formula, s: seq<bool>)
    requires Entries(nvars, clauses).Ok? && |s| == NumQubits(nvars, clauses)
    ensures var l := MakeLayout(nvars, clauses);
      var es := Entries(nvars, clauses).value;
      var gl := GlobalGates(l.clauseQubits, l.globalQubit);
      var mid := Middle(nvars, clauses, s);
      AllWellFormed(es) && ClassicalCircuit(Replay(es), |s|) && ClassicalCircuit(gl, |s|)
      && PhaseEffect(s, Run(Replay(es), Run(gl, mid)), nvars, |clauses|,
                     |clauses| > 0 && OnBetween(mid, nvars, |clauses|))
  {
    var l := MakeLayout(nvars, clauses);
    var es := Entries(nvars, clauses).value;
    var gl := GlobalGates(l.clauseQubits, l.globalQubit);
    var mid := Middle(nvars, clauses, s);
    var b := |clauses| > 0 && OnBetween(mid, nvars, |clauses|);
    AfterGlobal(nvars, clauses, s);
    var s3 := Run(gl, mid);
    MiddleGlobal(nvars, clauses, s);
    var s1 := Run(XLayer(l.clauseQubits), s);
    AfterClauseX(nvars, clauses, s);
    assert forall q :: 0 <= q < |s| - 1 ==> mid[|s| - 1 := mid[|s| - 1] != b][q] == mid[q];
    Uncompute(nvars, clauses, s, s3);
    ComposePhases(nvars, |clauses|, s, s1, mid, s3, Run(Replay(es), s3), b);
  }

  /** Every gate of a successful build is classical and names qubits below
      the register size. */
  lemma BuildInRange(nvars: nat, clauses: Formula)
    requires BuildSpec(nvars, clauses).Ok?
    ensures ClassicalCircuit(BuildSpec(nvars, clauses).value.circuit.gates, NumQubits(nvars, clauses))
  {
    RunBuild(nvars, clauses, seq(NumQubits(nvars, clauses), _ => false));
  }

  /** On every basis state the circuit leaves the variable and ancilla
      qubits as they were, negates every clause qubit (so clause qubits that
      start at 0 end at 1), and toggles the global qubit exactly when there
      is a clause and every clause qubit is 1 at the middle of the circuit. */
  lemma BuildClassical(nvars: nat, clauses: Formula, s: seq<bool>)
    requires BuildSpec(nvars, clauses).Ok? && |s| == NumQubits(nvars, clauses)
    ensures Entries(nvars, clauses).Ok?
    ensures var gs := BuildSpec(nvars, clauses).value.circuit.gates;
      ClassicalCircuit(gs, |s|)
      && PhaseEffect(s, Run(gs, s), nvars, |clauses|,
                     |clauses| > 0 && OnBetween(Middle(nvars, clauses, s), nvars, |clauses|))
  {
    RunBuild(nvars, clauses, s);
    TailEffect(nvars, clauses, s);
  }

  /** With the clause qubits starting at 0, every clause qubit is 1 at the
      middle exactly when each clause has a false literal. */
  lemma MiddleNand(nvars: nat, clauses: Formula, s: seq<bool>)
    requires Entries(nvars, clauses).Ok? && |s| == NumQubits(nvars, clauses)
    requires forall q :: nvars <= q < nvars + |clauses| ==> !s[q]
    ensures forall i :: 0 <= i < |clauses| ==> Resolves(nvars, clauses[i])
    ensures OnBetween(Middle(nvars, clauses, s), nvars, |clauses|)
      == (forall i :: 0 <= i < |clauses| ==> !AllLiteralsTrue(nvars, clauses[i], s))
  {
    var mid := Middle(nvars, clauses, s);
    forall i | 0 <= i < |clauses|
      ensures Resolves(nvars, clauses[i]) && mid[nvars + i] == !AllLiteralsTrue(nvars, clauses[i], s)
    {
      MiddleClauseQubit(nvars, clauses, s, i);
    }
    NandBits(mid, nvars, clauses, s);
  }

  /** Qubits nvars .. nvars + |clauses| - 1 all hold 1 exactly when each of
      them holds the NAND of its clause's literals and every such NAND is 1. */
  lemma NandBits(mid: seq<bool>, nvars: nat, clauses: Formula, s: seq<bool>)
    requires nvars + |clauses| <= |mid| && nvars <= |s|
    requires forall i :: 0 <= i < |clauses| ==> Resolves(nvars, clauses[i])
    requires forall i :: 0 <= i < |clauses| ==> mid[nvars + i] == !AllLiteralsTrue(nvars, clauses[i], s)
    ensures OnBetween(mid, nvars, |clauses|)
      == (forall i :: 0 <= i < |clauses| ==> !AllLiteralsTrue(nvars, clauses[i], s))
  {
    if forall i :: 0 <= i < |clauses| ==> !AllLiteralsTrue(nvars, clauses[i], s) {
      forall q | nvars <= q < nvars + |clauses| ensures mid[q] {
        assert mid[nvars + (q - nvars)] == !AllLiteralsTrue(nvars, clauses[q - nvars], s);
      }
    } else {
      var i :| 0 <= i < |clauses| && AllLiteralsTrue(nvars, clauses[i], s);
      assert !mid[nvars + i];
    }
  }

  /** With the clause qubits starting at 0, clause qubit i is 1 at the middle
      exactly when some literal of clause i is false (the NAND of its
      literals), so the global qubit flips exactly when every clause has a
      false literal; the clause qubits end at 1. */
  lemma BuildMarksNand(nvars: nat, clauses: Formula, s: seq<bool>)
    requires BuildSpec(nvars, clauses).Ok? && |s| == NumQubits(nvars, clauses)
    requires forall q :: nvars <= q < nvars + |clauses| ==> !s[q]
    ensures Entries(nvars, clauses).Ok?
    ensures forall i :: 0 <= i < |clauses| ==> Resolves(nvars, clauses[i])
    ensures var gs := BuildSpec(nvars, clauses).value.circuit.gates;
      ClassicalCircuit(gs, |s|)
      && PhaseEffect(s, Run(gs, s), nvars, |clauses|,
                     |clauses| > 0 && forall i :: 0 <= i < |clauses| ==> !AllLiteralsTrue(nvars, clauses[i], s))
  {
    BuildClassical(nvars, clauses, s);
    MiddleNand(nvars, clauses, s);
  }

  /** With one clause, the global qubit of a state whose clause qubit is 0
      is toggled exactly when some literal of the clause is false. */
  lemma OneClauseMarks(nvars: nat, c: Clause, s: seq<bool>)
    requires BuildSpec(nvars, [c]).Ok? && |s| == NumQubits(nvars, [c]) && !s[nvars]
    ensures Entries(nvars, [c]).Ok? && Resolves(nvars, c)
    ensures var gs := BuildSpec(nvars, [c]).value.circuit.gates;
      ClassicalCircuit(gs, |s|) && Run(gs, s)[|s| - 1] == (s[|s| - 1] != !AllLiteralsTrue(nvars, c, s))
  {
    BuildMarksNand(nvars, [c], s);
    assert [c][0] == c;
  }

  lemma ExampleLayout(f: Formula)
    requires f == [[1, 2]]
    ensures BuildSpec(2, f).Ok? && NumQubits(2, f) == 4
  {
    assert MaxExcess(f) == 0;
    assert Resolves(2, f[0]) && DistinctVariables(2, f[0]);
    BuildOkIff(2, f);
  }

  /** The single clause (x1 OR x2): the global qubit is toggled on x1 = x2 =
      0, where the OR is false, and not on x1 = x2 = 1, where it is true; the
      circuit marks the clause's NAND, not its OR. */
  lemma MarksNandNotOr(f: Formula, off: seq<bool>, on: seq<bool>)
    requires f == [[1, 2]] && off == [false, false, false, false] && on == [true, true, false, false]
    ensures BuildSpec(2, f).Ok?
    ensures var gs := BuildSpec(2, f).value.circuit.gates;
      ClassicalCircuit(gs, 4) && Run(gs, off)[3] && !Run(gs, on)[3]
  {
    ExampleLayout(f);
    var c := f[0];
    assert f == [c];
    OneClauseMarks(2, c, off);
    OneClauseMarks(2, c, on);
    assert !AllLiteralsTrue(2, c, off) by {
      assert !LiteralValue(2, c[0], off);
    }
    assert AllLiteralsTrue(2, c, on);
  }
}
