/** `build_circuit_from_cnf_with_global_and` as the loops the source runs:
    the gate list and the clause history grow step by step, and the history
    is then replayed from its last entry to its first. The method is proved
    to return exactly `MctOracle.BuildSpec`, about which the classical
    behaviour is proved. */
module MctBuild {
  import opened Results
  import opened Cnf
  import opened Gates
  import opened MctOracle

  /** Appends X on every control whose flip is set, in control order. */
  method EmitFlips(gates: seq<Gate>, cs: seq<nat>, fs: seq<bool>) returns (r: seq<Gate>)
    requires |cs| == |fs|
    ensures r == gates + XLayer(Flipped(cs, fs))
  {
    r := gates;
    var k := 0;
    while k < |cs|
      invariant 0 <= k <= |cs|
      invariant r == gates + XLayer(Flipped(cs[..k], fs[..k]))
    {
      FlippedStep(cs, fs, k);
      if fs[k] {
        r := r + [X(cs[k])];
      }
      k := k + 1;
    }
    assert cs[..k] == cs && fs[..k] == fs;
  }

  lemma FlippedStep(cs: seq<nat>, fs: seq<bool>, k: nat)
    requires |cs| == |fs| && k < |cs|
    ensures XLayer(Flipped(cs[..k + 1], fs[..k + 1]))
      == XLayer(Flipped(cs[..k], fs[..k])) + (if fs[k] then [X(cs[k])] else [])
  {
    assert cs[..k + 1][..k] == cs[..k] && fs[..k + 1][..k] == fs[..k];
    var add := if fs[k] then [cs[k]] else [];
    XLayerAppend(Flipped(cs[..k], fs[..k]), add);
  }

  /** Appending a block's pieces one after another appends the block. */
  lemma BlockAfter(gates: seq<Gate>, e: Entry)
    requires WellFormed(e)
    ensures var xs := XLayer(Flipped(e.controls, e.flips));
      gates + xs + [TargetGate(e.controls, e.target)] + xs == gates + Block(e)
  {
  }

  /** A literal that has no variable ends the clause's controls with its
      error. */
  lemma {:induction false} ClauseControlsPrefix(nvars: nat, clause: Clause, k: nat)
    requires k < |clause| && ClauseControls(nvars, clause[..k]).Ok?
    requires ControlOf(nvars, clause[k]).Err?
    ensures ClauseControls(nvars, clause) == Err(ControlOf(nvars, clause[k]).message)
    decreases |clause|
  {
    var n := |clause| - 1;
    assert clause[..n][..k] == clause[..k];
    if k < n {
      ClauseControlsPrefix(nvars, clause[..n], k);
    } else {
      assert clause[..n] == clause[..k];
    }
  }

  /** A refused clause ends the history with its error. */
  lemma {:induction false} EntriesPrefix(nvars: nat, clauses: Formula, i: nat)
    requires i < |clauses| && Entries(nvars, clauses[..i]).Ok?
    requires EntryOf(nvars, clauses[i], nvars + i).Err?
    ensures Entries(nvars, clauses) == Err(EntryOf(nvars, clauses[i], nvars + i).message)
    decreases |clauses|
  {
    var n := |clauses| - 1;
    assert clauses[..n][..i] == clauses[..i];
    if i < n {
      EntriesPrefix(nvars, clauses[..n], i);
    } else {
      assert clauses[..n] == clauses[..i];
    }
  }

  /** One more clause accepted extends the history by its entry. */
  lemma EntriesStep(nvars: nat, clauses: Formula, i: nat, history: seq<Entry>, e: Entry)
    requires i < |clauses| && Entries(nvars, clauses[..i]) == Ok(history)
    requires EntryOf(nvars, clauses[i], nvars + i) == Ok(e)
    ensures Entries(nvars, clauses[..i + 1]) == Ok(history + [e])
  {
    assert clauses[..i + 1][..i] == clauses[..i];
  }

  lemma ClauseControlsStep(nvars: nat, clause: Clause, k: nat, cs: seq<nat>, fs: seq<bool>, c: nat)
    requires k < |clause| && ClauseControls(nvars, clause[..k]) == Ok((cs, fs))
    requires ControlOf(nvars, clause[k]) == Ok(c)
    ensures ClauseControls(nvars, clause[..k + 1]) == Ok((cs + [c], fs + [clause[k] <= 0]))
  {
    assert clause[..k + 1][..k] == clause[..k];
  }

  /** Recording one more entry appends its block after the others. */
  lemma BlocksSnoc(front: seq<Gate>, es: seq<Entry>, e: Entry)
    requires AllWellFormed(es) && WellFormed(e)
    ensures AllWellFormed(es + [e])
    ensures front + Blocks(es + [e]) == front + Blocks(es) + Block(e)
  {
    assert (es + [e])[..|es|] == es;
    assert Blocks(es + [e]) == Blocks(es) + Block(e);
  }

  /** Replaying one entry further back appends its block. */
  lemma ReplayStep(gates: seq<Gate>, es: seq<Entry>, j: nat)
    requires AllWellFormed(es) && 0 < j <= |es|
    ensures AllWellFormed(es[j..]) && AllWellFormed(es[j - 1..])
    ensures gates + Replay(es[j - 1..]) == gates + Replay(es[j..]) + Block(es[j - 1])
  {
    assert es[j - 1..][1..] == es[j..];
    assert Replay(es[j - 1..]) == Replay(es[j..]) + Block(es[j - 1]);
  }

  /** The gate `qc.cx`, `qc.ccx` or `MCXGate` appends for the given controls
      and target, or the error Qiskit raises for no control or a repeated
      control. */
  method EmitTarget(gates: seq<Gate>, cs: seq<nat>, t: nat) returns (r: Result<seq<Gate>>)
    ensures cs == [] ==> r == Err(NoControls)
    ensures cs != [] && !Distinct(cs) ==> r == Err(DuplicateQubits)
    ensures cs != [] && Distinct(cs) ==> r == Ok(gates + [TargetGate(cs, t)])
  {
    if |cs| == 1 {
      r := Ok(gates + [CX(cs[0], t)]);
    } else if |cs| == 2 {
      if cs[0] == cs[1] {
        return Err(DuplicateQubits);
      }
      r := Ok(gates + [CCX(cs[0], cs[1], t)]);
    } else if |cs| == 0 {
      return Err(NoControls);
    } else {
      var i := 0;
      while i < |cs|
        invariant 0 <= i <= |cs|
        invariant forall a, b :: 0 <= a < b < i ==> cs[a] != cs[b]
      {
        var j := 0;
        while j < i
          invariant 0 <= j <= i
          invariant forall a :: 0 <= a < j ==> cs[a] != cs[i]
        {
          if cs[j] == cs[i] {
            return Err(DuplicateQubits);
          }
          j := j + 1;
        }
        i := i + 1;
      }
      r := Ok(gates + [MCX(cs, t)]);
    }
  }

  /** The X layer that sets every clause qubit. */
  method EmitClauseX(cqs: seq<nat>) returns (gates: seq<Gate>)
    ensures gates == XLayer(cqs)
  {
    gates := [];
    var j := 0;
    while j < |cqs|
      invariant 0 <= j <= |cqs|
      invariant gates == XLayer(cqs[..j])
    {
      XLayerAppend(cqs[..j], [cqs[j]]);
      assert cqs[..j + 1] == cqs[..j] + [cqs[j]];
      gates := gates + [X(cqs[j])];
      j := j + 1;
    }
    assert cqs[..j] == cqs;
  }

  /** The controls and flips of one clause, built literal by literal. */
  method CollectControls(nvars: nat, clause: Clause) returns (r: Result<(seq<nat>, seq<bool>)>)
    ensures r == ClauseControls(nvars, clause)
  {
    var controls: seq<nat> := [];
    var flips: seq<bool> := [];
    var k := 0;
    while k < |clause|
      invariant 0 <= k <= |clause|
      invariant ClauseControls(nvars, clause[..k]) == Ok((controls, flips))
    {
      var c := ControlOf(nvars, clause[k]);
      if c.Err? {
        ClauseControlsPrefix(nvars, clause, k);
        return Err(c.message);
      }
      ClauseControlsStep(nvars, clause, k, controls, flips, c.value);
      controls := controls + [c.value];
      flips := flips + [clause[k] <= 0];
      k := k + 1;
    }
    assert clause[..k] == clause;
    return Ok((controls, flips));
  }

  /** Appends the block of clause `i` to `gates`, or reports why it is
      refused. */
  method EmitClause(nvars: nat, clause: Clause, target: nat, gates: seq<Gate>) returns (r: Result<(seq<Gate>, Entry)>)
    ensures EntryOf(nvars, clause, target).Err? ==> r == Err(EntryOf(nvars, clause, target).message)
    ensures EntryOf(nvars, clause, target).Ok? ==>
      r.Ok? && r.value.0 == gates + Block(EntryOf(nvars, clause, target).value)
      && r.value.1 == EntryOf(nvars, clause, target).value
  {
    var p := CollectControls(nvars, clause);
    if p.Err? {
      return Err(p.message);
    }
    var (controls, flips) := p.value;
    var withFlips := EmitFlips(gates, controls, flips);
    var withTarget := EmitTarget(withFlips, controls, target);
    if withTarget.Err? {
      return Err(withTarget.message);
    }
    var after := EmitFlips(withTarget.value, controls, flips);
    var e := Entry(controls, flips, target);
    assert EntryOf(nvars, clause, target) == Ok(e);
    BlockAfter(gates, e);
    return Ok((after, e));
  }

  /** One round of the clause loop: the first refused clause ends
      `Entries` with its error; an accepted one extends the history by its
      entry and the gates by its block. */
  lemma EmitStep(nvars: nat, clauses: Formula, front: seq<Gate>, i: nat, history: seq<Entry>, gates: seq<Gate>)
    requires i < |clauses| && Entries(nvars, clauses[..i]) == Ok(history) && AllWellFormed(history)
    requires gates == front + Blocks(history)
    ensures EntryOf(nvars, clauses[i], nvars + i).Err? ==>
      Entries(nvars, clauses).Err? && Entries(nvars, clauses).message == EntryOf(nvars, clauses[i], nvars + i).message
    ensures EntryOf(nvars, clauses[i], nvars + i).Ok? ==>
      var e := EntryOf(nvars, clauses[i], nvars + i).value;
      Entries(nvars, clauses[..i + 1]) == Ok(history + [e]) && AllWellFormed(history + [e])
      && gates + Block(e) == front + Blocks(history + [e])
  {
    var step := EntryOf(nvars, clauses[i], nvars + i);
    if step.Err? {
      EntriesPrefix(nvars, clauses, i);
    } else {
      var e := step.value;
      EntriesStep(nvars, clauses, i, history, e);
      BlocksSnoc(front, history, e);
    }
  }

  /** The clause loop: every clause block in order, with the history it
      records, or the first error. */
  method EmitClauses(nvars: nat, clauses: Formula, front: seq<Gate>) returns (r: Result<(seq<Gate>, seq<Entry>)>)
    ensures Entries(nvars, clauses).Err? ==> r == Err(Entries(nvars, clauses).message)
    ensures Entries(nvars, clauses).Ok? ==>
      AllWellFormed(Entries(nvars, clauses).value)
      && r == Ok((front + Blocks(Entries(nvars, clauses).value), Entries(nvars, clauses).value))
  {
    var gates := front;
    var history: seq<Entry> := [];
    var i := 0;
    while i < |clauses|
      invariant 0 <= i <= |clauses|
      invariant Entries(nvars, clauses[..i]) == Ok(history)
      invariant AllWellFormed(history)
      invariant gates == front + Blocks(history)
    {
      ghost var spec := EntryOf(nvars, clauses[i], nvars + i);
      EmitStep(nvars, clauses, front, i, history, gates);
      var step := EmitClause(nvars, clauses[i], nvars + i, gates);
      if step.Err? {
        assert spec.Err?;
        return Err(step.message);
      }
      assert step.value.1 == spec.value && Entries(nvars, clauses[..i + 1]) == Ok(history + [spec.value]);
      gates, history := step.value.0, history + [step.value.1];
      i := i + 1;
    }
    assert clauses[..i] == clauses;
    return Ok((gates, history));
  }

  /** The global gate from all clause qubits into the global qubit. */
  method EmitGlobal(gates: seq<Gate>, cqs: seq<nat>, g: nat) returns (r: seq<Gate>)
    ensures r == gates + GlobalGates(cqs, g)
  {
    r := gates;
    if |cqs| == 1 {
      r := r + [CX(cqs[0], g)];
    } else if |cqs| == 2 {
      r := r + [CCX(cqs[0], cqs[1], g)];
    } else if |cqs| > 2 {
      r := r + [MCX(cqs, g)];
    }
  }

  /** Replays the recorded blocks from the last entry to the first. */
  method EmitReplay(gates: seq<Gate>, history: seq<Entry>) returns (r: seq<Gate>)
    requires AllWellFormed(history)
    ensures r == gates + Replay(history)
  {
    r := gates;
    var j := |history|;
    while j > 0
      invariant 0 <= j <= |history|
      invariant AllWellFormed(history[j..])
      invariant r == gates + Replay(history[j..])
    {
      ReplayStep(gates, history, j);
      j := j - 1;
      var e := history[j];
      var withFlips := EmitFlips(r, e.controls, e.flips);
      var next := EmitFlips(withFlips + [TargetGate(e.controls, e.target)], e.controls, e.flips);
      BlockAfter(r, e);
      r := next;
    }
    assert history[0..] == history;
  }

  /** Builds the oracle circuit as the source does and returns exactly what
      `BuildSpec` describes: the circuit and layout, or the first error. */
  method Build(nvars: nat, clauses: Formula) returns (r: Result<Built>)
    ensures r == BuildSpec(nvars, clauses)
  {
    var l := MakeLayout(nvars, clauses);
    var front := EmitClauseX(l.clauseQubits);
    var body := EmitClauses(nvars, clauses, front);
    if body.Err? {
      return Err(body.message);
    }
    var (gates, history) := body.value;
    gates := EmitGlobal(gates, l.clauseQubits, l.globalQubit);
    gates := EmitReplay(gates, history);
    return Ok(Built(Circuit(NumQubits(nvars, clauses), 1, gates), l));
  }
}
