/** `circuit_to_json` (src/cnf_to_mct_json.py): each instruction of a circuit
    becomes a record with its upper-cased name, its last qubit as the target
    and the other qubits as controls, every qubit renamed "Q<i>" after its
    position in the layout's list of qubits. */
module CircuitJson {
  import opened Results
  import opened Text
  import opened Cnf
  import opened Gates
  import opened MctOracle

  /** One JSON gate object; `controls` is absent when there are none. */
  datatype JsonGate = JsonGate(name: string, targets: seq<string>, controls: Option<seq<string>>)

  function QubitLabel(i: nat): string {
    "Q" + IntToString(i)
  }

  lemma QubitLabelInjective(i: nat, j: nat)
    ensures QubitLabel(i) == QubitLabel(j) <==> i == j
  {
    if QubitLabel(i) == QubitLabel(j) {
      assert IntToString(i) == QubitLabel(i)[1..];
      assert IntToString(j) == QubitLabel(j)[1..];
      IntToStringRoundTrip(i);
      IntToStringRoundTrip(j);
    }
  }

  /** `var_qubits + clause_qubits + ancilla_qubits + [global_qubit]`. */
  function AllQubits(l: Layout): seq<nat> {
    l.varQubits + l.clauseQubits + l.ancillaQubits + [l.globalQubit]
  }

  /** `qmap` as the position each qubit is renamed after: `qmap[q] =
      f"Q{i}"` for every position i, a later position overwriting an earlier
      one that names the same qubit. */
  function QubitMap(qs: seq<nat>): map<nat, nat>
    decreases |qs|
  {
    if qs == [] then map[]
    else
      var n := |qs| - 1;
      QubitMap(qs[..n])[qs[n] := n]
  }

  /** The map's keys are the listed qubits, and with no repeated qubit the
      qubit at position i is mapped to i. */
  lemma {:induction false} QubitMapDistinct(qs: seq<nat>)
    requires Distinct(qs)
    ensures forall i :: 0 <= i < |qs| ==> qs[i] in QubitMap(qs) && QubitMap(qs)[qs[i]] == i
    ensures forall q :: q in QubitMap(qs) ==> q in qs
    decreases |qs|
  {
    if qs != [] {
      var n := |qs| - 1;
      var front := qs[..n];
      assert Distinct(front);
      QubitMapDistinct(front);
      var m := QubitMap(qs);
      forall i | 0 <= i < n ensures qs[i] in m && m[qs[i]] == i {
        assert front[i] == qs[i];
      }
      forall q | q in m ensures q in qs {
        if q != qs[n] {
          assert q in front;
        }
      }
    }
  }

  /** `[qmap[q] for q in qs]` as labels, or the KeyError of the first qubit
      the map lacks (its message is the key). */
  function Lookup(m: map<nat, nat>, qs: seq<nat>): (r: Result<seq<string>>)
    ensures r.Ok? ==> |r.value| == |qs|
    decreases |qs|
  {
    if qs == [] then Ok([])
    else if qs[0] !in m then Err(IntToString(qs[0]))
    else
      var rest :- Lookup(m, qs[1..]);
      Ok([QubitLabel(m[qs[0]])] + rest)
  }

  /** Lookup fails exactly on a missing qubit, and otherwise labels each
      qubit in order. */
  lemma {:induction false} LookupFacts(m: map<nat, nat>, qs: seq<nat>)
    ensures Lookup(m, qs).Ok? <==> forall k :: 0 <= k < |qs| ==> qs[k] in m
    ensures Lookup(m, qs).Ok? ==> forall k :: 0 <= k < |qs| ==> Lookup(m, qs).value[k] == QubitLabel(m[qs[k]])
    decreases |qs|
  {
    if qs != [] {
      LookupFacts(m, qs[1..]);
      assert forall k :: 1 <= k < |qs| ==> qs[1..][k - 1] == qs[k];
    }
  }

  function UpperChar(c: char): char {
    if 'a' <= c <= 'z' then (c as int - 32) as char else c
  }

  /** `str.upper()` on ASCII text. */
  function Upper(s: string): string {
    if s == [] then [] else [UpperChar(s[0])] + Upper(s[1..])
  }

  /** The upper-cased instruction name, "MCX" renamed "CCX" when it has
      exactly two controls. */
  function JsonName(instName: string, ncontrols: nat): string {
    var name := Upper(instName);
    if name != "MCX" then name else if ncontrols == 2 then "CCX" else "MCX"
  }

  /** The JSON object of one instruction, or the KeyError of a qubit
      outside the map (targets are looked up before controls). */
  function GateToJson(m: map<nat, nat>, g: Gate): Result<JsonGate> {
    Record(m, Name(g), Qubits(g))
  }

  /** `qargs[-1:]` as targets and `qargs[:-1]` as controls. */
  function Record(m: map<nat, nat>, instName: string, qs: seq<nat>): Result<JsonGate>
    requires |qs| >= 1
  {
    var targets :- Lookup(m, qs[|qs| - 1..]);
    var controls :- Lookup(m, qs[..|qs| - 1]);
    Ok(JsonGate(JsonName(instName, |controls|), targets, if controls == [] then None else Some(controls)))
  }

  function GatesToJson(m: map<nat, nat>, gs: seq<Gate>): (r: Result<seq<JsonGate>>)
    ensures r.Ok? ==> |r.value| == |gs|
    decreases |gs|
  {
    if gs == [] then Ok([])
    else
      var first :- GateToJson(m, gs[0]);
      var rest :- GatesToJson(m, gs[1..]);
      Ok([first] + rest)
  }

  /** `circuit_to_json(qc, var_qubits, clause_qubits, ancilla_qubits,
      global_qubit)`. */
  function CircuitToJson(c: Circuit, l: Layout): Result<seq<JsonGate>> {
    GatesToJson(QubitMap(AllQubits(l)), c.gates)
  }

  // ---------------------------------------------------------------------------
  // Properties

  /** Every qubit of the instruction has a label. */
  predicate Mapped(m: map<nat, nat>, g: Gate) {
    forall k :: 0 <= k < |Qubits(g)| ==> Qubits(g)[k] in m
  }

  /** When every qubit of the instruction is mapped, the record's target is
      the last qubit's label, its controls are the labels of the others in
      order, and the key is present exactly when there is a control. */
  lemma RecordShape(m: map<nat, nat>, instName: string, qs: seq<nat>)
    requires |qs| >= 1 && forall k :: 0 <= k < |qs| ==> qs[k] in m
    ensures Record(m, instName, qs).Ok?
    ensures var j := Record(m, instName, qs).value;
      j.targets == [QubitLabel(m[qs[|qs| - 1]])]
      && (j.controls.None? <==> |qs| == 1)
      && (j.controls.Some? ==>
            |j.controls.value| == |qs| - 1
            && forall k :: 0 <= k < |qs| - 1 ==> j.controls.value[k] == QubitLabel(m[qs[k]]))
      && j.name == JsonName(instName, |qs| - 1)
  {
    var n := |qs| - 1;
    assert Lookup(m, qs[n..]) == Ok([QubitLabel(m[qs[n]])]) by {
      assert qs[n..] == [qs[n]];
      LookupFacts(m, qs[n..]);
      var v := Lookup(m, qs[n..]).value;
      assert |v| == 1 && v[0] == QubitLabel(m[qs[n]]);
      assert v == [v[0]];
    }
    var cs := qs[..n];
    var lc := Lookup(m, cs);
    assert lc.Ok? && |lc.value| == n && forall k :: 0 <= k < n ==> lc.value[k] == QubitLabel(m[qs[k]]) by {
      assert forall k :: 0 <= k < n ==> cs[k] == qs[k];
      LookupFacts(m, cs);
    }
  }

  /** The names of the classical gates: MCX keeps its name only with other
      than two controls. */
  lemma ClassicalNames(g: Gate)
    requires Classical(g)
    ensures JsonName(Name(g), |Qubits(g)| - 1) ==
      if g.X? then "X"
      else if g.CX? then "CX"
      else if g.CCX? || |g.controls| == 2 then "CCX"
      else "MCX"
  {
    assert Upper("x") == "X" && Upper("cx") == "CX" && Upper("ccx") == "CCX" && Upper("mcx") == "MCX";
  }

  /** With every qubit mapped the conversion succeeds, record k being the
      conversion of instruction k. */
  lemma {:induction false} GatesToJsonOk(m: map<nat, nat>, gs: seq<Gate>)
    requires forall k :: 0 <= k < |gs| ==> Mapped(m, gs[k])
    ensures forall k :: 0 <= k < |gs| ==> GateToJson(m, gs[k]).Ok?
    ensures GatesToJson(m, gs).Ok?
    ensures forall k :: 0 <= k < |gs| ==> GatesToJson(m, gs).value[k] == GateToJson(m, gs[k]).value
    decreases |gs|
  {
    forall k | 0 <= k < |gs| ensures GateToJson(m, gs[k]).Ok? {
      RecordShape(m, Name(gs[k]), Qubits(gs[k]));
    }
    if gs != [] {
      var rest := gs[1..];
      assert forall k :: 0 <= k < |rest| ==> rest[k] == gs[k + 1];
      GatesToJsonOk(m, rest);
    }
  }

  /** The builder's layout lists the qubits 0, 1, ..., so qubit q is named
      after position q, "Q<q>". */
  lemma LayoutLabels(nvars: nat, clauses: Formula)
    ensures forall q: nat :: q in QubitMap(AllQubits(MakeLayout(nvars, clauses))) ==> q < NumQubits(nvars, clauses)
    ensures forall q: nat :: q < NumQubits(nvars, clauses) ==>
      q in QubitMap(AllQubits(MakeLayout(nvars, clauses))) && QubitMap(AllQubits(MakeLayout(nvars, clauses)))[q] == q
  {
    LayoutPartition(nvars, clauses);
    var qs := AllQubits(MakeLayout(nvars, clauses));
    assert qs == Range(0, NumQubits(nvars, clauses));
    assert forall i :: 0 <= i < |qs| ==> qs[i] == i;
    assert Distinct(qs);
    QubitMapDistinct(qs);
    forall q: nat | q in QubitMap(qs) ensures q < |qs| {
      var i :| 0 <= i < |qs| && qs[i] == q;
    }
    forall q: nat | q < |qs| ensures q in QubitMap(qs) {
      assert qs[q] == q;
    }
  }

  lemma MappedInRange(m: map<nat, nat>, g: Gate, n: nat)
    requires forall q: nat :: q < n ==> q in m
    requires GateInRange(g, n)
    ensures Mapped(m, g)
  {
    var qs := Qubits(g);
    assert forall k :: 0 <= k < |qs| ==> qs[k] < n;
  }

  /** On the builder's layout every in-range gate list converts: record k
      has the label "Q<t>" of gate k's last qubit t as target and the labels
      "Q<c>" of its other qubits as controls, absent for a one-qubit gate. */
  lemma LayoutJson(nvars: nat, clauses: Formula, gs: seq<Gate>)
    requires forall k :: 0 <= k < |gs| ==> GateInRange(gs[k], NumQubits(nvars, clauses))
    ensures var r := GatesToJson(QubitMap(AllQubits(MakeLayout(nvars, clauses))), gs);
      r.Ok? && |r.value| == |gs|
      && forall k :: 0 <= k < |gs| ==>
        var qs := Qubits(gs[k]);
        r.value[k].targets == [QubitLabel(qs[|qs| - 1])]
        && (r.value[k].controls.None? <==> |qs| == 1)
        && (r.value[k].controls.Some? ==>
              |r.value[k].controls.value| == |qs| - 1
              && forall i :: 0 <= i < |qs| - 1 ==> r.value[k].controls.value[i] == QubitLabel(qs[i]))
  {
    var n := NumQubits(nvars, clauses);
    var m := QubitMap(AllQubits(MakeLayout(nvars, clauses)));
    LayoutLabels(nvars, clauses);
    forall k | 0 <= k < |gs| ensures Mapped(m, gs[k]) {
      MappedInRange(m, gs[k], n);
    }
    GatesToJsonOk(m, gs);
    var r := GatesToJson(m, gs);
    forall k | 0 <= k < |gs|
      ensures var qs := Qubits(gs[k]);
        r.value[k].targets == [QubitLabel(qs[|qs| - 1])]
        && (r.value[k].controls.None? <==> |qs| == 1)
        && (r.value[k].controls.Some? ==>
              |r.value[k].controls.value| == |qs| - 1
              && forall i :: 0 <= i < |qs| - 1 ==> r.value[k].controls.value[i] == QubitLabel(qs[i]))
    {
      var qs := Qubits(gs[k]);
      RecordShape(m, Name(gs[k]), qs);
      assert forall i :: 0 <= i < |qs| ==> qs[i] < n && m[qs[i]] == qs[i];
    }
  }

  /** Converting a successfully built oracle never fails, and qubit q of
      every gate appears as "Q<q>". */
  lemma BuildToJson(nvars: nat, clauses: Formula)
    requires BuildSpec(nvars, clauses).Ok?
    ensures var b := BuildSpec(nvars, clauses).value;
      b.layout == MakeLayout(nvars, clauses)
      && CircuitToJson(b.circuit, b.layout)
        == GatesToJson(QubitMap(AllQubits(MakeLayout(nvars, clauses))), b.circuit.gates)
      && CircuitToJson(b.circuit, b.layout).Ok?
  {
    var b := BuildSpec(nvars, clauses).value;
    BuildInRange(nvars, clauses);
    var gs := b.circuit.gates;
    assert forall k :: 0 <= k < |gs| ==> GateInRange(gs[k], NumQubits(nvars, clauses));
    LayoutJson(nvars, clauses, gs);
  }
}
