/** Gates and circuits as the source builds them through Qiskit: a circuit
    is a register size, a classical-bit count and the list of appended gate
    instructions, each naming its qubits by index (controls first, target
    last). X, CX, CCX and MCX permute classical basis states and get that
    meaning here; H, Y, Z, S, T and their adjoints stay opaque symbols. */
module Gates {

  datatype Gate =
    | X(q: nat)
    | Y(q: nat)
    | Z(q: nat)
    | H(q: nat)
    | S(q: nat)
    | Sdg(q: nat)
    | T(q: nat)
    | Tdg(q: nat)
    | CX(control: nat, target: nat)
    | CCX(control1: nat, control2: nat, target: nat)
    | MCX(controls: seq<nat>, target: nat)
    | Measure(q: nat, clbit: nat)

  datatype Circuit = Circuit(numQubits: nat, numClbits: nat, gates: seq<Gate>)

  /** The instruction name Qiskit reports (`inst.name`). */
  function Name(g: Gate): string {
    match g
    case X(_) => "x"
    case Y(_) => "y"
    case Z(_) => "z"
    case H(_) => "h"
    case S(_) => "s"
    case Sdg(_) => "sdg"
    case T(_) => "t"
    case Tdg(_) => "tdg"
    case CX(_, _) => "cx"
    case CCX(_, _, _) => "ccx"
    case MCX(_, _) => "mcx"
    case Measure(_, _) => "measure"
  }

  /** The instruction's qubit arguments, controls before the target. */
  function Qubits(g: Gate): (qs: seq<nat>)
    ensures |qs| >= 1
  {
    match g
    case CX(c, t) => [c, t]
    case CCX(c1, c2, t) => [c1, c2, t]
    case MCX(cs, t) => cs + [t]
    case X(q) => [q]
    case Y(q) => [q]
    case Z(q) => [q]
    case H(q) => [q]
    case S(q) => [q]
    case Sdg(q) => [q]
    case T(q) => [q]
    case Tdg(q) => [q]
    case Measure(q, _) => [q]
  }

  predicate GateInRange(g: Gate, n: nat) {
    forall k :: 0 <= k < |Qubits(g)| ==> Qubits(g)[k] < n
  }

  /** No qubit is named twice by one instruction (Qiskit refuses duplicate
      qubit arguments when a gate is appended). */
  predicate DistinctQubits(g: Gate) {
    Distinct(Qubits(g))
  }

  predicate Classical(g: Gate) {
    g.X? || g.CX? || g.CCX? || g.MCX?
  }

  predicate ClassicalCircuit(gs: seq<Gate>, n: nat) {
    forall k :: 0 <= k < |gs| ==> Classical(gs[k]) && GateInRange(gs[k], n)
  }

  /** Every qubit in `qs` is 1. */
  predicate AllOn(s: seq<bool>, qs: seq<nat>)
    requires forall k :: 0 <= k < |qs| ==> qs[k] < |s|
  {
    forall k :: 0 <= k < |qs| ==> s[qs[k]]
  }

  /** A classical gate on a basis state: the target flips when every
      control is 1. */
  function Apply(g: Gate, s: seq<bool>): (r: seq<bool>)
    requires Classical(g) && GateInRange(g, |s|)
    ensures |r| == |s|
  {
    match g
    case X(q) =>
      assert Qubits(g)[0] == q;
      s[q := !s[q]]
    case CX(c, t) =>
      assert Qubits(g)[0] == c && Qubits(g)[1] == t;
      s[t := s[t] != s[c]]
    case CCX(c1, c2, t) =>
      assert Qubits(g)[0] == c1 && Qubits(g)[1] == c2 && Qubits(g)[2] == t;
      s[t := s[t] != (s[c1] && s[c2])]
    case MCX(cs, t) =>
      assert forall k :: 0 <= k < |cs| ==> Qubits(g)[k] == cs[k];
      assert Qubits(g)[|cs|] == t;
      s[t := s[t] != AllOn(s, cs)]
  }

  /** A classical circuit on a basis state, gate by gate. */
  function Run(gs: seq<Gate>, s: seq<bool>): (r: seq<bool>)
    requires ClassicalCircuit(gs, |s|)
    ensures |r| == |s|
    decreases |gs|
  {
    if gs == [] then s else Run(gs[1..], Apply(gs[0], s))
  }

  lemma {:induction false} RunAppend(a: seq<Gate>, b: seq<Gate>, s: seq<bool>)
    requires ClassicalCircuit(a, |s|) && ClassicalCircuit(b, |s|)
    ensures ClassicalCircuit(a + b, |s|)
    ensures Run(a + b, s) == Run(b, Run(a, s))
    decreases |a|
  {
    if a != [] {
      assert (a + b)[1..] == a[1..] + b;
      RunAppend(a[1..], b, Apply(a[0], s));
    } else {
      assert a + b == b;
    }
  }

  /** A single gate between two circuits. */
  lemma RunAround(a: seq<Gate>, g: Gate, b: seq<Gate>, s: seq<bool>)
    requires ClassicalCircuit(a, |s|) && ClassicalCircuit(b, |s|)
    requires Classical(g) && GateInRange(g, |s|)
    ensures ClassicalCircuit(a + [g] + b, |s|)
    ensures Run(a + [g] + b, s) == Run(b, Apply(g, Run(a, s)))
  {
    assert ClassicalCircuit([g], |s|);
    RunAppend(a, [g], s);
    RunAppend(a + [g], b, s);
    assert Run([g], Run(a, s)) == Apply(g, Run(a, s));
  }

  lemma RunFour(a: seq<Gate>, b: seq<Gate>, c: seq<Gate>, d: seq<Gate>, s: seq<bool>)
    requires ClassicalCircuit(a, |s|) && ClassicalCircuit(b, |s|)
    requires ClassicalCircuit(c, |s|) && ClassicalCircuit(d, |s|)
    ensures ClassicalCircuit(a + b + c + d, |s|)
    ensures Run(a + b + c + d, s) == Run(d, Run(c, Run(b, Run(a, s))))
  {
    RunAppend(a, b, s);
    RunAppend(a + b, c, s);
    RunAppend(a + b + c, d, s);
  }

  /** One X per listed qubit, in order. */
  function XLayer(qs: seq<nat>): (gs: seq<Gate>)
    ensures |gs| == |qs|
    ensures forall k :: 0 <= k < |gs| ==> gs[k] == X(qs[k])
  {
    if qs == [] then [] else [X(qs[0])] + XLayer(qs[1..])
  }

  lemma XLayerClassical(qs: seq<nat>, n: nat)
    requires forall k :: 0 <= k < |qs| ==> qs[k] < n
    ensures ClassicalCircuit(XLayer(qs), n)
  {
    var gs := XLayer(qs);
    forall k | 0 <= k < |gs| ensures Classical(gs[k]) && GateInRange(gs[k], n) {
      assert Qubits(gs[k]) == [qs[k]];
    }
  }

  lemma XLayerAppend(a: seq<nat>, b: seq<nat>)
    ensures XLayer(a + b) == XLayer(a) + XLayer(b)
  {
    assert forall k :: 0 <= k < |a + b| ==> XLayer(a + b)[k] == (XLayer(a) + XLayer(b))[k];
  }

  /** No qubit occurs twice. */
  predicate Distinct(qs: seq<nat>) {
    forall i, j :: 0 <= i < j < |qs| ==> qs[i] != qs[j]
  }

  /** An X layer over distinct qubits flips exactly those qubits. */
  lemma {:induction false} RunXLayer(qs: seq<nat>, s: seq<bool>)
    requires forall k :: 0 <= k < |qs| ==> qs[k] < |s|
    requires Distinct(qs)
    ensures ClassicalCircuit(XLayer(qs), |s|)
    ensures forall q :: 0 <= q < |s| ==>
      Run(XLayer(qs), s)[q] == (if q in qs then !s[q] else s[q])
    decreases |qs|
  {
    XLayerClassical(qs, |s|);
    if qs != [] {
      var s1 := s[qs[0] := !s[qs[0]]];
      assert Apply(X(qs[0]), s) == s1 by { assert Qubits(X(qs[0]))[0] == qs[0]; }
      RunXLayer(qs[1..], s1);
      assert XLayer(qs)[1..] == XLayer(qs[1..]);
      forall q | 0 <= q < |s|
        ensures Run(XLayer(qs), s)[q] == (if q in qs then !s[q] else s[q])
      {
        assert q in qs <==> q == qs[0] || q in qs[1..];
        if q == qs[0] {
          assert q !in qs[1..] by {
            forall k | 0 <= k < |qs[1..]| ensures qs[1..][k] != q {
              assert qs[1..][k] == qs[k + 1];
            }
          }
        }
      }
    }
  }

  /** Applying the same X layer twice restores every basis state. */
  lemma {:induction false} XLayerTwice(qs: seq<nat>, s: seq<bool>)
    requires forall k :: 0 <= k < |qs| ==> qs[k] < |s|
    ensures ClassicalCircuit(XLayer(qs) + XLayer(qs), |s|)
    ensures Run(XLayer(qs) + XLayer(qs), s) == s
    decreases |qs|
  {
    XLayerClassical(qs, |s|);
    RunAppend(XLayer(qs), XLayer(qs), s);
    XLayerFlips(qs, s);
    XLayerFlips(qs, Run(XLayer(qs), s));
    assert Run(XLayer(qs), Run(XLayer(qs), s)) == s;
  }

  /** After an X layer a qubit holds its old value exclusive-or the parity
      of its occurrences in the layer. */
  lemma {:induction false} XLayerFlips(qs: seq<nat>, s: seq<bool>)
    requires forall k :: 0 <= k < |qs| ==> qs[k] < |s|
    ensures ClassicalCircuit(XLayer(qs), |s|)
    ensures forall q :: 0 <= q < |s| ==> Run(XLayer(qs), s)[q] == (s[q] != Odd(qs, q))
    decreases |qs|
  {
    XLayerClassical(qs, |s|);
    if qs != [] {
      var s1 := s[qs[0] := !s[qs[0]]];
      assert Apply(X(qs[0]), s) == s1 by { assert Qubits(X(qs[0]))[0] == qs[0]; }
      assert XLayer(qs)[1..] == XLayer(qs[1..]);
      XLayerFlips(qs[1..], s1);
    }
  }

  /** `q` occurs an odd number of times in `qs`. */
  function Odd(qs: seq<nat>, q: nat): bool
    decreases |qs|
  {
    if qs == [] then false else (qs[0] == q) != Odd(qs[1..], q)
  }
}
