/** The `.qc` gate-list text that the t-par optimiser reads and writes, as
    `write_qc_format` and `read_qc_format` produce and accept it
    (external/t-par/t_par.py). A file is its text; opening, reading and
    writing it are left to the caller. */
module QcFormat {
  import opened Results
  import opened Text
  import opened Gates

  // ---------------------------------------------------------------------------
  // Gate labels

  /** Qiskit instruction names and the `.qc` label each is written as. */
  const GateMap: map<string, string> :=
    map["cx" := "tof", "ccx" := "tof", "mcx" := "tof", "x" := "X", "h" := "H",
        "t" := "T", "tdg" := "T*", "z" := "Z", "y" := "Y", "s" := "P", "sdg" := "P*"]

  /** The labels the reader knows how to apply. */
  const ReadLabels: set<string> := {"tof", "X", "H", "T", "T*", "Z", "Y", "P", "P*"}

  /** The gates the writer keeps: every gate but a measurement
      (`LabelFromMap` shows these are the gates whose name is a key of
      `GateMap`). */
  predicate Mapped(g: Gate) {
    !g.Measure?
  }

  /** The label a kept gate is written with. */
  function Label(g: Gate): string
    requires Mapped(g)
  {
    match g
    case CX(_, _) => "tof"
    case CCX(_, _, _) => "tof"
    case MCX(_, _) => "tof"
    case X(_) => "X"
    case H(_) => "H"
    case T(_) => "T"
    case Tdg(_) => "T*"
    case Z(_) => "Z"
    case Y(_) => "Y"
    case S(_) => "P"
    case Sdg(_) => "P*"
  }

  /** The writer's label map, looked up by instruction name, keeps exactly
      the gates `Mapped` keeps and gives them the labels `Label` gives. */
  lemma LabelFromMap(g: Gate)
    ensures Name(g) in GateMap <==> Mapped(g)
    ensures Mapped(g) ==> GateMap[Name(g)] == Label(g)
  {
  }

  /** Every written label is one the reader knows, and it is "tof" exactly
      for the controlled X gates. */
  lemma LabelReadable(g: Gate)
    requires Mapped(g)
    ensures Label(g) in ReadLabels && (Label(g) == "tof" <==> g.CX? || g.CCX? || g.MCX?)
    ensures var l := Label(g); l != [] && NoSpace(l) && l[0] != '.' && l[0] != 'B' && l[0] != 'E'
  {
  }

  /** Qiskit's reading of an integer qubit argument of a circuit of `n`
      qubits: Python list indexing, so -n..-1 count back from the end. */
  function ListIndex(q: int, n: nat): int {
    if q < 0 then q + n else q
  }

  /** The qubits an integer argument list names. */
  function ListIndices(qs: seq<int>, n: nat): (r: seq<int>)
    ensures |r| == |qs| && forall k :: 0 <= k < |qs| ==> r[k] == ListIndex(qs[k], n)
    ensures (forall k :: 0 <= k < |qs| ==> 0 <= qs[k]) ==> r == qs
  {
    seq(|qs|, k requires 0 <= k < |qs| => ListIndex(qs[k], n))
  }

  /** The gate the reader's label map applies for `tag` to the qubits `ps`,
      or None for an arity Qiskit would not accept ("tof" takes a target and
      one or two controls, every other label a single qubit). */
  function GateOn(tag: string, ps: seq<nat>): (r: Option<Gate>)
    ensures r.Some? <==> tag in ReadLabels && (if tag == "tof" then |ps| == 2 || |ps| == 3 else |ps| == 1)
    ensures r.Some? ==> Qubits(r.value) == ps
  {
    if tag == "tof" then
      if |ps| == 3 then Some(CCX(ps[0], ps[1], ps[2]))
      else if |ps| == 2 then Some(CX(ps[0], ps[1]))
      else None
    else if |ps| != 1 then None
    else
      var q := ps[0];
      if tag == "X" then Some(X(q))
      else if tag == "H" then Some(H(q))
      else if tag == "T" then Some(T(q))
      else if tag == "T*" then Some(Tdg(q))
      else if tag == "Z" then Some(Z(q))
      else if tag == "Y" then Some(Y(q))
      else if tag == "P" then Some(S(q))
      else if tag == "P*" then Some(Sdg(q))
      else None
  }

  /** The gate a `.qc` line with `tag` and the integer arguments `qs`
      appends to a circuit of `n` qubits, or None when the source leaves the
      outcome to Qiskit (a wrong argument count, an index outside -n..n-1, an
      argument list naming one qubit twice, or "tof" with more than three
      qubits, which `mcx` would not read as controls and a target). */
  function GateOf(tag: string, qs: seq<int>, n: nat): (r: Option<Gate>)
    ensures r.Some? <==>
      tag in ReadLabels
      && (forall k :: 0 <= k < |qs| ==> -(n as int) <= qs[k] < n)
      && (forall i, j :: 0 <= i < j < |qs| ==> ListIndex(qs[i], n) != ListIndex(qs[j], n))
      && (if tag == "tof" then |qs| == 2 || |qs| == 3 else |qs| == 1)
    ensures r.Some? ==>
      Qubits(r.value) == ListIndices(qs, n) && GateInRange(r.value, n) && DistinctQubits(r.value)
  {
    if !(forall k :: 0 <= k < |qs| ==> -(n as int) <= qs[k] < n) then None
    else if !(forall i, j :: 0 <= i < j < |qs| ==> ListIndex(qs[i], n) != ListIndex(qs[j], n)) then None
    else
      var ps: seq<nat> := ListIndices(qs, n);
      assert forall k :: 0 <= k < |ps| ==> ps[k] < n;
      assert Distinct(ps);
      GateOn(tag, ps)
  }

  /** A line with negative indices appends what the line with the indices
      they count back to appends. */
  lemma NegativeIndices(tag: string, qs: seq<int>, n: nat)
    requires forall k :: 0 <= k < |qs| ==> -(n as int) <= qs[k] < n
    ensures GateOf(tag, qs, n) == GateOf(tag, ListIndices(qs, n), n)
  {
    var ps := ListIndices(qs, n);
    assert ListIndices(ps, n) == ps;
  }

  // ---------------------------------------------------------------------------
  // Writing

  /** `range(n)`. */
  function Indices(n: nat): (r: seq<int>)
    ensures |r| == n && forall k :: 0 <= k < n ==> r[k] == k
  {
    seq(n, k => k)
  }

  /** The header: the qubit indices on the ".v", ".i" and ".o" lines, then
      an empty line, "BEGIN" and another empty line. */
  function Header(n: nat): string {
    var indices := Join(" ", IntTexts(Indices(n)));
    ".v " + indices + "\n" + ".i " + indices + "\n" + ".o " + indices + "\n" + "\nBEGIN\n\n"
  }

  /** The line of a written gate: its label and its qubits, controls first. */
  function GateText(g: Gate): string
    requires Mapped(g)
  {
    Label(g) + " " + Join(" ", IntTexts(Qubits(g)))
  }

  /** The lines of the gates the writer keeps, in circuit order. */
  function GateTexts(gs: seq<Gate>): (ts: seq<string>)
    ensures |ts| <= |gs|
    decreases |gs|
  {
    if gs == [] then []
    else (if Mapped(gs[0]) then [GateText(gs[0])] else []) + GateTexts(gs[1..])
  }

  /** Each line followed by a newline. */
  function Terminated(ts: seq<string>): string
    decreases |ts|
  {
    if ts == [] then "" else ts[0] + "\n" + Terminated(ts[1..])
  }

  /** The text `write_qc_format(circuit, filename)` writes: the header, one
      line per kept gate, and "END" after an empty line, with no final
      newline. Measurements and classical bits are not written. */
  function WriteQc(c: Circuit): string {
    Header(c.numQubits) + Terminated(GateTexts(c.gates)) + "\nEND"
  }

  /** `write_qc_format`, returning the text it writes. */
  method WriteQcFormat(c: Circuit) returns (text: string)
    ensures text == WriteQc(c)
  {
    var indices := Join(" ", IntTexts(Indices(c.numQubits)));
    text := ".v " + indices + "\n";
    text := text + ".i " + indices + "\n";
    text := text + ".o " + indices + "\n";
    text := text + "\nBEGIN\n\n";
    var i := 0;
    while i < |c.gates|
      invariant 0 <= i <= |c.gates|
      invariant text == Header(c.numQubits) + Terminated(GateTexts(c.gates[..i]))
    {
      var g := c.gates[i];
      var name := Name(g);
      WriteStep(Header(c.numQubits), c.gates, i);
      LabelFromMap(g);
      if name in GateMap {
        var line := GateMap[name] + " " + Join(" ", IntTexts(Qubits(g)));
        text := text + line + "\n";
      }
      i := i + 1;
    }
    assert c.gates[..|c.gates|] == c.gates;
    text := text + "\nEND";
  }

  lemma {:induction false} GateTextsAppend(a: seq<Gate>, b: seq<Gate>)
    ensures GateTexts(a + b) == GateTexts(a) + GateTexts(b)
    decreases |a|
  {
    if a != [] {
      assert (a + b)[0] == a[0] && (a + b)[1..] == a[1..] + b;
      GateTextsAppend(a[1..], b);
    } else {
      assert a + b == b;
    }
  }

  lemma {:induction false} TerminatedAppend(a: seq<string>, b: seq<string>)
    ensures Terminated(a + b) == Terminated(a) + Terminated(b)
    decreases |a|
  {
    if a != [] {
      assert (a + b)[0] == a[0] && (a + b)[1..] == a[1..] + b;
      TerminatedAppend(a[1..], b);
    } else {
      assert a + b == b;
    }
  }

  /** One round of the writing loop, stated on the text written so far. */
  lemma WriteStep(head: string, gs: seq<Gate>, i: nat)
    requires i < |gs|
    ensures Mapped(gs[i]) ==>
      head + Terminated(GateTexts(gs[..i + 1])) == head + Terminated(GateTexts(gs[..i])) + GateText(gs[i]) + "\n"
    ensures !Mapped(gs[i]) ==>
      head + Terminated(GateTexts(gs[..i + 1])) == head + Terminated(GateTexts(gs[..i]))
  {
    GateTextsSnoc(gs, i);
    if Mapped(gs[i]) {
      WriteLine(head, GateTexts(gs[..i]), GateText(gs[i]));
    } else {
      assert GateTexts(gs[..i]) + [] == GateTexts(gs[..i]);
    }
  }

  /** Writing one more line after `head`. */
  lemma WriteLine(head: string, pre: seq<string>, t: string)
    ensures head + Terminated(pre + [t]) == head + Terminated(pre) + t + "\n"
  {
    TerminatedSnoc(pre, t);
    var a := Terminated(pre);
    assert head + (a + t + "\n") == head + a + t + "\n";
  }

  lemma GateTextsSnoc(gs: seq<Gate>, i: nat)
    requires i < |gs|
    ensures GateTexts(gs[..i + 1]) == GateTexts(gs[..i]) + (if Mapped(gs[i]) then [GateText(gs[i])] else [])
  {
    assert gs[..i + 1] == gs[..i] + [gs[i]];
    GateTextsAppend(gs[..i], [gs[i]]);
    assert [gs[i]][1..] == [];
    assert GateTexts([gs[i]]) == (if Mapped(gs[i]) then [GateText(gs[i])] else []) + [];
  }

  lemma TerminatedSnoc(ts: seq<string>, t: string)
    ensures Terminated(ts + [t]) == Terminated(ts) + t + "\n"
  {
    TerminatedAppend(ts, [t]);
    assert [t][1..] == [];
    assert Terminated([t]) == t + "\n" + "";
  }

  // ---------------------------------------------------------------------------
  // Reading

  /** How reading ends: with a value, with the ValueError message the
      source raises, or in a case the source leaves to Qiskit. */
  datatype Parse<+T> = Parsed(value: T) | Raised(message: string) | Unspecified

  /** The reader's variables: `qubits_declared`, `num_qubits` and `circuit`
      (None before "BEGIN"). */
  datatype ReadState = ReadState(declared: bool, numQubits: nat, circuit: Option<Circuit>)

  const Start := ReadState(false, 0, None)

  /** After one line the reader goes on to the next line or stops at "END". */
  datatype Flow = More(state: ReadState) | Ended(state: ReadState)

  const NoQubitsMessage := "No qubit declaration found in .qc file before BEGIN"

  const NoCircuitMessage := "No circuit found in file (missing BEGIN/END?)"

  function UnsupportedLabel(tag: string): string {
    "Unsupported gate label " + tag + " in .qc file"
  }

  /** `len(line.split()[1:])`: the tokens after the ".v" or ".i" label. */
  function DeclaredCount(line: string): nat {
    var ws := Words(line);
    if ws == [] then 0 else |ws| - 1
  }

  /** A gate line after "BEGIN": its integer arguments are parsed before the
      label is looked up, and the gate is appended to the circuit. */
  function GateStep(c: Circuit, line: string): Parse<Circuit> {
    var tokens := Words(line);
    if tokens == [] then Parsed(c)
    else match ParseInts(tokens[1..])
      case Err(m) => Raised(m)
      case Ok(qs) =>
        if tokens[0] !in ReadLabels then Raised(UnsupportedLabel(tokens[0]))
        else match GateOf(tokens[0], qs, c.numQubits)
          case None => Unspecified
          case Some(g) => Parsed(c.(gates := c.gates + [g]))
  }

  /** One round of the reading loop on a raw line: dot lines and blank lines
      may set the qubit count, "BEGIN" opens an empty circuit of that many
      qubits, "END" stops, and other lines are gates once "BEGIN" has been
      seen and are skipped before it. */
  function Step(st: ReadState, raw: string): Parse<Flow> {
    var line := Strip(raw);
    if line == "" || StartsWith(line, ".") then
      if StartsWith(line, ".v") || StartsWith(line, ".i") then
        Parsed(More(st.(numQubits := DeclaredCount(line))))
      else
        Parsed(More(st))
    else if line == "BEGIN" then
      if st.numQubits == 0 then Raised(NoQubitsMessage)
      else Parsed(More(ReadState(true, st.numQubits, Some(Circuit(st.numQubits, 0, [])))))
    else if line == "END" then Parsed(Ended(st))
    else if st.declared then
      match st.circuit
      case None => Unspecified
      case Some(c) =>
        match GateStep(c, line)
        case Parsed(c') => Parsed(More(st.(circuit := Some(c'))))
        case Raised(m) => Raised(m)
        case Unspecified => Unspecified
    else Parsed(More(st))
  }

  /** The reading loop over the remaining lines. */
  function ReadFrom(ls: seq<string>, st: ReadState): Parse<ReadState>
    decreases |ls|
  {
    if ls == [] then Parsed(st)
    else match Step(st, ls[0])
      case Parsed(More(s)) => ReadFrom(ls[1..], s)
      case Parsed(Ended(s)) => Parsed(s)
      case Raised(m) => Raised(m)
      case Unspecified => Unspecified
  }

  /** `read_qc_format` on the file's text. */
  function ReadQc(text: string): Parse<Circuit> {
    match ReadFrom(Lines(text), Start)
    case Parsed(st) => if st.circuit.None? then Raised(NoCircuitMessage) else Parsed(st.circuit.value)
    case Raised(m) => Raised(m)
    case Unspecified => Unspecified
  }

  /** `qubits_declared` is set exactly when a circuit has been opened. */
  predicate Consistent(st: ReadState) {
    st.declared == st.circuit.Some?
  }

  /** The loop at line `i`, unfolded once. */
  lemma ReadFromAt(ls: seq<string>, i: nat, st: ReadState)
    requires i < |ls|
    ensures var p := Step(st, ls[i]);
      && (p.Parsed? && p.value.More? ==> ReadFrom(ls[i..], st) == ReadFrom(ls[i + 1..], p.value.state))
      && (p.Parsed? && p.value.Ended? ==> ReadFrom(ls[i..], st) == Parsed(p.value.state))
      && (p.Raised? ==> ReadFrom(ls[i..], st) == Raised(p.message))
      && (p.Unspecified? ==> ReadFrom(ls[i..], st) == Unspecified)
  {
    assert ls[i..][0] == ls[i] && ls[i..][1..] == ls[i + 1..];
  }

  /** A blank line or a dot line may set the qubit count. */
  lemma DotLine(st: ReadState, raw: string)
    requires Strip(raw) == "" || StartsWith(Strip(raw), ".")
    ensures var line := Strip(raw);
      Step(st, raw) == Parsed(More(
        if StartsWith(line, ".v") || StartsWith(line, ".i") then st.(numQubits := DeclaredCount(line)) else st))
  {
  }

  /** "BEGIN" opens an empty circuit, or raises when no qubits are declared. */
  lemma BeginLine(st: ReadState, raw: string)
    requires Strip(raw) == "BEGIN"
    ensures Step(st, raw) == (if st.numQubits == 0 then Raised(NoQubitsMessage)
      else Parsed(More(ReadState(true, st.numQubits, Some(Circuit(st.numQubits, 0, []))))))
  {
    assert "BEGIN"[..1][0] == 'B';
  }

  /** Any line that strips to "END" ends the reading loop. */
  lemma EndLineStep(st: ReadState, e: string)
    requires Strip(e) == "END"
    ensures Step(st, e) == Parsed(Ended(st))
  {
    assert "END"[..1][0] == 'E';
  }

  /** Any other line is skipped before "BEGIN" and read as a gate after it. */
  lemma OtherLine(st: ReadState, raw: string)
    requires var line := Strip(raw);
      !(line == "" || StartsWith(line, ".")) && line != "BEGIN" && line != "END"
    ensures !st.declared ==> Step(st, raw) == Parsed(More(st))
    ensures st.declared && st.circuit.Some? ==>
      var p := GateStep(st.circuit.value, Strip(raw));
      && (p.Parsed? ==> Step(st, raw) == Parsed(More(st.(circuit := Some(p.value)))))
      && (p.Raised? ==> Step(st, raw) == Raised(p.message))
      && (p.Unspecified? ==> Step(st, raw) == Unspecified)
  {
  }

  /** The outcomes of a gate line, in the order the source checks them. */
  lemma GateLineCases(c: Circuit, line: string)
    ensures Words(line) == [] ==> GateStep(c, line) == Parsed(c)
    ensures Words(line) != [] ==>
      var tokens := Words(line);
      var q := ParseInts(tokens[1..]);
      && (q.Err? ==> GateStep(c, line) == Raised(q.message))
      && (q.Ok? && tokens[0] !in ReadLabels ==> GateStep(c, line) == Raised(UnsupportedLabel(tokens[0])))
      && (q.Ok? && tokens[0] in ReadLabels ==>
            var g := GateOf(tokens[0], q.value, c.numQubits);
            && (g.None? ==> GateStep(c, line) == Unspecified)
            && (g.Some? ==> GateStep(c, line) == Parsed(c.(gates := c.gates + [g.value]))))
  {
  }

  /** The body of the reading loop for a line after "BEGIN": the integer
      arguments are parsed before the label is looked up, and the gate is
      applied to the circuit. */
  method ReadGateLine(c: Circuit, line: string) returns (p: Parse<Circuit>)
    ensures p == GateStep(c, line)
  {
    GateLineCases(c, line);
    var tokens := Words(line);
    if tokens == [] {
      return Parsed(c);
    }
    var tag := tokens[0];
    var qubits := ParseInts(tokens[1..]);
    if qubits.Err? {
      return Raised(qubits.message);
    }
    if tag !in ReadLabels {
      return Raised(UnsupportedLabel(tag));
    }
    var g := GateOf(tag, qubits.value, c.numQubits);
    if g.None? {
      return Unspecified;
    }
    return Parsed(c.(gates := c.gates + [g.value]));
  }

  /** `read_qc_format`, returning the circuit or how reading fails. */
  method ReadQcFormat(text: string) returns (r: Parse<Circuit>)
    ensures r == ReadQc(text)
  {
    var lines := Lines(text);
    var declared, numQubits: nat, circuit: Option<Circuit> := false, 0, None;
    var i := 0;
    while i < |lines|
      invariant 0 <= i <= |lines|
      invariant declared == circuit.Some?
      invariant ReadFrom(lines, Start) == ReadFrom(lines[i..], ReadState(declared, numQubits, circuit))
    {
      ghost var st := ReadState(declared, numQubits, circuit);
      ReadFromAt(lines, i, st);
      var line := Strip(lines[i]);
      if line == "" || StartsWith(line, ".") {
        DotLine(st, lines[i]);
        if StartsWith(line, ".v") || StartsWith(line, ".i") {
          var qlist := Words(line);
          numQubits := if qlist == [] then 0 else |qlist[1..]|;
        }
      } else if line == "BEGIN" {
        BeginLine(st, lines[i]);
        declared := true;
        if numQubits == 0 {
          return Raised(NoQubitsMessage);
        }
        circuit := Some(Circuit(numQubits, 0, []));
      } else if line == "END" {
        EndLineStep(st, lines[i]);
        break;
      } else if declared {
        OtherLine(st, lines[i]);
        var p := ReadGateLine(circuit.value, line);
        if !p.Parsed? {
          return p;
        }
        circuit := Some(p.value);
      } else {
        OtherLine(st, lines[i]);
      }
      i := i + 1;
    }
    if circuit.None? {
      return Raised(NoCircuitMessage);
    }
    return Parsed(circuit.value);
  }

  // ---------------------------------------------------------------------------
  // What the reader accepts

  /** The reader's state stays consistent, and every circuit it opens has
      qubits and holds only gates on distinct qubits inside its register. */
  predicate Good(st: ReadState) {
    Consistent(st)
    && (st.circuit.Some? ==>
          var c := st.circuit.value;
          c.numQubits > 0
          && forall k :: 0 <= k < |c.gates| ==> GateInRange(c.gates[k], c.numQubits) && DistinctQubits(c.gates[k]))
  }

  lemma StepKeepsGood(st: ReadState, raw: string)
    requires Good(st)
    ensures var p := Step(st, raw); p.Parsed? ==> Good(p.value.state)
  {
    var line := Strip(raw);
    if !(line == "" || StartsWith(line, ".")) && line != "BEGIN" && line != "END" && st.declared {
      var c := st.circuit.value;
      var p := GateStep(c, line);
      if p.Parsed? && p.value != c {
        var tokens := Words(line);
        var qs := ParseInts(tokens[1..]).value;
        var g := GateOf(tokens[0], qs, c.numQubits).value;
        assert p.value.gates == c.gates + [g];
      }
    }
  }

  lemma {:induction false} ReadFromKeepsGood(ls: seq<string>, st: ReadState)
    requires Good(st)
    ensures ReadFrom(ls, st).Parsed? ==> Good(ReadFrom(ls, st).value)
    decreases |ls|
  {
    if ls != [] {
      StepKeepsGood(st, ls[0]);
      var p := Step(st, ls[0]);
      if p.Parsed? && p.value.More? {
        ReadFromKeepsGood(ls[1..], p.value.state);
      }
    }
  }

  /** A circuit the reader returns has at least one qubit, and each of its
      gates names distinct qubits below the declared count. */
  lemma ReadQcGood(text: string)
    ensures var r := ReadQc(text);
      r.Parsed? ==>
        (r.value.numQubits > 0
         && forall k :: 0 <= k < |r.value.gates| ==>
              GateInRange(r.value.gates[k], r.value.numQubits) && DistinctQubits(r.value.gates[k]))
  {
    ReadFromKeepsGood(Lines(text), Start);
  }

  /** Before "BEGIN" nothing can fail: text without a "BEGIN" line reads as
      the missing-circuit error. */
  lemma {:induction false} ReadNoBegin(ls: seq<string>, st: ReadState)
    requires !st.declared && st.circuit.None?
    requires forall k :: 0 <= k < |ls| ==> Strip(ls[k]) != "BEGIN"
    ensures ReadFrom(ls, st).Parsed? && ReadFrom(ls, st).value.circuit.None?
    decreases |ls|
  {
    if ls != [] {
      var p := Step(st, ls[0]);
      if p.Parsed? && p.value.More? {
        assert forall k :: 0 <= k < |ls[1..]| ==> ls[1..][k] == ls[k + 1];
        ReadNoBegin(ls[1..], p.value.state);
      }
    }
  }

  lemma NoBeginRaises(text: string)
    requires forall k :: 0 <= k < |Lines(text)| ==> Strip(Lines(text)[k]) != "BEGIN"
    ensures ReadQc(text) == Raised(NoCircuitMessage)
  {
    ReadNoBegin(Lines(text), Start);
  }

  /** Reading stops at the first "END" line: what follows it is never read. */
  lemma {:induction false} ReadStopsAtEnd(ls: seq<string>, e: string, r1: seq<string>, r2: seq<string>, st: ReadState)
    requires Strip(e) == "END"
    ensures ReadFrom(ls + [e] + r1, st) == ReadFrom(ls + [e] + r2, st)
    decreases |ls|
  {
    var a, b := ls + [e] + r1, ls + [e] + r2;
    if ls == [] {
      EndLineStep(st, e);
      assert a[0] == e && b[0] == e;
    } else {
      assert a[0] == ls[0] && b[0] == ls[0];
      assert a[1..] == ls[1..] + [e] + r1 && b[1..] == ls[1..] + [e] + r2;
      var p := Step(st, ls[0]);
      if p.Parsed? && p.value.More? {
        ReadStopsAtEnd(ls[1..], e, r1, r2, p.value.state);
      }
    }
  }

  // ---------------------------------------------------------------------------
  // Reading back what was written

  /** The gate the reader rebuilds from a written gate: an MCX with one or
      two controls comes back as CX or CCX. */
  function Normal(g: Gate): Gate {
    match g
    case MCX(cs, t) =>
      if |cs| == 1 then CX(cs[0], t) else if |cs| == 2 then CCX(cs[0], cs[1], t) else g
    case _ => g
  }

  /** The written gates as the reader rebuilds them, in circuit order. */
  function ReadBack(gs: seq<Gate>): (r: seq<Gate>)
    ensures |r| <= |gs|
    decreases |gs|
  {
    if gs == [] then []
    else (if Mapped(gs[0]) then [Normal(gs[0])] else []) + ReadBack(gs[1..])
  }

  /** A gate survives the round trip when it is dropped by the writer, or
      names distinct qubits of the register and is not an MCX with other
      than one or two controls. */
  predicate Writable(g: Gate, n: nat) {
    Mapped(g) ==>
      GateInRange(g, n) && DistinctQubits(g) && (g.MCX? ==> 1 <= |g.controls| <= 2)
  }

  /** The label the writer gives a gate names it back. */
  lemma GateRoundTrip(g: Gate, n: nat)
    requires Mapped(g) && Writable(g, n)
    ensures GateOf(Label(g), Qubits(g), n) == Some(Normal(g))
  {
    var qs := Qubits(g);
    assert forall k :: 0 <= k < |qs| ==> 0 <= qs[k] < n && ListIndex(qs[k], n) == qs[k];
    assert forall i, j :: 0 <= i < j < |qs| ==> qs[i] != qs[j];
    if g.CX? || g.CCX? || g.MCX? {
      ControlledRoundTrip(g, n);
    } else {
      assert qs == [g.q];
    }
  }

  /** The controlled X gates read back under "tof". */
  lemma ControlledRoundTrip(g: Gate, n: nat)
    requires (g.CX? || g.CCX? || g.MCX?) && Writable(g, n)
    ensures GateOf("tof", Qubits(g), n) == Some(Normal(g))
  {
    var qs := Qubits(g);
    assert forall k :: 0 <= k < |qs| ==> 0 <= qs[k] < n && ListIndex(qs[k], n) == qs[k];
    assert forall i, j :: 0 <= i < j < |qs| ==> qs[i] != qs[j];
    assert ListIndices(qs, n) == qs;
    match g
    case MCX(cs, t) =>
      if |cs| == 1 {
        assert qs == [cs[0], t];
      } else {
        assert qs == [cs[0], cs[1], t];
      }
    case _ =>
  }

  /** How the reader sees a written gate line. */
  lemma GateLineWords(g: Gate)
    requires Mapped(g)
    ensures var line := GateText(g);
      && Strip(line) == line
      && Words(line) == [Label(g)] + IntTexts(Qubits(g))
      && line[0] == Label(g)[0]
      && '\n' !in line
  {
    var ts := [Label(g)] + IntTexts(Qubits(g));
    LabelReadable(g);
    assert ts[1..] == IntTexts(Qubits(g));
    assert GateText(g) == Join(" ", ts);
    JoinTrimmed(ts);
    StripTrimmed(GateText(g));
    WordsOfJoin(ts);
    JoinNoNewline(ts);
  }

  /** A written gate line is none of the reader's special lines. */
  lemma GateLinePlain(g: Gate)
    requires Mapped(g)
    ensures var line := Strip(GateText(g));
      line == GateText(g) && line != "" && !StartsWith(line, ".") && line != "BEGIN" && line != "END"
  {
    GateLineWords(g);
    LabelReadable(g);
    PlainLine(GateText(g));
  }

  lemma PlainLine(line: string)
    requires line != [] && line[0] != '.' && line[0] != 'B' && line[0] != 'E'
    ensures line != "" && !StartsWith(line, ".") && line != "BEGIN" && line != "END"
  {
    assert line[..1] == [line[0]];
    assert "BEGIN"[0] == 'B' && "END"[0] == 'E';
  }

  /** A written gate line appends the rebuilt gate to the open circuit. */
  lemma GateStepOf(g: Gate, c: Circuit)
    requires Mapped(g) && Writable(g, c.numQubits)
    ensures GateStep(c, GateText(g)) == Parsed(c.(gates := c.gates + [Normal(g)]))
  {
    GateLineWords(g);
    LabelReadable(g);
    var tokens := Words(GateText(g));
    assert tokens[0] == Label(g) && tokens[1..] == IntTexts(Qubits(g));
    ParseIntTexts(Qubits(g));
    GateRoundTrip(g, c.numQubits);
  }

  lemma GateLineStep(g: Gate, st: ReadState, c: Circuit)
    requires Mapped(g) && Writable(g, c.numQubits)
    requires st.declared && st.circuit == Some(c)
    ensures Step(st, GateText(g)) == Parsed(More(st.(circuit := Some(c.(gates := c.gates + [Normal(g)])))))
  {
    GateLinePlain(g);
    GateStepOf(g, c);
  }

  /** The written gate lines rebuild the written gates, in order. */
  lemma {:induction false} ReadGateLines(gs: seq<Gate>, st: ReadState, c: Circuit, rest: seq<string>)
    requires st.declared && st.circuit == Some(c)
    requires forall k :: 0 <= k < |gs| ==> Writable(gs[k], c.numQubits)
    ensures ReadFrom(GateTexts(gs) + rest, st)
      == ReadFrom(rest, st.(circuit := Some(c.(gates := c.gates + ReadBack(gs)))))
    decreases |gs|
  {
    if gs == [] {
      assert [] + rest == rest;
      assert c.gates + [] == c.gates;
    } else {
      var g := gs[0];
      assert Writable(g, c.numQubits);
      assert forall k :: 0 <= k < |gs[1..]| ==> gs[1..][k] == gs[k + 1];
      GateTextsCons(gs, rest);
      ReadBackCons(c.gates, gs);
      if Mapped(g) {
        var c1 := c.(gates := c.gates + [Normal(g)]);
        GateLineStep(g, st, c);
        ReadFromMore(GateText(g), GateTexts(gs[1..]) + rest, st);
        ReadGateLines(gs[1..], st.(circuit := Some(c1)), c1, rest);
      } else {
        ReadGateLines(gs[1..], st, c, rest);
      }
    }
  }

  lemma {:induction false} GateTextsCons(gs: seq<Gate>, rest: seq<string>)
    requires gs != []
    ensures Mapped(gs[0]) ==> GateTexts(gs) + rest == [GateText(gs[0])] + (GateTexts(gs[1..]) + rest)
    ensures !Mapped(gs[0]) ==> GateTexts(gs) + rest == GateTexts(gs[1..]) + rest
  {
    if !Mapped(gs[0]) {
      assert GateTexts(gs) == [] + GateTexts(gs[1..]);
    }
  }

  lemma {:induction false} ReadBackCons(pre: seq<Gate>, gs: seq<Gate>)
    requires gs != []
    ensures Mapped(gs[0]) ==> pre + ReadBack(gs) == (pre + [Normal(gs[0])]) + ReadBack(gs[1..])
    ensures !Mapped(gs[0]) ==> pre + ReadBack(gs) == pre + ReadBack(gs[1..])
  {
    if !Mapped(gs[0]) {
      assert ReadBack(gs) == [] + ReadBack(gs[1..]);
    }
  }

  /** A line after which the reader goes on. */
  lemma ReadFromMore(l: string, rest: seq<string>, st: ReadState)
    requires Step(st, l).Parsed? && Step(st, l).value.More?
    ensures ReadFrom([l] + rest, st) == ReadFrom(rest, Step(st, l).value.state)
  {
    assert ([l] + rest)[0] == l && ([l] + rest)[1..] == rest;
  }

  /** The written header as lines. */
  function HeaderLines(n: nat): seq<string> {
    var indices := Join(" ", IntTexts(Indices(n)));
    [".v " + indices, ".i " + indices, ".o " + indices, "", "BEGIN", ""]
  }

  lemma TerminatedCons(t: string, ts: seq<string>)
    ensures Terminated([t] + ts) == t + "\n" + Terminated(ts)
  {
    assert ([t] + ts)[0] == t && ([t] + ts)[1..] == ts;
  }

  lemma BeginTerminated()
    ensures Terminated(["", "BEGIN", ""]) == "\nBEGIN\n\n"
  {
    TerminatedCons("", []);
    assert [""] == [""] + [];
    TerminatedCons("BEGIN", [""]);
    assert ["BEGIN", ""] == ["BEGIN"] + [""];
    TerminatedCons("", ["BEGIN", ""]);
    assert ["", "BEGIN", ""] == [""] + ["BEGIN", ""];
    assert "" + "\n" + ("BEGIN" + "\n" + ("" + "\n" + "")) == "\nBEGIN\n\n";
  }

  lemma HeaderTerminated(n: nat)
    ensures Header(n) == Terminated(HeaderLines(n))
  {
    var indices := Join(" ", IntTexts(Indices(n)));
    var h0, h1, h2 := ".v " + indices, ".i " + indices, ".o " + indices;
    var b := ["", "BEGIN", ""];
    BeginTerminated();
    TerminatedCons(h2, b);
    TerminatedCons(h1, [h2] + b);
    TerminatedCons(h0, [h1] + ([h2] + b));
    assert HeaderLines(n) == [h0] + ([h1] + ([h2] + b));
    HeaderGrouped(n);
  }

  /** The header text, grouped line by line from the right. */
  lemma HeaderGrouped(n: nat)
    ensures var indices := Join(" ", IntTexts(Indices(n)));
      Header(n) == ".v " + indices + "\n" + (".i " + indices + "\n" + (".o " + indices + "\n" + "\nBEGIN\n\n"))
  {
    var indices := Join(" ", IntTexts(Indices(n)));
    var h1, h2 := ".i " + indices, ".o " + indices;
    var l := "\nBEGIN\n\n";
    var a, h1n, h2n := ".v " + indices + "\n", h1 + "\n", h2 + "\n";
    assert a + ".i " + indices == a + (".i " + indices);
    assert a + h1 + "\n" == a + (h1 + "\n");
    assert a + h1n + ".o " + indices == a + h1n + (".o " + indices);
    assert a + h1n + h2 + "\n" == a + h1n + (h2 + "\n");
    assert a + h1n + h2n + l == a + h1n + (h2n + l);
    assert a + h1n + (h2n + l) == a + (h1n + (h2n + l));
  }

  /** A line without a newline character. */
  predicate OneLine(t: string) {
    '\n' !in t
  }

  lemma {:induction false} LinesTerminated(ts: seq<string>, rest: string)
    requires forall k :: 0 <= k < |ts| ==> OneLine(ts[k])
    ensures Lines(Terminated(ts) + rest) == ts + Lines(rest)
    decreases |ts|
  {
    if ts == [] {
      assert "" + rest == rest;
    } else {
      var t := Terminated(ts[1..]);
      assert ts[0] + "\n" + t + rest == ts[0] + "\n" + (t + rest);
      assert OneLine(ts[0]);
      LinesCons(ts[0], t + rest);
      assert forall k :: 0 <= k < |ts[1..]| ==> ts[1..][k] == ts[k + 1];
      LinesTerminated(ts[1..], rest);
      ConsAssoc(ts, Lines(rest));
    }
  }

  lemma {:induction false} ConsAssoc(ts: seq<string>, more: seq<string>)
    requires ts != []
    ensures [ts[0]] + (ts[1..] + more) == ts + more
  {
    assert [ts[0]] + ts[1..] == ts;
  }

  /** A line at which the reader raises. */
  lemma {:induction false} ReadFromRaises(l: string, rest: seq<string>, st: ReadState)
    requires Step(st, l).Raised?
    ensures ReadFrom([l] + rest, st) == Raised(Step(st, l).message)
  {
    assert ([l] + rest)[0] == l;
  }

  lemma {:induction false} GateTextsOneLine(gs: seq<Gate>)
    ensures forall k :: 0 <= k < |GateTexts(gs)| ==> OneLine(GateTexts(gs)[k])
    decreases |gs|
  {
    if gs != [] {
      GateTextsOneLine(gs[1..]);
      var rest := GateTexts(gs[1..]);
      if Mapped(gs[0]) {
        GateLineWords(gs[0]);
        assert GateTexts(gs) == [GateText(gs[0])] + rest;
      } else {
        assert GateTexts(gs) == [] + rest;
      }
    }
  }

  /** No line the writer emits before "END" holds a newline. */
  lemma WrittenOneLine(c: Circuit, ts: seq<string>)
    requires ts == HeaderLines(c.numQubits) + GateTexts(c.gates) + [""]
    ensures forall k :: 0 <= k < |ts| ==> OneLine(ts[k])
  {
    var n := c.numQubits;
    var hs, gt := HeaderLines(n), GateTexts(c.gates);
    var indices := Join(" ", IntTexts(Indices(n)));
    JoinNoNewline(IntTexts(Indices(n)));
    assert OneLine(".v " + indices) && OneLine(".i " + indices) && OneLine(".o " + indices);
    assert OneLine("BEGIN") && OneLine("");
    GateTextsOneLine(c.gates);
    forall k | 0 <= k < |ts| ensures OneLine(ts[k]) {
      if k < |hs| {
        assert ts[k] == hs[k];
      } else if k < |hs| + |gt| {
        assert ts[k] == gt[k - |hs|];
      }
    }
  }

  /** The lines of the written text: the header lines, one line per kept
      gate, an empty line and "END". */
  lemma LinesOfWrite(c: Circuit)
    ensures Lines(WriteQc(c)) == HeaderLines(c.numQubits) + GateTexts(c.gates) + ["", "END"]
  {
    var n := c.numQubits;
    var hs, gt := HeaderLines(n), GateTexts(c.gates);
    var ts := hs + gt + [""];
    WrittenOneLine(c, ts);
    HeaderTerminated(n);
    TerminatedAppend(hs, gt);
    TerminatedSnoc(hs + gt, "");
    var body := Terminated(hs) + Terminated(gt);
    assert Terminated(ts) + "END" == body + "" + "\n" + "END";
    assert body + "" + "\n" + "END" == body + "\nEND";
    LinesTerminated(ts, "END");
    LinesLast("END");
    assert ts + ["END"] == hs + gt + ["", "END"];
  }

  /** A ".v", ".i" or ".o" header line of a register with qubits. */
  lemma DeclLine(head: string, n: nat)
    requires head == ".v " || head == ".i " || head == ".o "
    requires n > 0
    ensures var line := head + Join(" ", IntTexts(Indices(n)));
      Strip(line) == line && line[..1] == "." && line[..2] == head[..2] && DeclaredCount(line) == n
  {
    var tag := head[..2];
    var ts := [tag] + IntTexts(Indices(n));
    assert ts[1..] == IntTexts(Indices(n));
    var line := Join(" ", ts);
    assert tag + " " == head;
    assert line == head + Join(" ", IntTexts(Indices(n)));
    assert NoSpace(tag);
    JoinTrimmed(ts);
    StripTrimmed(line);
    WordsOfJoin(ts);
    assert line[..2] == tag;
  }

  /** How the reader steps over each kind of line the writer produces. */
  lemma DeclStep(head: string, n: nat, st: ReadState)
    requires head == ".v " || head == ".i " || head == ".o "
    requires n > 0
    ensures Step(st, head + Join(" ", IntTexts(Indices(n))))
      == Parsed(More(if head == ".o " then st else st.(numQubits := n)))
  {
    var line := head + Join(" ", IntTexts(Indices(n)));
    DeclLine(head, n);
    assert line != "" && StartsWith(line, ".");
    assert StartsWith(line, ".v") <==> head == ".v ";
    assert StartsWith(line, ".i") <==> head == ".i ";
  }

  lemma BlankStep(st: ReadState)
    ensures Step(st, "") == Parsed(More(st))
  {
  }

  lemma BeginStep(st: ReadState)
    ensures Step(st, "BEGIN") == (if st.numQubits == 0 then Raised(NoQubitsMessage)
      else Parsed(More(ReadState(true, st.numQubits, Some(Circuit(st.numQubits, 0, []))))))
  {
    StripTrimmed("BEGIN");
    assert !StartsWith("BEGIN", ".");
  }

  lemma EndStep(st: ReadState)
    ensures Step(st, "END") == Parsed(Ended(st))
  {
    StripTrimmed("END");
    EndLineStep(st, "END");
  }


  /** The header of a register with qubits declares them and opens an empty
      circuit of that size. */
  lemma ReadHeader(n: nat, rest: seq<string>)
    requires n > 0
    ensures ReadFrom(HeaderLines(n) + rest, Start) == ReadFrom(rest, ReadState(true, n, Some(Circuit(n, 0, []))))
  {
    var indices := Join(" ", IntTexts(Indices(n)));
    var tail := ["", "BEGIN", ""] + rest;
    assert HeaderLines(n) + rest == [".v " + indices] + ([".i " + indices] + ([".o " + indices] + tail));
    ReadDeclarations(n, tail);
    ReadBegin(n, rest);
  }

  /** The three declaration lines set the qubit count. */
  lemma ReadDeclarations(n: nat, rest: seq<string>)
    requires n > 0
    ensures var indices := Join(" ", IntTexts(Indices(n)));
      ReadFrom([".v " + indices] + ([".i " + indices] + ([".o " + indices] + rest)), Start)
        == ReadFrom(rest, ReadState(false, n, None))
  {
    var indices := Join(" ", IntTexts(Indices(n)));
    var s1 := ReadState(false, n, None);
    DeclStep(".v ", n, Start);
    DeclStep(".i ", n, s1);
    DeclStep(".o ", n, s1);
    ReadFromMore(".v " + indices, [".i " + indices] + ([".o " + indices] + rest), Start);
    ReadFromMore(".i " + indices, [".o " + indices] + rest, s1);
    ReadFromMore(".o " + indices, rest, s1);
  }

  /** A blank line, "BEGIN" and a blank line open an empty circuit. */
  lemma ReadBegin(n: nat, rest: seq<string>)
    requires n > 0
    ensures ReadFrom(["", "BEGIN", ""] + rest, ReadState(false, n, None))
      == ReadFrom(rest, ReadState(true, n, Some(Circuit(n, 0, []))))
  {
    var s1 := ReadState(false, n, None);
    var s2 := ReadState(true, n, Some(Circuit(n, 0, [])));
    BlankStep(s1);
    BeginStep(s1);
    BlankStep(s2);
    assert ["", "BEGIN", ""] + rest == [""] + (["BEGIN"] + ([""] + rest));
    ReadFromMore("", ["BEGIN"] + ([""] + rest), s1);
    ReadFromMore("BEGIN", [""] + rest, s1);
    ReadFromMore("", rest, s2);
  }

  /** The header of an empty register raises at "BEGIN". */
  lemma ReadHeaderEmpty(rest: seq<string>)
    ensures ReadFrom(HeaderLines(0) + rest, Start) == Raised(NoQubitsMessage)
  {
    var h0, h1, h2 := ".v ", ".i ", ".o ";
    HeaderLinesEmpty();
    EmptyDeclSteps();
    BlankStep(Start);
    BeginStep(Start);
    var t4 := ["BEGIN"] + ([""] + rest);
    var t3 := [""] + t4;
    var t2 := [h2] + t3;
    var t1 := [h1] + t2;
    assert HeaderLines(0) + rest == [h0] + t1;
    ReadFromMore(h0, t1, Start);
    ReadFromMore(h1, t2, Start);
    ReadFromMore(h2, t3, Start);
    ReadFromMore("", t4, Start);
    ReadFromRaises("BEGIN", [""] + rest, Start);
  }

  lemma HeaderLinesEmpty()
    ensures HeaderLines(0) == [".v ", ".i ", ".o ", "", "BEGIN", ""]
  {
    assert IntTexts(Indices(0)) == [];
    assert Join(" ", IntTexts(Indices(0))) == "";
    assert ".v " + "" == ".v " && ".i " + "" == ".i " && ".o " + "" == ".o ";
  }

  lemma EmptyDeclSteps()
    ensures Step(Start, ".v ") == Parsed(More(Start))
    ensures Step(Start, ".i ") == Parsed(More(Start))
    ensures Step(Start, ".o ") == Parsed(More(Start))
  {
    assert Strip(".v ") == ".v" && Strip(".i ") == ".i" && Strip(".o ") == ".o";
    WordsOfWord(".v");
    WordsOfWord(".i");
  }

  /** Writing a circuit and reading the text back gives its register size
      and its gates as the reader rebuilds them (measurements and classical
      bits are not written), provided every written gate names distinct
      qubits of the register and no MCX has other than one or two controls. */
  lemma RoundTrip(c: Circuit)
    requires c.numQubits > 0
    requires forall k :: 0 <= k < |c.gates| ==> Writable(c.gates[k], c.numQubits)
    ensures ReadQc(WriteQc(c)) == Parsed(Circuit(c.numQubits, 0, ReadBack(c.gates)))
  {
    var n := c.numQubits;
    var gt := GateTexts(c.gates);
    var tail := ["", "END"];
    LinesOfWrite(c);
    assert HeaderLines(n) + gt + tail == HeaderLines(n) + (gt + tail);
    ReadHeader(n, gt + tail);
    var c0 := Circuit(n, 0, []);
    var s2 := ReadState(true, n, Some(c0));
    ReadGateLines(c.gates, s2, c0, tail);
    assert [] + ReadBack(c.gates) == ReadBack(c.gates);
    var s3 := s2.(circuit := Some(Circuit(n, 0, ReadBack(c.gates))));
    BlankStep(s3);
    EndStep(s3);
    assert tail == [""] + ["END"];
    ReadFromMore("", ["END"], s3);
    assert ReadFrom(["END"], s3) == Parsed(s3);
  }

  /** A circuit without qubits writes a header the reader rejects. */
  lemma EmptyRaises(c: Circuit)
    requires c.numQubits == 0
    ensures ReadQc(WriteQc(c)) == Raised(NoQubitsMessage)
  {
    LinesOfWrite(c);
    var rest := GateTexts(c.gates) + ["", "END"];
    assert HeaderLines(0) + GateTexts(c.gates) + ["", "END"] == HeaderLines(0) + rest;
    ReadHeaderEmpty(rest);
  }

  /** Without MCX gates and measurements the circuit's gates come back
      unchanged. */
  lemma {:induction false} ReadBackIdentity(gs: seq<Gate>)
    requires forall k :: 0 <= k < |gs| ==> Mapped(gs[k]) && !gs[k].MCX?
    ensures ReadBack(gs) == gs
    decreases |gs|
  {
    if gs != [] {
      assert Mapped(gs[0]) && !gs[0].MCX?;
      assert forall k :: 0 <= k < |gs[1..]| ==> gs[1..][k] == gs[k + 1];
      ReadBackIdentity(gs[1..]);
      assert [gs[0]] + gs[1..] == gs;
    }
  }
}
