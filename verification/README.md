# 3-SAT: classical solver, oracle circuits and the `.qc` exchange format

This project models the core of a small 3-SAT toolkit and proves properties of it. The toolkit has four parts:

- **A classical DPLL solver.** The C++ class `sat_solver::SATSolver` runs unit propagation, pure-literal elimination and branching on the smallest variable. A boolean vector indexed from 1 holds the assignment.
- **A reversible oracle builder.** `cnf_to_mct_json.py` builds the circuit from a CNF formula using multi-controlled Toffoli gates. One qubit is used per variable, one per clause, then the ancillas and a global output qubit. The module also reads and writes DIMACS files and exports a circuit as JSON gate records.
- **A Grover oracle builder.** The Python class `SATOracle` in `quantum_circuit.py` builds a phase oracle and a Grover circuit from 3-literal clauses.
- **The `.qc` text format.** `t_par.py` uses it to pass circuits to the T-par optimiser, through `write_qc_format` and `read_qc_format`.

## How the model is organised

**Modules.**

| module | contents |
|---|---|
| `Text` | string helpers from the source language: `split`, `strip`, line splitting, `str`/`int` |
| `Cnf` | literals, clauses and their truth under an assignment |
| `Gates` | the gate vocabulary and the classical (basis-state) meaning of X and the Toffoli family |
| `DpllSpec` | the solver's helpers as functions |
| `SatSolver` | the C++ class and its loops |
| `Dimacs` | the DIMACS writer and reader |
| `MctOracle` | the builder as functions |
| `MctBuild` | the builder's loops |
| `CircuitJson` | the JSON export |
| `GroverSpec`, `GroverOracle`, `GroverFacts`, `GroverMarks` | `SATOracle` |
| `QcFormat` | the `.qc` writer and reader |

**Methods and their specifications.** Imperative code is modelled by methods proved equal to the specification functions. These include:
- the C++ class and its helpers, which edit the formula and the assignment array in place;
- the Python builder loops;
- the `.qc` writer and reader.

Results are then stated about those functions.

**Errors.**
- An exception the source raises becomes a `Result`/`Parse` error carrying the source's message.
- Behaviour that depends on Qiskit's own checks becomes `Unspecified` (in `QcFormat`) or a named error (in the oracle builders).

**Main results.**
- **Solver.**
  - The solver computes exactly the DPLL function (`SatSolver.SATSolver.Dpll`).
  - That function is neither sound nor complete. `DpllFacts.DpllUnsound` and `DpllFacts.DpllIncomplete` give the formulas, with proofs.
  - The cause is that `simplify` reads unassigned variables as false.
- **DIMACS.** The writer and reader round-trip (`Dimacs.ReadWriteDimacs`).
- **MCT builder.** The circuit flips the global qubit exactly when every clause qubit ends up on. It restores every other qubit (`MctOracle.BuildClassical`). With clause qubits starting off, the mark is the NAND of each clause's literals, not their OR (`MctOracle.BuildMarksNand`).
- **Grover oracle.** On basis states the oracle computes the same NAND marking on its last ancilla before the Z (`GroverMarks.OracleMarks`). The gates around the Z multiply to the identity (`GroverFacts.OracleSkeletonIdentity`).
- **`.qc` format.** Reading back a written circuit gives the circuit again, with measurements dropped and multi-controlled Toffolis renamed (`QcFormat.RoundTrip`).

## Model

| member | source | states |
|---|---|---|
| Cnf.MaxVarBounds | lib/src/sat_solver.cpp:17-22 | the variable count kept by `add_clause` bounds every literal's variable and is attained by one of them (or is 0) |
| Cnf.MaxVarOfClauseBounds | lib/src/sat_solver.cpp:17-22 | the same for the largest variable of one clause |
| Cnf.MaxVarSnoc | lib/src/sat_solver.cpp:13-22 | adding a clause sets the count to the larger of the old count and the clause's largest variable |
| DpllSpec.Kept | lib/src/sat_solver.cpp:249-264 | the clause `simplify` keeps is no longer than the clause and holds only literals of it |
| DpllSpec.KeptMembers | lib/src/sat_solver.cpp:258-260 | a literal survives `simplify` exactly when it is in the clause and not false |
| DpllSpec.KeptAppend | lib/src/sat_solver.cpp:256-261 | the surviving literals keep their order: erasing works piecewise over a concatenation of clauses |
| DpllSpec.KeptSingle | lib/src/sat_solver.cpp:258-260 | a one-literal clause keeps its literal exactly when it is not false |
| DpllSpec.Simplified | lib/src/sat_solver.cpp:245-273 | `simplify` never adds clauses, keeps variables in range and introduces no literal 0 |
| DpllSpec.KeptOnlyZeros | lib/src/sat_solver.cpp:254-263 | under a total assignment every non-zero literal is true or false, so an unsatisfied clause keeps only its 0 literals |
| DpllSpec.SimplifiedEmpties | lib/src/sat_solver.cpp:245-273 | for formulas without literal 0, every clause `simplify` keeps is empty |
| DpllSpec.SimplifiedEmptyIffSatisfied | lib/src/sat_solver.cpp:245-273 | `simplify` leaves no clause exactly when the assignment satisfies the formula |
| DpllSpec.HasTrueIff | lib/src/sat_solver.cpp:254-257 | the clause loop's stopping test is the clause being true |
| DpllSpec.SimplifiedCount | lib/src/sat_solver.cpp:266-271 | the number of clauses kept is the number of clauses not satisfied |
| DpllSpec.SimplifiedNoGrow | lib/src/sat_solver.cpp:245-273 | `simplify` never adds literals |
| DpllSpec.SimplifiedShrinks | lib/src/sat_solver.cpp:245-273 | `simplify` strictly lowers the literal count when a non-zero literal is present, which makes `dpll` terminate |
| DpllSpec.LitCountAppend | lib/src/sat_solver.cpp:245-273 | literal counts add up over concatenated formulas |
| DpllSpec.FirstUnit | lib/src/sat_solver.cpp:163-180 | the scan stops at the first clause of size one, and no earlier clause has size one |
| DpllSpec.Propagated | lib/src/sat_solver.cpp:157-191 | after unit propagation no unit clause remains, the assignment keeps its size and no literal is added |
| DpllSpec.FirstPure | lib/src/sat_solver.cpp:208-224 | the first variable in ascending order that is in one polarity set and not the other, or none |
| DpllSpec.FirstPureIsLeast | lib/src/sat_solver.cpp:208-215 | a pure positive variable is found exactly when the positive set is not inside the negative set, and it is the least such variable |
| DpllSpec.PureEliminated | lib/src/sat_solver.cpp:193-227 | elimination keeps sizes and literal bounds, and reports no change exactly when formula and assignment are untouched |
| DpllSpec.SmallestVar | lib/src/sat_solver.cpp:229-243 | the chosen variable is the least variable occurring in the formula, or -1 when there is none |
| DpllSpec.BranchShrinks | lib/src/sat_solver.cpp:140-154 | each branch's simplified copy has fewer literals than the formula |
| DpllSpec.Dpll | lib/src/sat_solver.cpp:108-155 | `dpll` returns an assignment of the same size as the one it was given |
| DpllFacts.DpllOfEmptyClauses | lib/src/sat_solver.cpp:109-119 | on a formula of only empty clauses, `dpll` answers true exactly when there are none and leaves the assignment alone |
| DpllFacts.DpllTrueAfterPureLiteral | lib/src/sat_solver.cpp:126-132 | after a successful pure-literal step `dpll` answers true at once, whatever the remaining formula holds |
| DpllFacts.DpllNoUnitNoPure | lib/src/sat_solver.cpp:134-154 | with no unit and no pure literal, the answer is whether setting the smallest variable true or false satisfies the whole formula under the current assignment |
| DpllFacts.DpllUnsound | lib/src/sat_solver.cpp:108-155 | `dpll` answers true on the unsatisfiable formula (x1)(¬x1)(x2), each clause written with three copies of its literal |
| DpllFacts.DpllIncomplete | lib/src/sat_solver.cpp:108-155 | `dpll` answers false on the satisfiable formula (x1∨x2)(¬x1∨x2)(¬x2∨x3)(¬x3∨x2) |
| SatSolver.Search | lib/src/sat_solver.cpp:44-60 | `is_satisfiable` searches from an all-false assignment of size one more than the variable count, and answers true for no clauses |
| SatSolver.SATSolver.constructor | lib/src/sat_solver.cpp:9 | a new solver has no clauses, no variables and no cached assignment |
| SatSolver.SATSolver.AddClause | lib/src/sat_solver.cpp:13-27 | appends the clause, raises the variable count to its largest variable and drops the cached assignment |
| SatSolver.SATSolver.Clear | lib/src/sat_solver.cpp:29-34 | empties the formula, the count and the cache |
| SatSolver.SATSolver.GetNumVariables | lib/src/sat_solver.cpp:36-38 | the count is the largest variable of the formula, which bounds every literal |
| SatSolver.SATSolver.GetNumClauses | lib/src/sat_solver.cpp:40-42 | the number of clauses added |
| SatSolver.SATSolver.IsSatisfiable | lib/src/sat_solver.cpp:44-60 | answers `Search`, stores its assignment and caches the answer, except for no clauses, where nothing changes |
| SatSolver.SATSolver.GetSatisfyingAssignment | lib/src/sat_solver.cpp:62-72 | the search's assignment without index 0, or empty when the answer is false; no clauses give `None` (an undefined read in C++); afterwards the solver caches the search's answer and assignment, as `is_satisfiable` leaves them, and an empty formula leaves the cache as it was |
| SatSolver.SATSolver.WriteClause | lib/src/sat_solver.cpp:78-89 | one clause appended as "(" literals joined by " OR " ")" with "NOT x" for negatives |
| SatSolver.SATSolver.ToString | lib/src/sat_solver.cpp:74-97 | the clause texts joined by " AND " |
| SatSolver.SATSolver.Is3Sat | lib/src/sat_solver.cpp:99-106 | true exactly when every clause has three literals |
| SatSolver.SATSolver.SimplifyClause | lib/src/sat_solver.cpp:249-264 | reports whether a literal is true and otherwise returns the kept literals |
| SatSolver.SATSolver.Simplify | lib/src/sat_solver.cpp:245-273 | the in-place erasing loop yields `Simplified` |
| SatSolver.SATSolver.UnitPropagate | lib/src/sat_solver.cpp:157-191 | the restart loop yields `Propagated`'s formula and assignment, and reports a conflict exactly when an empty clause remains |
| SatSolver.SATSolver.PureLiteralEliminate | lib/src/sat_solver.cpp:193-227 | the two set scans yield `PureEliminated` |
| SatSolver.SATSolver.ChooseVariable | lib/src/sat_solver.cpp:229-243 | the smallest variable of the formula, or -1 |
| SatSolver.SATSolver.Dpll | lib/src/sat_solver.cpp:108-155 | the recursive method with the shared assignment array computes `DpllSpec.Dpll` and its final array |
| SatSolver.AreEquivalent | lib/src/sat_solver.cpp:300-325 | true exactly when both formulas get the same satisfiability answer |
| SolverFacts.AreEquivalentIgnoresModels | lib/src/sat_solver.cpp:300-325 | (x1) and (¬x1) are both found satisfiable, so they are reported equivalent, yet no assignment satisfies both |
| SolverFacts.SearchUnsound | lib/src/sat_solver.cpp:44-60 | `is_satisfiable` answers true on an unsatisfiable formula |
| SolverFacts.SearchIncomplete | lib/src/sat_solver.cpp:44-60 | `is_satisfiable` answers false on a satisfiable formula |
| SolverFacts.UnitSearch | lib/src/sat_solver.cpp:157-191 | example: a single unit clause is found satisfiable |
| SolverFacts.FormulaTextMentionsVariable | lib/src/sat_solver.cpp:74-97 | every variable of the formula appears as "x" followed by its number in `to_string` |
| SolverFacts.FormulaTextConnectives | lib/src/sat_solver.cpp:74-97 | " AND " appears once there are two clauses, and " OR " once a clause has two literals |
| SolverFacts.SearchOneClause | test/test_sat_solver.py:39-48 | example: (x1∨x2∨x3) is satisfiable, with x1 true and the others false |
| SolverFacts.SearchContradiction | test/test_sat_solver.py:50-60 | example: (x1)(¬x1), each written three times, is found unsatisfiable |
| SolverFacts.TwoClauseScenario | test/test_sat_solver.py:30-94 | example: two clauses over three variables: two clauses, three variables, 3-SAT, and the text mentions x1, x2, x3, OR and AND |
| SolverFacts.ClearScenario | test/test_sat_solver.py:72-81 | example: after `clear` there are no clauses and no variables |
| SolverFacts.SatisfiableScenario | test/test_sat_solver.py:39-48 | example: the solver answers true and returns a three-variable assignment |
| SolverFacts.UnsatisfiableScenario | test/test_sat_solver.py:50-60 | example: the solver answers false and returns an empty assignment |
| SolverFacts.EmptyAssignmentScenario | lib/src/sat_solver.cpp:62-72 | asking an empty solver for its assignment reaches the undefined read |
| Text.WordsOfJoin | src/cnf_to_mct_json.py:28 | splitting a space-joined list of non-empty, space-free tokens gives the tokens back |
| Text.IntToStringRoundTrip | src/cnf_to_mct_json.py:41 | `int(str(i))` is `i` |
| Text.ParseInts | src/cnf_to_mct_json.py:41 | a token list parses when every token does, and each value is its token's value |
| Text.ParseIntTexts | src/cnf_to_mct_json.py:41 | parsing the printed literals gives them back |
| Dimacs.DropZeros | src/cnf_to_mct_json.py:41 | the kept tokens come from the line and none is "0" |
| Dimacs.NonEmpty | src/cnf_to_mct_json.py:42-43 | the clauses kept are clauses of the input, and none is empty |
| Dimacs.ReadClauseLine | src/cnf_to_mct_json.py:28 | a written clause line is not a comment, blank or header line, and reads back as the clause |
| Dimacs.ReadHeaderLine | src/cnf_to_mct_json.py:26 | the written header line is read as a header, and its third token parses to the variable count |
| Dimacs.ReadClauseLines | src/cnf_to_mct_json.py:35-43 | reading the clause lines appends every non-empty clause in order |
| Dimacs.ReadWriteDimacs | src/cnf_to_mct_json.py:24-44 | reading a written file gives the variable count and the non-empty clauses, for clauses without literal 0 |
| MctOracle.Range | src/cnf_to_mct_json.py:52-54 | the consecutive qubit indices from a start |
| MctOracle.LayoutPartition | src/cnf_to_mct_json.py:47-55 | variable, clause and ancilla qubits and the global qubit are 0 to `num_qubits`-1 in that order, and the ancilla count covers the widest clause minus two |
| MctOracle.MaxExcessBound | src/cnf_to_mct_json.py:48 | the largest clause width minus two bounds every clause's width minus two |
| MctOracle.ControlOf | src/cnf_to_mct_json.py:65-66 | a literal names qubit \|lit\|-1, and literal 0 wraps to the last variable as Python's index -1 does; it fails exactly when out of range |
| MctOracle.ClauseControls | src/cnf_to_mct_json.py:62-67 | one control and one flip per literal, the flip set for non-positive literals |
| MctOracle.ClauseControlsOkIff | src/cnf_to_mct_json.py:62-67 | collecting controls succeeds exactly when every literal resolves to a variable qubit |
| MctOracle.Flipped | src/cnf_to_mct_json.py:69-71 | the X-bracketed qubits are controls |
| MctOracle.FlippedFacts | src/cnf_to_mct_json.py:69-71 | the bracketed qubits are distinct, and a control is bracketed exactly when its flip is set |
| MctOracle.EntryOf | src/cnf_to_mct_json.py:61-84 | a recorded history entry has one flip per control and the clause's qubit as target |
| MctOracle.EntryOfOkIff | src/cnf_to_mct_json.py:61-84 | one clause's gates are emitted exactly when it is non-empty, resolves and names distinct variables |
| MctOracle.Entries | src/cnf_to_mct_json.py:60-84 | one history entry per clause |
| MctOracle.EntriesWellFormed | src/cnf_to_mct_json.py:60-84 | entry i targets clause qubit nvars+i with distinct variable-qubit controls |
| MctOracle.EntriesOkIff | src/cnf_to_mct_json.py:60-84 | the clause loop succeeds exactly when every clause does |
| MctOracle.BuildOkIff | src/cnf_to_mct_json.py:46-125 | the builder succeeds exactly when every clause is non-empty, resolves and names distinct variables |
| MctOracle.ClauseBlock | src/cnf_to_mct_json.py:61-84 | a clause's controls are its variables' qubits, bracketed by X exactly for non-positive literals |
| MctOracle.ApplyTargetGate | src/cnf_to_mct_json.py:72-81 | CX, CCX or MCX flips the target exactly when all controls are on |
| MctOracle.BlockEffect | src/cnf_to_mct_json.py:68-84 | a clause block flips its target exactly when every literal holds, and restores the controls |
| MctOracle.BlocksEffect | src/cnf_to_mct_json.py:60-84 | the clause loop toggles each qubit by the parity of the blocks firing on it |
| MctOracle.ReplayEffect | src/cnf_to_mct_json.py:94-123 | the reversed replay toggles each qubit as the clause loop did |
| MctOracle.FiresIffLiteralsTrue | src/cnf_to_mct_json.py:61-84 | a block's controls fire exactly when every literal of its clause is true |
| MctOracle.MiddleClauseQubit | src/cnf_to_mct_json.py:57-84 | after the X layer and the clause loop, clause qubit i holds its start value, negated and then XORed with "all literals of clause i true" |
| MctOracle.MiddleOtherQubit | src/cnf_to_mct_json.py:57-84 | the X layer and the clause loop leave every non-clause qubit alone |
| MctOracle.GlobalEffect | src/cnf_to_mct_json.py:86-92 | the global gate flips the global qubit exactly when all clause qubits are on, and is absent for no clauses |
| MctOracle.AfterGlobal | src/cnf_to_mct_json.py:86-92 | the same, stated after the clause loop |
| MctOracle.Uncompute | src/cnf_to_mct_json.py:94-123 | the reversed replay returns every qubit except the global one to its value after the X layer |
| MctOracle.BuildGates | src/cnf_to_mct_json.py:46-125 | the circuit is the X layer, the clause blocks, the global gate and the reversed blocks |
| MctOracle.BuildInRange | src/cnf_to_mct_json.py:46-125 | every emitted gate is classical and on a qubit of the circuit |
| MctOracle.BuildClassical | src/cnf_to_mct_json.py:46-125 | on a basis state the circuit flips the global qubit by "all clause qubits on after the clause loop", negates the clause qubits and leaves the rest |
| MctOracle.MiddleNand | src/cnf_to_mct_json.py:57-84 | with clause qubits off, all clause qubits end up on exactly when no clause has all its literals true |
| MctOracle.BuildMarksNand | src/cnf_to_mct_json.py:46-125 | with clause qubits off, the global qubit is flipped exactly when there are clauses and no clause has all its literals true |
| MctOracle.OneClauseMarks | src/cnf_to_mct_json.py:46-125 | for one clause the global qubit is flipped by the NAND of its literals |
| MctOracle.MarksNandNotOr | src/cnf_to_mct_json.py:57-92 | example: for (x1∨x2) the all-false state is marked and the state with both variables true is not |
| MctBuild.EmitFlips | src/cnf_to_mct_json.py:69-71 | appends an X for each control whose flip is set |
| MctBuild.EmitTarget | src/cnf_to_mct_json.py:72-81 | appends CX, CCX or MCX by control count; no controls or repeated qubits are errors |
| MctBuild.EmitClauseX | src/cnf_to_mct_json.py:57-58 | the X layer over the clause qubits |
| MctBuild.CollectControls | src/cnf_to_mct_json.py:62-67 | the loop computes `ClauseControls` |
| MctBuild.EmitClause | src/cnf_to_mct_json.py:61-84 | appends the clause block and returns its history entry, or the clause's error |
| MctBuild.EmitClauses | src/cnf_to_mct_json.py:60-84 | appends every block and returns the whole history, or the first clause's error |
| MctBuild.EmitGlobal | src/cnf_to_mct_json.py:86-92 | appends the global gate by clause count |
| MctBuild.EmitReplay | src/cnf_to_mct_json.py:94-123 | appends the blocks in reverse history order |
| MctBuild.Build | src/cnf_to_mct_json.py:46-125 | the builder computes `BuildSpec` |
| CircuitJson.QubitLabelInjective | src/cnf_to_mct_json.py:137-138 | distinct positions get distinct "Q" labels |
| CircuitJson.QubitMapDistinct | src/cnf_to_mct_json.py:135-138 | each qubit of a duplicate-free list maps to its position, and only listed qubits are mapped |
| CircuitJson.LookupFacts | src/cnf_to_mct_json.py:143-144 | looking up qubits succeeds exactly when all are mapped, giving their labels in order |
| CircuitJson.RecordShape | src/cnf_to_mct_json.py:141-151 | the last qubit is the only target, the others are the controls (absent when there are none), and the name is upper-cased with MCX renamed CCX for two controls |
| CircuitJson.ClassicalNames | src/cnf_to_mct_json.py:142-146 | X, CX and CCX keep their names, and MCX becomes CCX exactly for two controls |
| CircuitJson.GatesToJsonOk | src/cnf_to_mct_json.py:140-152 | when every qubit is mapped, the export succeeds with one record per gate |
| CircuitJson.LayoutLabels | src/cnf_to_mct_json.py:134-138 | with the builder's layout, qubit q is labelled "Qq" for every q in the circuit |
| CircuitJson.LayoutJson | src/cnf_to_mct_json.py:134-152 | every in-range gate is exported with its own qubit numbers as labels |
| CircuitJson.BuildToJson | src/cnf_to_mct_json.py:134-152 | the builder's circuit always exports successfully |
| GroverSpec.UniqueVars | src/quantum_circuit.py:80-93 | the polarity map records every key kept, unless a variable occurs with both signs |
| GroverSpec.QubitOf | src/quantum_circuit.py:98 | register indexing accepts -n to n-1 as Python does, and fails otherwise |
| GroverSpec.Resolve | src/quantum_circuit.py:96-101 | the key list resolves exactly when every key does, position by position |
| GroverSpec.ClausePlan | src/quantum_circuit.py:73-114 | a clause's plan targets its ancilla |
| GroverSpec.Plans | src/quantum_circuit.py:55-56 | one plan per clause |
| GroverSpec.OracleParts | src/quantum_circuit.py:37-71 | the oracle is the H layer, the clause computations, MCX-Z-MCX on the last ancilla and the uncomputations in reverse |
| GroverSpec.PlansWellFormed | src/quantum_circuit.py:55-56 | every plan is well formed |
| GroverSpec.Measures | src/quantum_circuit.py:198 | variable qubit i is measured into bit i |
| GroverSpec.HLayer | src/quantum_circuit.py:52 | one H per listed qubit |
| GroverOracle.SATOracle.constructor | src/quantum_circuit.py:15-24 | a new oracle has its variable count, no clauses and no circuit |
| GroverOracle.SATOracle.AddClause | src/quantum_circuit.py:26-35 | a clause of three literals is appended and any other is refused with "Only 3-SAT clauses are supported" |
| GroverOracle.SATOracle.BuildOracleCircuit | src/quantum_circuit.py:37-71 | the loops build `OracleCircuit` and store it |
| GroverOracle.SATOracle.CreateGroverCircuit | src/quantum_circuit.py:153-200 | the loops build `GroverCircuit` and store the oracle they built |
| GroverOracle.GroverRoundFails | src/quantum_circuit.py:189-193 | with iterations and fewer than two variables the diffusion step fails (no register element, or MCX with no controls) |
| GroverOracle.GroverDone | src/quantum_circuit.py:178-200 | proof step for `CreateGroverCircuit`: the gates built so far, followed by the measurements, are exactly `GroverCircuit` (whose layout `GroverMarks.GroverLayout` states) |
| GroverOracle.CreateSimple3satExample | src/quantum_circuit.py:203-217 | three variables and the three example clauses |
| GroverOracle.ExampleOracle | src/quantum_circuit.py:203-217 | example: the example's oracle succeeds, with seven qubits and three bits |
| GroverFacts.UniqueVarsTautology | src/quantum_circuit.py:80-93 | the early return happens exactly when a variable occurs with both signs |
| GroverFacts.UniqueVarsKeys | src/quantum_circuit.py:80-93 | otherwise the keys are the clause's variables in first-occurrence order with their polarities |
| GroverFacts.NegativeQubitsFlipped | src/quantum_circuit.py:95-98 | the X-flipped qubits are those of negative keys |
| GroverFacts.ComputeEffect | src/quantum_circuit.py:95-114 | a clause's compute block sets its ancilla to "not all controls fire" and restores the variables |
| GroverFacts.UncomputeEffect | src/quantum_circuit.py:134-151 | the uncompute block has the same effect |
| GroverFacts.ApplyUnapply | src/quantum_circuit.py:73-151 | a clause's apply followed by its unapply is the identity |
| GroverFacts.ComputeUncompute | src/quantum_circuit.py:55-68 | all computations followed by all uncomputations in reverse is the identity |
| GroverFacts.PhaseGateTwice | src/quantum_circuit.py:59-65 | the two MCX gates around Z cancel |
| GroverFacts.OracleSkeletonIdentity | src/quantum_circuit.py:37-71 | with the H layer and the Z removed, the oracle's gates multiply to the identity on basis states |
| GroverMarks.KeysResolveIff | src/quantum_circuit.py:96-101 | the kept keys resolve exactly when every literal's variable does |
| GroverMarks.ClashNotAllTrue | src/quantum_circuit.py:87-91 | a clause with both signs of one variable never has all its literals true |
| GroverMarks.PlanFiresIffTrue | src/quantum_circuit.py:95-106 | a gated clause's MCX fires exactly when all its literals are true |
| GroverMarks.ClauseEffect | src/quantum_circuit.py:73-114 | applying a clause flips its ancilla by "empty clause, or not all literals true" |
| GroverMarks.ComputeAllEffect | src/quantum_circuit.py:55-56 | the clause loop sets each ancilla as its own clause alone would |
| GroverMarks.PhaseFromMarks | src/quantum_circuit.py:55-59 | after the loop and the first MCX, the last ancilla is on exactly when every clause is empty or has a false literal |
| GroverMarks.OracleMarks | src/quantum_circuit.py:37-71 | the oracle up to the Z marks the last ancilla by the NAND of each clause's literals and keeps the variable qubits |
| GroverMarks.NandNotOr | src/quantum_circuit.py:78 | example: for x1∨x2∨x3, OR and NAND differ on the all-false and all-true assignments |
| GroverMarks.ClausePlanOkIff | src/quantum_circuit.py:73-114 | a clause's plan succeeds only for tautologies or clauses whose variables resolve, and exactly then when no literal is 0 |
| GroverMarks.ZeroLiteralDuplicates | src/quantum_circuit.py:83-105 | literal 0 names qubit -1, which can repeat another control, so the MCX fails |
| GroverMarks.PlansOkIff | src/quantum_circuit.py:55-56 | the clause loop succeeds exactly when every clause does |
| GroverMarks.OracleOkIff | src/quantum_circuit.py:37-71 | the oracle builds exactly when there are clauses and each succeeds; it has n+m+1 qubits and n bits; no clauses is an MCX without controls |
| GroverMarks.GroverOkIff | src/quantum_circuit.py:153-200 | the Grover circuit builds exactly when there are clauses, the oracle builds, and either no rounds are asked or there are two variables or more |
| GroverMarks.GroverLayout | src/quantum_circuit.py:178-200 | each round is the oracle followed by the diffusion, between the H layer and the measurements |
| QcFormat.LabelFromMap | external/t-par/t_par.py:19-32 | exactly the non-measurement gates have a label, and it is the map's entry |
| QcFormat.LabelReadable | external/t-par/t_par.py:53-62 | every written label is one the reader knows, "tof" exactly for the Toffoli family, and no label can be read as a directive |
| QcFormat.ListIndices | external/t-par/t_par.py:55-62 | an integer qubit argument names qubit `q`, or `q + n` when negative, as Qiskit's list indexing reads it; non-negative arguments name themselves |
| QcFormat.GateOn | external/t-par/t_par.py:53-62 | the label map applies a gate exactly for a known label with its arity ("tof" on two or three qubits, others on one), on exactly the given qubits |
| QcFormat.GateOf | external/t-par/t_par.py:53-62 | a label and qubit list give a gate exactly when the label is known, every index lies in -n..n-1, the indices name distinct qubits, and the arity fits; the gate is on the qubits the indices name |
| QcFormat.NegativeIndices | external/t-par/t_par.py:55-62 | a line with negative indices appends the same gate as the line with the indices they count back to |
| QcFormat.WriteQcFormat | external/t-par/t_par.py:17-48 | the writing loop produces `WriteQc`: the header, one line per mapped gate, then "\nEND" |
| QcFormat.LinesOfWrite | external/t-par/t_par.py:34-48 | the written text's lines are the three declarations, a blank line, "BEGIN", a blank line, the gate lines, a blank line and "END" |
| QcFormat.ReadFromAt | external/t-par/t_par.py:72-98 | reading continues, stops, raises or is unspecified as the current line decides |
| QcFormat.DotLine | external/t-par/t_par.py:74-79 | blank and dot lines are skipped, and ".v"/".i" set the qubit count to their token count |
| QcFormat.BeginLine | external/t-par/t_par.py:80-85 | "BEGIN" raises "No qubit declaration…" for no qubits, and otherwise opens an empty circuit |
| QcFormat.EndLineStep | external/t-par/t_par.py:86-87 | "END" stops reading |
| QcFormat.OtherLine | external/t-par/t_par.py:88-97 | other lines are ignored before "BEGIN" and read as gates after it |
| QcFormat.GateLineCases | external/t-par/t_par.py:89-97 | a gate line raises on a bad integer and then on an unknown label, is unspecified when Qiskit would reject the gate, and otherwise appends it |
| QcFormat.ReadGateLine | external/t-par/t_par.py:89-97 | the loop body for a line after BEGIN computes `GateStep`: a bad integer raises, then an unknown label, then a gate Qiskit rejects is unspecified, and otherwise the gate is appended |
| QcFormat.ReadQcFormat | external/t-par/t_par.py:50-101 | the reading loop computes `ReadQc` |
| QcFormat.StepKeepsGood | external/t-par/t_par.py:72-97 | each line keeps the read circuit's qubits positive and its gates in range and duplicate-free |
| QcFormat.ReadQcGood | external/t-par/t_par.py:66-101 | every circuit read has qubits, and gates in range on distinct qubits |
| QcFormat.NoBeginRaises | external/t-par/t_par.py:99-100 | a text without a "BEGIN" line raises "No circuit found…" |
| QcFormat.ReadStopsAtEnd | external/t-par/t_par.py:86-87 | nothing after an "END" line affects the result |
| QcFormat.GateRoundTrip | external/t-par/t_par.py:42-45 | a written gate's label and qubits read back as the same gate, with MCX renamed CX or CCX |
| QcFormat.ReadGateLines | external/t-par/t_par.py:88-97 | reading the written gate lines appends the read-back gates in order |
| QcFormat.ReadHeader | external/t-par/t_par.py:72-85 | the written header declares n qubits and opens an empty circuit of n qubits |
| QcFormat.ReadHeaderEmpty | external/t-par/t_par.py:80-83 | for no qubits the written header makes the reader raise |
| QcFormat.RoundTrip | external/t-par/t_par.py:17-101 | reading a written circuit gives its qubit count and its gates back, measurements dropped and MCX renamed, for circuits the reader accepts |
| QcFormat.EmptyRaises | external/t-par/t_par.py:80-83 | a written circuit with no qubits cannot be read back |
| QcFormat.ReadBackIdentity | external/t-par/t_par.py:53-62 | without measurements and MCX gates the read-back gates are the written ones |

## Left out

- Qiskit itself is not modelled: gate objects, registers, `transpile`, `compose`, drawing and quantum amplitudes. Circuits are gate lists. Gates are given their meaning on basis states for X and the Toffoli family only, which is what the oracle properties need. H, Z and the phase gates are carried as data.
- `build_clifford_t_decomposition_circuit`, `opt_circ`, `run_tpar` and the T-par executable are not modelled: they are external programs and subprocess calls.
- `main`, the argument parser, file opening and printing are left out. The file-based functions are modelled on the file's text. `readlines` and `split`/`strip` are modelled on ASCII whitespace.
- `generate_random_cnf` and `utils::generate_random_3sat` are left out, because they draw random numbers. The Python bindings (`python_bindings.cpp`, `__repr__`) are left out, as are the `test_equivalence.py` and `test_schema.py` tests, which need Qiskit's simulator.
- SatSolver.SATSolver.Dpll: requires formulas without literal 0. A unit clause [0] makes `unit_propagate` loop forever, because `simplify` never removes literal 0. `UnitPropagate`, `PureLiteralEliminate`, `IsSatisfiable`, `GetSatisfyingAssignment`, `AreEquivalent` and the reference search `SatSolver.Search` carry the same requirement.
- SatSolver.SATSolver.GetSatisfyingAssignment: for an empty formula the C++ code reads `begin() + 1` of an empty vector, which is undefined behaviour. The model returns `None` instead of guessing a value.
- The C++ `int` is modelled as an unbounded integer. Overflow of `std::abs(INT_MIN)` and of the variable count is not modelled.
- `pure_literal_eliminate` iterates over `std::set<int>` in ascending order. This is modelled as a scan over 1 to the assignment size minus one. The two give the same pure variable, because every variable fits the assignment.
- `create_grover_circuit` with `iterations=None` computes ⌊π/4·√(2ⁿ)⌋ in floating point. The model takes the iteration count as a parameter.
- The diffusion operator's H gates and the measurements are carried as gates. Only their placement is proved, not their quantum effect.
- Text.ParseInt: models `int()` on an optional sign and ASCII decimal digits only. Tokens with `_` between digits or with non-ASCII decimal digits, which Python accepts, are rejected, so `Dimacs.ReadDimacs` and `QcFormat.ReadQcFormat` report an error where the source would read a number.
- MctOracle.BuildSpec: the variable count is a `nat`. A negative count from a `p cnf -1 …` header (which `Dimacs.ReadDimacs` returns as read) is not passed on, so `build`'s `IndexError` and its circuit with global qubit -1 for an empty clause list are not modelled. `MctBuild.Build` has the same parameter.
- GroverOracle.SATOracle.constructor: the variable count is a `nat`. `SATOracle(-1)` followed by the failing `QuantumRegister(-1)` in `build_oracle_circuit` is not modelled. `GroverSpec.OracleCircuit` has the same parameter.
- GroverSpec.QubitOf: models Python's negative register indices (literal 0 names the last qubit). A repeated qubit in an MCX becomes the `DuplicateQubits` error, which stands for Qiskit's `CircuitError`. An out-of-range index becomes `IndexOutOfRange`.
- MctOracle.ControlOf: a literal whose variable is past `nvars` is an `IndexError` in Python and an error in the model. Literal 0 wraps to the last variable qubit, as `var_qubits[-1]` does.
- QcFormat.GateOf: some `.qc` lines are ones Qiskit itself rejects: an index outside -n..n-1, two indices naming one qubit, the wrong number of qubits for a label, or "tof" with more than three qubits (the reader's `mcx(*qs)` passes the extra qubits as ancilla and mode arguments). The reader's result on these lines is `Unspecified`. A negative index within -n..-1 counts back from the end of the register, as Qiskit's indexing does.
- QcFormat.RoundTrip: holds for circuits whose gates the reader accepts back. These are gates in range on distinct qubits, and MCX gates with one or two controls. Measurements are dropped, because the writer skips them. The classical bit count becomes 0, because the reader builds `QuantumCircuit(num_qubits)`.
- QcFormat.ReadQcFormat: `qubits_declared` is kept as in the source. It is always equal to "a circuit exists", which is proved as the loop invariant.
