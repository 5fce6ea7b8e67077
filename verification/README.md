# A verified model of a node-based quantum compiler

This project models, in Dafny, the compiler logic for a distributed quantum
architecture made of nodes. Each node holds one *electron* qubit and several
*carbon* qubits. Qubit `q` lives on node `q div qpn` and is the electron exactly
when `q mod qpn == 0`, where `qpn` is the number of qubits per node. A circuit is
a list of instructions. Each instruction has a gate name, qubit operands,
classical operands, real angles and a notes record (`preserved`, `basis` and
`NVnode<k>` entries) that one pass leaves for the next.

The model covers:

- **Criticality scorers** (`CriticalityV1`, `CriticalityV2`, `CriticalityV3`,
  `Influence`, with the shared accumulation and max-normalisation in `Scores`).
  - The static scorer sums a weight table.
  - The temporal scorer decays weights along the circuit and gives a controlled
    gate's control 1.5× its weight and a measurement 1.2×.
  - The influence-aware scorer multiplies every score by one plus the qubit's
    normalised error-propagation influence. That influence comes from a
    breadth-first search that follows controlled gates from control to target,
    and swap and entangle gates both ways.
- **Transpiler passes**:
  - the carbon-target fix (`CarbonFix`);
  - the electron-importance tracking pass that writes the notes (`Tracking`);
  - the layout cost matrix (`Layout`);
  - the gate-commutation pass, which copies its input (`Commutation`).
- **The priority list scheduler** (`Scheduling`), with its priority function and
  the default-duration rule.
- **The code generator** (`Codegen`), which emits structured backend lines
  instead of text.
- **The remove/re-insert round trip of non-unitary gates** (`OldFunctions`).

The source works imperatively, and the model keeps that form. Every pass and
scorer is a `method` with loops over the instruction list. Each method is proved
equal to a specification function, and the properties are lemmas about those
functions.

Error paths are part of the model. Every exception the source can raise,
except those listed under "## Left out", becomes an `Err` value of a `Result`:

- `max` of an empty collection;
- an operand indexed past its end;
- a missing node-table key;
- an unknown gate name;
- a scheduler with no ready operation;
- a division or modulo by zero.

Angles and scores are exact `real`s.

Three behaviours of the code are worth stating outright:

- **Repeating the carbon-target fix.** Running the fix twice differs from
  running it once when a replaced gate's first operand is an electron. The
  `crx` of the replacement then has an electron as its second operand, so the
  second run replaces it again (`CarbonFix.NotIdempotent`,
  `CarbonFix.ReplacedAgain`). When every replaced gate's first operand is a
  carbon, a second run changes nothing (`CarbonFix.FixIdempotent`).
- **The node-importance table.** The tracking pass starts with entries for
  nodes 0 to 3. An electron-typed instruction on any other node adds that node
  to the table. Only a carbon-typed read of a node that was never written fails
  with a missing key (`Tracking.TableIsLastElectron`,
  `Tracking.UnknownNodeFails`).
- **The exempt name in the tracking pass.** The tracking pass exempts the name
  spelled `initialise`. The library's `initialize` instructions are therefore
  annotated like any other carbon-typed instruction (`Tracking.NotesRule`).

## Model

| member | source | states |
|---|---|---|
| Scores.AccumulateSnoc | criticality_score_v1.py:40-41 | adding one contribution to the score map adds its amount to that qubit's entry, creating the entry at 0 when absent, and changes no other entry |
| Scores.MaxScore | criticality_score_v1.py:43 | the value found is the largest score and is attained by some qubit |
| Scores.Normalize | criticality_score_v1.py:43-45 | dividing a positive non-empty score map by its maximum keeps its keys, puts every value in (0, 1], gives some qubit exactly 1, and keeps the order of any two qubits in both directions |
| Scores.DivideAll | criticality_score_v1.py:44-45 | the in-place division loop yields exactly the normalised map |
| CriticalityV1.Weight | criticality_score_v1.py:13-25 | every table weight, and the default 1 for an unlisted name, is positive |
| CriticalityV1.CriticalityV1 | criticality_score_v1.py:6-47 | the scorer fails with an empty-max error exactly when no instruction names a qubit; otherwise its keys are exactly the qubits some instruction touches |
| CriticalityV1.AddWeight | criticality_score_v1.py:39-41 | the inner loop adds the instruction's weight once per occurrence of each operand to the accumulated map |
| CriticalityV1.CircuitCriticalityV1 | criticality_score_v1.py:27-47 | the scorer's loops and the division compute the specified result, including its failure |
| CriticalityV1.RawIsWeightSum | criticality_score_v1.py:36-41 | a qubit's raw score is the sum over the instructions of the instruction's weight times the number of times the qubit is an operand |
| CriticalityV1.PermutationInvariant | criticality_score_v1.py:36-41 | reordering the instructions (any permutation) leaves the result unchanged |
| CriticalityV1.ScoresNormalized | criticality_score_v1.py:43-45 | for a circuit naming some qubit, the result exists, every score is in (0, 1], some score is 1, and scores order qubits exactly as their weight sums do |
| CriticalityV2.Weight | criticality_score_v2.py:8-21 | every table weight, and the default 1 for an unlisted name, is positive |
| CriticalityV2.TemporalWeight | criticality_score_v2.py:37 | the temporal weight of position idx out of N lies in (0, 1] and is 1 for the first instruction |
| CriticalityV2.TemporalWeightDecreasing | criticality_score_v2.py:37 | a later instruction gets a strictly smaller temporal weight |
| CriticalityV2.RoleSpreadTouched | criticality_score_v2.py:40-55 | one instruction's contributions touch exactly its operands |
| CriticalityV2.RoleShares | criticality_score_v2.py:40-55 | for distinct operands, a controlled gate gives its first operand 1.5× and every later operand 1× the weighted score; a measurement gives every operand 1.2×; any other gate gives every operand 1×; non-operands get nothing |
| CriticalityV2.AddInstruction | criticality_score_v2.py:40-55 | the per-instruction role branches add that instruction's role-scaled contributions to the accumulated map |
| CriticalityV2.AccumulateCircuit | criticality_score_v2.py:31-55 | the accumulation loop fails exactly when some controlled gate has no operand (reading its control), and otherwise yields the specified raw map |
| CriticalityV2.CriticalityV2 | criticality_score_v2.py:1-65 | the scorer fails exactly when a controlled gate has no operand; an empty circuit gives the empty map without dividing; the keys are exactly the touched qubits |
| CriticalityV2.CircuitCriticalityV2 | criticality_score_v2.py:1-65 | the scorer's loops, the emptiness guard and the division compute the specified result |
| CriticalityV2.ScoresNormalized | criticality_score_v2.py:58-61 | for a circuit naming some qubit and no operand-less controlled gate, every score is in (0, 1] and some score is 1 |
| CriticalityV2.TwoHadamards | criticality_score_v2.py:34-55 | two Hadamards on distinct qubits accumulate 1 and 1/2 |
| CriticalityV2.EarlierScoresHigher | criticality_score_v2.py:37-38 | of two Hadamards, the earlier one's qubit ends with the strictly higher score |
| CriticalityV2.OrderMatters | criticality_score_v2.py:34-55 | two circuits that are permutations of each other can get different results, unlike the static scorer |
| Influence.Others | criticality_score_v3.py:131 | the other operands are exactly the operands different from the current qubit |
| Influence.Spreads | criticality_score_v3.py:108-143 | an error on a qubit spreads through one gate only to operands of that gate other than itself |
| Influence.SuccOfMember | criticality_score_v3.py:107-143 | a qubit is one step from the current qubit exactly when some instruction spreads the error to it |
| Influence.ControlledSpreads | criticality_score_v3.py:114-128 | through a controlled gate with distinct operands, an error on a control reaches exactly the targets, and an error on a target reaches nothing |
| Influence.OnlyTarget | criticality_score_v3.py:126-128 | a qubit that appears only among the targets of controlled gates spreads an error to no qubit |
| Influence.SwapSpreads | criticality_score_v3.py:129-134 | a swap of two distinct qubits spreads each one to the other |
| Influence.EntangleSpreads | criticality_score_v3.py:135-140 | an entangle spreads an operand's error to every other operand |
| Influence.SymmetricGate | criticality_score_v3.py:129-140 | two distinct operands of one entangle gate are each one step from the other |
| Influence.EnqueueNew | criticality_score_v3.py:122-125 | enqueueing marks the candidates visited and enqueues, without repeats and at the next depth, exactly those not visited before |
| Influence.Expand | criticality_score_v3.py:108-143 | scanning the instructions of the current qubit enqueues exactly its unvisited successors, each once, at the next depth |
| Influence.Search | criticality_score_v3.py:95-143 | one search from a source sums 1 / (1 + depth) over every qubit reachable by level, and enqueues each reachable qubit exactly once |
| Influence.ReachAtLeastOne | criticality_score_v3.py:98-105 | the source itself contributes 1, so every raw influence is at least 1 |
| Influence.Isolated | criticality_score_v3.py:141-143 | a qubit from which the error spreads nowhere reaches only itself and has raw influence exactly 1 |
| Influence.ReachedClosed | criticality_score_v3.py:95-143 | the set the search reaches contains the source, lies within the circuit's qubits and the source, and is closed under one spreading step |
| Influence.RawInfluence | criticality_score_v3.py:84-86 | there is one raw influence for every circuit qubit, including qubits no instruction touches |
| Influence.InfluenceScores | criticality_score_v3.py:82-152 | the analysis fails exactly for a circuit without qubits; otherwise every circuit qubit has an entry |
| Influence.AnalyzeErrorPropagation | criticality_score_v3.py:82-152 | the per-qubit searches and the division by the maximum compute the specified influences |
| Influence.InfluenceNormalized | criticality_score_v3.py:146-150 | influences lie in (0, 1], some is exactly 1, they order qubits as the raw sums do, and so the factor 1 + influence lies in (1, 2] |
| CriticalityV3.CombineBounds | criticality_score_v3.py:69-70 | with influences in [0, 1], combining keeps every score positive, never lowers it, at most doubles it, and leaves a qubit without influence unchanged |
| CriticalityV3.CombineAll | criticality_score_v3.py:69-70 | the in-place combine loop multiplies every score by one plus its influence |
| CriticalityV3.CriticalityV3 | criticality_score_v3.py:8-77 | the scorer fails with an empty-max error for a circuit without qubits, with a missing-operand error for an operand-less controlled gate, and with an empty-max error when no instruction names a qubit; otherwise its keys are the touched qubits |
| CriticalityV3.CircuitCriticalityV3 | criticality_score_v3.py:8-77 | the analysis, the unit-weight accumulation, the combine and the division compute the specified result |
| CriticalityV3.ScoresNormalized | criticality_score_v3.py:72-75 | for a circuit with qubits, some instruction naming a qubit and no operand-less controlled gate, every score is in (0, 1], some score is 1, and two qubits' scores are ordered as their influence-combined sums are, in both directions |
| CriticalityV3.NormalizeScale | criticality_score_v3.py:72-75 | scaling every score by one positive factor does not change the normalised result |
| CriticalityV3.FlatInfluence | criticality_score_v3.py:141-150 | without entangling gates every circuit qubit's influence is exactly 1 |
| CriticalityV3.NoEntanglingNoInfluence | criticality_score_v3.py:44-75 | without entangling gates the scorer returns the normalised unit-weight temporal scores, as if influence were absent |
| CarbonFix.Decomposition | transpiler_pass.py:62-70 | the replacement has six gates, carries no notes or classical operands, and acts only on the two original operands |
| CarbonFix.CXCarbonFix | transpiler_pass.py:50-82 | the pass's loop with its early return computes the specified rewrite |
| CarbonFix.SingleGate | transpiler_pass.py:58-79 | a multi-qubit gate other than swap, entangle or initialize whose second operand is an electron becomes the six-gate sequence; every other single instruction is kept as it is (in the model; see Left out) |
| CarbonFix.StopKeepsRest | transpiler_pass.py:74-76 | at the first multi-qubit swap, entangle or initialize the pass returns, leaving that instruction and all later ones unchanged |
| CarbonFix.NothingToFix | transpiler_pass.py:71-79 | a circuit with no candidate gate whose second operand is an electron comes out unchanged (in the model; see Left out) |
| CarbonFix.SettledPrefix | transpiler_pass.py:54-80 | a prefix of instructions the pass keeps unchanged is kept in front of the rewrite of the rest |
| CarbonFix.DecompositionSettled | transpiler_pass.py:62-70 | when the first operand is a carbon, every gate of the replacement is left alone by a second run |
| CarbonFix.FixIdempotent | transpiler_pass.py:54-82 | when no replaced gate has an electron as first operand, running the pass twice gives the result of running it once |
| CarbonFix.FixElectronPair | transpiler_pass.py:58-70 | a CX between two electrons is replaced by its six-gate sequence |
| CarbonFix.ReplacedAgain | transpiler_pass.py:66-67 | when the first operand is an electron, a second run changes the replacement |
| CarbonFix.NotIdempotent | transpiler_pass.py:58-70 | a concrete circuit on which running the pass twice differs from running it once |
| CarbonFix.ReplacementRotation | transpiler_pass.py:66-67 | the controlled rotation of a replacement whose first operand is an electron is itself replaced, by the sequence with the operands swapped |
| Tracking.Annotate | transpiler_pass.py:127-136 | an annotated instruction gets `preserved` 1 exactly when its node's flag is set or more than three instructions precede it, gets `NVnode<k>` equal to the flag, and keeps its basis |
| Tracking.TrackingPassPreserve | transpiler_pass.py:95-141 | the pass's loop, with its node table and counter, computes the specified annotated list or its failure |
| Tracking.ErrorSticks | transpiler_pass.py:108-141 | a failure on some instruction is the result of the whole pass |
| Tracking.ShapeKept | transpiler_pass.py:108-140 | the pass outputs the same instructions in the same order with the same name, operands and parameters; only notes change |
| Tracking.TableIsLastElectron | transpiler_pass.py:115-121 | after the pass the table holds the four initial nodes and every node an electron-typed instruction wrote, each with 0 after a last electron measurement, 1 after any other last electron instruction, and 0 if none; carbon-typed instructions never change it |
| Tracking.FlagsAreBits | transpiler_pass.py:115-121 | every flag in the table is 0 or 1 |
| Tracking.NotesRule | transpiler_pass.py:124-138 | each output instruction: electron-typed and exempt ones are unchanged; any other gets `preserved` 1 exactly when its node's flag before it is 1 or its position exceeds 3, and `NVnode<k>` equal to that flag |
| Tracking.UnknownNodeFails | transpiler_pass.py:103-127 | a carbon-typed instruction on a node of index 4 or more that no electron-typed instruction wrote fails the lookup, naming that node |
| Layout.Matrix | transpiler_pass.py:183-192 | the cost matrix has one row per logical qubit and one column per physical qubit |
| Layout.CostMatrix | transpiler_pass.py:183-192 | the nested loops build the matrix whose entry is the logical qubit's criticality (0 when absent) times the physical qubit's gate error |
| Layout.ZeroRow | transpiler_pass.py:186-190 | a logical qubit without a criticality score gets a row of zeros |
| Layout.CostMonotone | transpiler_pass.py:186-190 | with non-negative errors, a more critical qubit costs at least as much in every column; with non-negative criticality, a noisier physical qubit costs at least as much in every row |
| Commutation.GateCommutation | transpiler_pass.py:153-169 | the pass outputs its input unchanged, in order |
| Scheduling.Priority | scheduling_v1.py:9-11 | an operation's priority is the largest criticality among its qubits, 0 for an unscored qubit, and an operation without qubits fails |
| Scheduling.AssignOperationPriorities | scheduling_v1.py:6-12 | the loop fails exactly when some operation has no qubits, and otherwise gives each operation its priority |
| Scheduling.AddReadySuccessors | scheduling_v1.py:58-63 | after emitting an operation, the ready set gains exactly the operations that depend on it and all of whose dependencies are emitted |
| Scheduling.PriorityBasedScheduler | scheduling_v1.py:18-67 | a successful run emits as many operations as the graph has, each ready when emitted and of largest priority among the ready ones; a failure names a set of operations each waiting on another in the set; an acyclic graph never fails |
| Scheduling.StuckWhenNoneReady | scheduling_v1.py:40-47 | when nothing is ready and operations remain, every remaining operation waits on another remaining one |
| Scheduling.RankedNeverStuck | scheduling_v1.py:40-47 | in a graph whose dependencies have strictly smaller rank, no non-empty set of operations can be stuck |
| Scheduling.GreedyIsPermutation | scheduling_v1.py:50-56 | a complete schedule emits every operation exactly once |
| Scheduling.GreedyIsTopological | scheduling_v1.py:58-63 | every operation is emitted after all of its dependencies |
| Scheduling.FirstIsInitiallyReady | scheduling_v1.py:31-53 | the first emitted operation has no dependencies and has the largest priority among those without dependencies |
| Scheduling.AddMissingDurations | scheduling_v1.py:70-93 | the update loop returns the table that the recursive definition gives: the by-name entries, then a default entry for each instruction whose duration is missing |
| Scheduling.DurationsKeepByName | scheduling_v1.py:70-93 | every by-name entry is kept with its duration |
| Scheduling.DurationsDefault | scheduling_v1.py:70-93 | every instruction whose duration is missing gets 200 ns when it acts on several qubits and 50 ns otherwise |
| Scheduling.DurationsOnly | scheduling_v1.py:70-93 | no other entry appears: each is a by-name entry or the default of an instruction whose duration is missing |
| Codegen.AddressRoundTrip | qasm_transpiler.py:33-34 | a qubit is recovered from its node and local index; the local index lies in [-1, qpn - 2] and is -1 exactly for the electron |
| Codegen.XAxis | qasm_transpiler.py:52 | the rotation-axis prefix is 0 for a positive angle, 1.57 for a zero angle and 3.14 for a negative angle, in both directions |
| Codegen.Group | qasm_transpiler.py:30-97 | `while_loop` emits nothing; an unhandled name fails naming it; an instruction fails exactly when it is unhandled, lacks an operand or angle it reads, or qpn is 0 |
| Codegen.Translate | qasm_transpiler.py:5-99 | zero nodes fail with a division error; a success starts with the version and qubit-count header |
| Codegen.QASMtoBackend | qasm_transpiler.py:5-99 | the generator's loop computes the specified line list or its failure |
| Codegen.BodyOk | qasm_transpiler.py:15-97 | the translation of a list succeeds exactly when every instruction's translation succeeds |
| Codegen.BodyAppend | qasm_transpiler.py:15-99 | the lines of a program are the lines of its parts in program order |
| Codegen.GroupSize | qasm_transpiler.py:32-91 | cx, and a measurement, reset or initialisation of a carbon, give two lines; every other handled instruction gives one |
| Codegen.CxLines | qasm_transpiler.py:32-34 | cx emits a z rotation of the control node's electron followed by the controlled gate onto the target's local carbon |
| Codegen.LinesOnFirstNode | qasm_transpiler.py:32-91 | every line of an instruction addresses the node of its first operand |
| Codegen.RotationRole | qasm_transpiler.py:43-61 | rx, ry and rz use electron lines on an electron and carbon lines carrying the local index on a carbon |
| Codegen.NotesCarried | qasm_transpiler.py:47-70 | carbon rx/ry lines carry the `preserved` note, 0 when absent; SwapCE/SwapEC lines carry the `basis` note, empty when absent |
| Codegen.CarbonNeedsSecond | qasm_transpiler.py:72-91 | a one-operand measurement, reset or initialisation of a carbon fails, because it reads a second operand |
| Codegen.UnknownFails | qasm_transpiler.py:96-97 | an unknown name fails the whole translation naming that instruction, when everything before it translates |
| OldFunctions.RemoveNonUnitaryGates | _old/old_functions.py:7-19 | the loop computes the kept list and the removed (index, instruction) records |
| OldFunctions.RemoveLength | _old/old_functions.py:12-16 | the kept and removed lists together are as long as the circuit |
| OldFunctions.KeptMembers | _old/old_functions.py:12-18 | an instruction is kept exactly when it is in the circuit and is not a reset, initialize or measure |
| OldFunctions.RecordsFaithful | _old/old_functions.py:12-14 | every removal record holds an index and the non-unitary instruction found at that index |
| OldFunctions.RecordsIncreasing | _old/old_functions.py:12-14 | the removal records are in strictly increasing index order and within the circuit |
| OldFunctions.RecordsComplete | _old/old_functions.py:12-14 | every non-unitary instruction of the circuit has a removal record |
| OldFunctions.InsertAt | _old/old_functions.py:29 | inserting at an index within the list puts the element there and shifts the rest; past the end it appends |
| OldFunctions.SortByIndex | _old/old_functions.py:25 | sorting by index returns a permutation of the records, ordered by index |
| OldFunctions.SortStable | _old/old_functions.py:25 | records with the same index leave the sort in the order they came in, as Python's stable sort keeps them |
| OldFunctions.SortSorted | _old/old_functions.py:25 | records already in increasing index order come back unchanged |
| OldFunctions.AddNonUnitaryGates | _old/old_functions.py:23-31 | the loop inserts each sorted record at its index |
| OldFunctions.RoundTrip | _old/old_functions.py:7-31 | re-inserting what removal took out restores the original circuit exactly |
| OldFunctions.SameWeightTable | _old/old_functions.py:40-52 | the old scorer's weight table gives every name the same weight as the static scorer's, so the old scorer is the static scorer |

## Left out

- Circuit construction, drawing, file output and debug printing are not modelled: they have no effect on the computed values.
- The library's DAG machinery is not modelled. This covers circuit-to-DAG conversion, node substitution, empty copies and appending operations. Passes are rewrites of an instruction list, and the scheduler's graph is operation ids with dependency sets.
- The in-place update of the circuit's instruction list in the removal and re-insertion helpers is modelled as returned lists.
- Aliasing of a notes dictionary shared between instructions, and the shared mutable default of the `basis` note, are not modelled: notes are values.
- The assignment solver and the `Layout` object that consume the cost matrix are foreign library calls; only the matrix is modelled.
- Layout.CostMatrix: the per-physical-qubit noise record is reduced to its `gate_error` entry, which must be present. A missing `gate_error` key raises `KeyError` in the source and is excluded by the precondition.
- The rebuilding of an `InstructionDurations` object and the ALAP scheduling that uses it (scheduling_v1.py:95-108) are library calls and are not modelled.
- Scheduling.AddMissingDurations: the known durations are a map from (name, operands) to an optional duration. The library's lookup rules (by-name fallback, unit conversion and which exception it raises) become that map: an absent key or `None` counts as missing. The by-name table is copied as is.
- Scheduling.PriorityBasedScheduler: Python's `max` over a set breaks ties by the set's iteration order. The model allows any ready operation of largest priority, so it promises the greedy property and not one particular order.
- Influence.Spreads: a swap whose operands all equal the current qubit raises `IndexError` in the source; the model spreads nothing there. For a swap with more than two operands the model, like the source, spreads only to the first other operand.
- Influence.SuccOf: the source groups the instructions per qubit in topological order; the model scans the instruction list, which is in program order and gives the same successors in the same order.
- `FirstPass` (transpiler_pass.py:16-39) is a demonstration pass outside the compiler's pipeline and is not modelled.
- Codegen.Translate: lines are structured records with `real` fields, not text, so float-to-text formatting is not modelled. The qubits per node, `int(num_qubits / num_nodes)`, is modelled as natural-number division, which agrees on non-negative counts.
- CarbonFix.SingleGate: an instruction the pass does not replace is kept whole in the model (`Ok([op])`), and CarbonFix.NothingToFix and CarbonFix.FixIdempotent rest on that. The source instead re-applies it in a fresh one-register sub-circuit and substitutes that for the node (transpiler_pass.py:71-81). A gate with three or more operands whose second operand is a carbon is re-applied on its first two wires only (line 72). A one-qubit instruction is re-applied on its one wire with no classical bits, so a `measure` loses its classical bit in the sub-circuit (line 79). An instruction with no qubits fails at `register[0]`. What the library's node substitution makes of these malformed sub-circuits is library behaviour and is not modelled.
- CarbonFix.NothingToFix: "unchanged" holds for the model's pass, which keeps unreplaced instructions whole; the source's re-application of a carbon-target `ccx` on two wires and of a one-qubit instruction without its classical bits (see CarbonFix.SingleGate) is not modelled.
- CarbonFix.Decomposition: for a three-operand gate such as `ccx`, the replacement uses only the first two operands, as the source does. The third operand's gate action is dropped, and the model follows that.
- The third scorer's test-circuit helpers and image export (criticality_score_v3.py:154-241) are not modelled.
- `qubit_criticality_v1` in _old/old_functions.py:33-74 is not modelled separately. Its loops are those of the static scorer, and OldFunctions.SameWeightTable proves its table is the same.
- The gate wrapper classes in _old/quantum_circuit_custom.py and the driver scripts are not part of this model.
