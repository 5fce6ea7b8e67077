/** The tracking pass. Walking the instructions in order, it keeps one
    importance flag per node: an electron-typed instruction sets its node's
    flag (0 after a measurement, 1 after anything else); a carbon-typed
    instruction other than a measurement or an "initialise" gets a `preserved`
    note, 1 when its node's flag is set or when more than three instructions
    precede it, and an `NVnode<k>` note holding the flag. Instructions keep
    their name, operands and parameters. */
module Tracking {
  import opened Circuits

  /** Node importance, indexed by node number. */
  type Importance = map<nat, int>

  /** The table starts with four nodes, all unimportant. */
  const Initial: Importance := map[0 := 0, 1 := 0, 2 := 0, 3 := 0]

  /** A single-qubit instruction on an electron qubit. */
  predicate ElectronTyped(op: Instr, qpn: nat)
    requires qpn > 0 && |op.qubits| > 0
  {
    IsElectron(op.qubits[0], qpn) && |op.qubits| <= 1
  }

  /** Carbon-typed names that get no notes. */
  predicate Exempt(name: string)
  {
    name == "measure" || name == "initialise"
  }

  /** The notes of a carbon-typed instruction at position `i` of a node whose flag is `flag`. */
  function Annotate(notes: Notes, k: nat, flag: int, i: nat): (r: Notes)
    ensures r.basis == notes.basis
    ensures r.preserved == Some(if flag != 0 || i > 3 then 1 else 0)
    ensures r.nvNode == notes.nvNode[k := if flag == 0 then 0 else 1]
  {
    if flag == 0 then
      notes.(preserved := Some(if i > 3 then 1 else 0), nvNode := notes.nvNode[k := 0])
    else
      notes.(preserved := Some(1), nvNode := notes.nvNode[k := 1])
  }

  /** One iteration on the instruction at position `i`: the new table and the annotated
      instruction, or the failure of reading operand 0, of the modulo, or of the node lookup. */
  function Step(imp: Importance, op: Instr, i: nat, qpn: nat): Result<(Importance, Instr)>
  {
    if |op.qubits| == 0 then Err(MissingOperand)
    else if qpn == 0 then Err(ZeroDivision)
    else
      var k := NodeOf(op.qubits[0], qpn);
      if ElectronTyped(op, qpn) then
        Ok((imp[k := if op.name == "measure" then 0 else 1], op))
      else if Exempt(op.name) then Ok((imp, op))
      else if k !in imp then Err(UnknownNode(k))
      else Ok((imp, op.(notes := Annotate(op.notes, k, imp[k], i))))
  }

  /** The table and the output after the whole list. */
  function Run(ops: seq<Instr>, qpn: nat): Result<(Importance, seq<Instr>)>
  {
    if ops == [] then Ok((Initial, []))
    else Extend(Run(ops[..|ops| - 1], qpn), ops[|ops| - 1], |ops| - 1, qpn)
  }

  /** One more iteration after `prev`. */
  function Extend(prev: Result<(Importance, seq<Instr>)>, op: Instr, i: nat, qpn: nat): Result<(Importance, seq<Instr>)>
  {
    match prev
    case Err(e) => Err(e)
    case Ok(state) =>
      match Step(state.0, op, i, qpn)
      case Err(e) => Err(e)
      case Ok(next) => Ok((next.0, state.1 + [next.1]))
  }

  /** The annotated instructions. */
  function Tracked(ops: seq<Instr>, qpn: nat): Result<seq<Instr>>
  {
    match Run(ops, qpn)
    case Ok(state) => Ok(state.1)
    case Err(e) => Err(e)
  }

  lemma RunStep(ops: seq<Instr>, i: nat, qpn: nat)
    requires i < |ops|
    ensures Run(ops[..i + 1], qpn) == Extend(Run(ops[..i], qpn), ops[i], i, qpn)
  {
    assert ops[..i + 1][..i] == ops[..i];
  }

  /** The pass's loop, with the node table and the instruction counter as local state. */
  method TrackingPassPreserve(ops: seq<Instr>, qpn: nat) returns (r: Result<seq<Instr>>)
    ensures r == Tracked(ops, qpn)
  {
    var importance: Importance := Initial;
    var counter := 0;
    var out: seq<Instr> := [];
    while counter < |ops|
      invariant counter <= |ops|
      invariant Run(ops[..counter], qpn) == Ok((importance, out))
    {
      var op := ops[counter];
      ghost var prev := importance;
      RunStep(ops, counter, qpn);
      if |op.qubits| == 0 {
        ErrorSticks(ops, qpn, counter + 1);
        return Err(MissingOperand);
      }
      if qpn == 0 {
        ErrorSticks(ops, qpn, counter + 1);
        return Err(ZeroDivision);
      }
      var k := op.qubits[0] / qpn;
      if op.qubits[0] % qpn == 0 && |op.qubits| <= 1 {
        if op.name == "measure" {
          importance := importance[k := 0];
        } else {
          importance := importance[k := 1];
        }
      } else if !(op.name == "measure" || op.name == "initialise") {
        if k !in importance {
          ErrorSticks(ops, qpn, counter + 1);
          return Err(UnknownNode(k));
        }
        var notes := op.notes;
        if importance[k] == 0 {
          if counter > 3 {
            notes := notes.(preserved := Some(1));
          } else {
            notes := notes.(preserved := Some(0));
          }
          notes := notes.(nvNode := notes.nvNode[k := 0]);
        } else {
          notes := notes.(preserved := Some(1));
          notes := notes.(nvNode := notes.nvNode[k := 1]);
        }
        assert notes == Annotate(op.notes, k, prev[k], counter);
        op := op.(notes := notes);
      }
      assert Step(prev, ops[counter], counter, qpn) == Ok((importance, op));
      ExtendOk((prev, out), ops[counter], counter, qpn, (importance, op));
      out := out + [op];
      counter := counter + 1;
    }
    assert ops[..counter] == ops;
    return Ok(out);
  }

  lemma ExtendOk(state: (Importance, seq<Instr>), op: Instr, i: nat, qpn: nat, next: (Importance, Instr))
    requires Step(state.0, op, i, qpn) == Ok(next)
    ensures Extend(Ok(state), op, i, qpn) == Ok((next.0, state.1 + [next.1]))
  {
  }

  /** A failure ends the pass: the output of the whole list is that failure. */
  lemma {:induction false} ErrorSticks(ops: seq<Instr>, qpn: nat, j: nat)
    requires j <= |ops| && Run(ops[..j], qpn).Err?
    ensures Run(ops, qpn) == Run(ops[..j], qpn)
    decreases |ops| - j
  {
    if j < |ops| {
      RunStep(ops, j, qpn);
      ErrorSticks(ops, qpn, j + 1);
    } else {
      assert ops[..j] == ops;
    }
  }

  /** The pass keeps every instruction, in order, with its name, operands and
      parameters; only the notes may change. */
  lemma {:induction false} ShapeKept(ops: seq<Instr>, qpn: nat)
    requires Run(ops, qpn).Ok?
    ensures var out := Run(ops, qpn).value.1;
      |out| == |ops| &&
      forall i :: 0 <= i < |ops| ==> out[i] == ops[i].(notes := out[i].notes)
    decreases |ops|
  {
    if ops != [] {
      var n := |ops| - 1;
      ShapeKept(ops[..n], qpn);
    }
  }

  /** The flag of node `k` that the electron-typed instructions of `ops` leave:
      0 after a measurement, 1 after any other instruction, None if there is none. */
  function FlagOf(last: Option<int>): int
  {
    match last
    case Some(f) => f
    case None => 0
  }

  function LastElectron(ops: seq<Instr>, qpn: nat, k: nat): Option<int>
    requires qpn > 0
  {
    if ops == [] then None
    else
      var op := ops[|ops| - 1];
      if |op.qubits| > 0 && ElectronTyped(op, qpn) && NodeOf(op.qubits[0], qpn) == k then
        Some(if op.name == "measure" then 0 else 1)
      else LastElectron(ops[..|ops| - 1], qpn, k)
  }

  /** The node table after a successful run: the four initial nodes and every
      node an electron-typed instruction wrote, each holding the flag of its last
      electron-typed instruction, 0 if there was none. Carbon-typed
      instructions never change the table. */
  lemma {:induction false} TableIsLastElectron(ops: seq<Instr>, qpn: nat)
    requires qpn > 0 && Run(ops, qpn).Ok?
    ensures var imp := Run(ops, qpn).value.0;
      forall k :: k in imp <==> k < 4 || LastElectron(ops, qpn, k).Some?
    ensures var imp := Run(ops, qpn).value.0;
      forall k :: k in imp ==> imp[k] == FlagOf(LastElectron(ops, qpn, k))
    decreases |ops|
  {
    if ops != [] {
      var n := |ops| - 1;
      TableIsLastElectron(ops[..n], qpn);
    }
  }

  /** The notes of every instruction in a successful run: an electron-typed or
      exempt instruction keeps its notes; any other one at position `i` in node
      `k` gets `preserved` = 1 exactly when node k's flag before it is 1 or
      i > 3, and `NVnode<k>` = that flag. */
  lemma NotesRule(ops: seq<Instr>, qpn: nat, i: nat)
    requires qpn > 0 && Run(ops, qpn).Ok? && i < |ops|
    ensures |ops[i].qubits| > 0
    ensures var out := Run(ops, qpn).value.1;
      var op := ops[i];
      var flag := FlagOf(LastElectron(ops[..i], qpn, NodeOf(op.qubits[0], qpn)));
      |out| == |ops| &&
      (ElectronTyped(op, qpn) || Exempt(op.name) ==> out[i] == op) &&
      (!ElectronTyped(op, qpn) && !Exempt(op.name) ==>
         out[i].notes.preserved == Some(if flag == 1 || i > 3 then 1 else 0) &&
         out[i].notes.nvNode == op.notes.nvNode[NodeOf(op.qubits[0], qpn) := flag] &&
         out[i].notes.basis == op.notes.basis)
  {
    PrefixRun(ops, qpn, i + 1);
    RunStep(ops, i, qpn);
    var before := Run(ops[..i], qpn).value.0;
    TableIsLastElectron(ops[..i], qpn);
    ShapeKept(ops, qpn);
    var k := NodeOf(ops[i].qubits[0], qpn);
    if k in before {
      assert before[k] == 0 || before[k] == 1 by {
        FlagsAreBits(ops[..i], qpn);
      }
    }
  }

  /** Every flag is 0 or 1. */
  lemma {:induction false} FlagsAreBits(ops: seq<Instr>, qpn: nat)
    requires Run(ops, qpn).Ok?
    ensures var imp := Run(ops, qpn).value.0;
      forall k :: k in imp ==> imp[k] == 0 || imp[k] == 1
    decreases |ops|
  {
    if ops != [] {
      FlagsAreBits(ops[..|ops| - 1], qpn);
    }
  }

  /** A successful run succeeds on every prefix, and its output starts with the prefix's output. */
  lemma {:induction false} PrefixRun(ops: seq<Instr>, qpn: nat, j: nat)
    requires Run(ops, qpn).Ok? && j <= |ops|
    ensures |Run(ops, qpn).value.1| == |ops|
    ensures Run(ops[..j], qpn).Ok?
    ensures Run(ops[..j], qpn).value.1 == Run(ops, qpn).value.1[..j]
    decreases |ops| - j
  {
    ShapeKept(ops, qpn);
    if j < |ops| {
      var n := |ops| - 1;
      assert ops[..n][..j] == ops[..j];
      PrefixRun(ops[..n], qpn, j);
      ShapeKept(ops[..n], qpn);
    } else {
      assert ops[..j] == ops;
    }
  }

  /** A carbon-typed instruction in a node outside the table that no
      electron-typed instruction has written fails the lookup. */
  lemma UnknownNodeFails(ops: seq<Instr>, qpn: nat, i: nat)
    requires qpn > 0 && i < |ops| && Run(ops[..i], qpn).Ok?
    requires |ops[i].qubits| > 0 && !ElectronTyped(ops[i], qpn) && !Exempt(ops[i].name)
    requires NodeOf(ops[i].qubits[0], qpn) >= 4 && LastElectron(ops[..i], qpn, NodeOf(ops[i].qubits[0], qpn)) == None
    ensures Run(ops[..i + 1], qpn) == Err(UnknownNode(NodeOf(ops[i].qubits[0], qpn)))
  {
    RunStep(ops, i, qpn);
    TableIsLastElectron(ops[..i], qpn);
  }
}
