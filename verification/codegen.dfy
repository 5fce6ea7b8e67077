/** The code generator for the node-based backend. Every instruction becomes a
    short group of output lines addressed by node (`q / qpn`) and, for carbon
    qubits, by local index (`q % qpn - 1`); the lines follow a two-line header.
    Lines are modelled as structured records rather than formatted text. */
module Codegen {
  import opened Circuits

  /** One output line. `node` is a node address, `carbon` a local index inside
      a node, `axis` and `angle` the two rotation numbers of a gate line. */
  datatype Line =
    | Version                                                   // version 1.0
    | Qubits(count: nat)                                        // qubits N
    | QgateE(node: nat, axis: real, angle: real)
    | QgateEZ(node: nat, axis: real, angle: real)
    | QgateUC(node: nat, carbon: int, axis: real, angle: real, preserved: int)
    | QgateCZ(node: nat, carbon: int, angle: real)
    | QgateCC(node: nat, carbon: int, axis: real, angle: real)
    | FullSwap(node: nat, carbon: int)
    | NVentangle(node: nat, peer: nat)
    | SwapCE(node: nat, carbon: int, basis: string)
    | SwapEC(node: nat, carbon: int, basis: string)
    | SwapceZ(node: nat, carbon: int)                           // swapce q<node> z <carbon>
    | Swapec(node: nat, carbon: int)                            // swapec q<node> <carbon>
    | Measure(node: nat)
    | Initialize(node: nat)

  /** The header. */
  function Header(numQubits: nat): seq<Line>
  {
    [Version, Qubits(numQubits)]
  }

  /** The local index of a qubit inside its node: -1 for the electron, 0, 1, ... for the carbons. */
  function Local(q: nat, qpn: nat): int
    requires qpn > 0
  {
    q % qpn - 1
  }

  /** A node address and a local index name exactly one qubit: the electron
      has index -1, the carbons 0 up to qpn - 2. */
  lemma AddressRoundTrip(q: nat, qpn: nat)
    requires qpn > 0
    ensures NodeOf(q, qpn) * qpn + Local(q, qpn) + 1 == q
    ensures -1 <= Local(q, qpn) <= qpn - 2
    ensures Local(q, qpn) == -1 <==> IsElectron(q, qpn)
  {
  }

  function Sign(x: real): real
  {
    if x > 0.0 then 1.0 else if x < 0.0 then -1.0 else 0.0
  }

  function Abs(x: real): (r: real)
    ensures r >= 0.0 && (r == x || r == -x)
  {
    if x < 0.0 then -x else x
  }

  /** The axis number of an x rotation, |sign(theta) * 1.57 - 1.57|. */
  function XAxis(theta: real): (r: real)
    ensures theta > 0.0 <==> r == 0.0
    ensures theta == 0.0 <==> r == 1.57
    ensures theta < 0.0 <==> r == 3.14
  {
    Abs(Sign(theta) * 1.57 - 1.57)
  }

  /** The `preserved` note, 0 when absent. */
  function PreservedOf(notes: Notes): int
  {
    match notes.preserved
    case Some(p) => p
    case None => 0
  }

  /** The `basis` note, empty when absent. */
  function BasisOf(notes: Notes): string
  {
    match notes.basis
    case Some(b) => b
    case None => ""
  }

  /** The names the generator knows; `while_loop` among them emits nothing. */
  predicate Handled(name: string)
  {
    name in {"cx", "crx", "swap", "ry", "rx", "rz", "entangle", "SwapCE", "SwapEC",
             "measure", "reset", "initialize", "while_loop"}
  }

  /** Names whose lines read the second operand, for a first operand of the given role. */
  predicate NeedsSecond(name: string, electron: bool)
  {
    name in {"cx", "crx", "swap", "entangle", "SwapCE", "SwapEC"} ||
    (!electron && name in {"measure", "reset", "initialize"})
  }

  /** Names whose lines read the first parameter. */
  predicate NeedsAngle(name: string)
  {
    name in {"crx", "ry", "rx", "rz"}
  }

  /** The lines of one instruction whose operands and parameters are all there. */
  function Emit(op: Instr, qpn: nat): seq<Line>
    requires Handled(op.name) && op.name != "while_loop"
    requires qpn > 0 && |op.qubits| > 0
    requires NeedsSecond(op.name, IsElectron(op.qubits[0], qpn)) ==> |op.qubits| > 1
    requires NeedsAngle(op.name) ==> |op.params| > 0
  {
    var q0 := op.qubits[0];
    var n0 := NodeOf(q0, qpn);
    var electron := IsElectron(q0, qpn);
    match op.name
    case "cx" => [QgateEZ(n0, 0.0, 1.57), QgateCC(n0, Local(op.qubits[1], qpn), 0.0, 3.14)]
    case "crx" => [QgateCC(n0, Local(op.qubits[1], qpn), XAxis(op.params[0]), Abs(op.params[0]))]
    case "swap" => [FullSwap(n0, Local(op.qubits[1], qpn))]
    case "ry" =>
      if electron then [QgateE(n0, Sign(op.params[0]) * 1.57, Abs(op.params[0]))]
      else [QgateUC(n0, Local(q0, qpn), Sign(op.params[0]) * 1.57, Abs(op.params[0]), PreservedOf(op.notes))]
    case "rx" =>
      if electron then [QgateE(n0, XAxis(op.params[0]), Abs(op.params[0]))]
      else [QgateUC(n0, Local(q0, qpn), XAxis(op.params[0]), op.params[0], PreservedOf(op.notes))]
    case "rz" =>
      if electron then [QgateEZ(n0, 0.0, Abs(op.params[0]))]
      else [QgateCZ(n0, Local(q0, qpn), op.params[0])]
    case "entangle" => [NVentangle(n0, NodeOf(op.qubits[1], qpn))]
    case "SwapCE" => [SwapCE(n0, Local(op.qubits[1], qpn), BasisOf(op.notes))]
    case "SwapEC" => [SwapEC(n0, Local(op.qubits[1], qpn), BasisOf(op.notes))]
    case "measure" =>
      if electron then [Measure(n0)]
      else [SwapceZ(n0, Local(op.qubits[1], qpn)), Measure(n0)]
    case _ =>
      if electron then [Initialize(n0)]
      else [Initialize(n0), Swapec(n0, Local(op.qubits[1], qpn))]
  }

  /** The lines of one instruction, or why it cannot be translated: an unknown
      name, a missing operand, qpn = 0, or a missing angle, in the order the
      generator meets them. */
  function Group(op: Instr, qpn: nat): (r: Result<seq<Line>>)
    ensures op.name == "while_loop" ==> r == Ok([])
    ensures !Handled(op.name) ==> r == Err(UnknownGate(op.name))
    ensures r.Err? <==>
      !Handled(op.name) ||
      (op.name != "while_loop" &&
        (|op.qubits| == 0 || qpn == 0 ||
         (NeedsSecond(op.name, IsElectron(op.qubits[0], qpn)) && |op.qubits| < 2) ||
         (NeedsAngle(op.name) && |op.params| == 0)))
  {
    if op.name == "while_loop" then Ok([])
    else if !Handled(op.name) then Err(UnknownGate(op.name))
    else if |op.qubits| == 0 then Err(MissingOperand)
    else if qpn == 0 then Err(ZeroDivision)
    else if NeedsSecond(op.name, IsElectron(op.qubits[0], qpn)) && |op.qubits| < 2 then Err(MissingOperand)
    else if NeedsAngle(op.name) && |op.params| == 0 then Err(MissingParameter)
    else Ok(Emit(op, qpn))
  }

  /** The lines of the instructions, in program order, or the first failure. */
  function Body(ops: seq<Instr>, qpn: nat): Result<seq<Line>>
  {
    if ops == [] then Ok([])
    else Then(Body(ops[..|ops| - 1], qpn), ops[|ops| - 1], qpn)
  }

  /** The lines so far followed by those of `op`. */
  function Then(prev: Result<seq<Line>>, op: Instr, qpn: nat): Result<seq<Line>>
  {
    match prev
    case Err(e) => Err(e)
    case Ok(lines) =>
      match Group(op, qpn)
      case Err(e) => Err(e)
      case Ok(g) => Ok(lines + g)
  }

  /** The whole program: the header, then the lines of every instruction.
      qpn = numQubits / numNodes, which fails for zero nodes. */
  function Translate(ops: seq<Instr>, numQubits: nat, numNodes: nat): (r: Result<seq<Line>>)
    ensures numNodes == 0 ==> r == Err(ZeroDivision)
    ensures r.Ok? ==> |r.value| >= 2 && r.value[..2] == Header(numQubits)
  {
    if numNodes == 0 then Err(ZeroDivision)
    else
      match Body(ops, numQubits / numNodes)
      case Err(e) => Err(e)
      case Ok(lines) => Ok(Header(numQubits) + lines)
  }

  lemma BodyStep(ops: seq<Instr>, i: nat, qpn: nat)
    requires i < |ops|
    ensures Body(ops[..i + 1], qpn) == Then(Body(ops[..i], qpn), ops[i], qpn)
  {
    assert ops[..i + 1][..i] == ops[..i];
  }

  /** A failing instruction ends the translation with its failure. */
  lemma {:induction false} FailureSticks(ops: seq<Instr>, qpn: nat, j: nat)
    requires j <= |ops| && Body(ops[..j], qpn).Err?
    ensures Body(ops, qpn) == Body(ops[..j], qpn)
    decreases |ops| - j
  {
    if j < |ops| {
      BodyStep(ops, j, qpn);
      FailureSticks(ops, qpn, j + 1);
    } else {
      assert ops[..j] == ops;
    }
  }

  /** The generator's loop, growing the output one instruction group at a time. */
  method QASMtoBackend(ops: seq<Instr>, numQubits: nat, numNodes: nat) returns (r: Result<seq<Line>>)
    ensures r == Translate(ops, numQubits, numNodes)
  {
    if numNodes == 0 {
      return Err(ZeroDivision);
    }
    var qpn := numQubits / numNodes;
    var result := Header(numQubits);
    ghost var body: seq<Line> := [];
    assert ops[..0] == [] && result == Header(numQubits) + body;
    for idx := 0 to |ops|
      invariant result == Header(numQubits) + body
      invariant Body(ops[..idx], qpn) == Ok(body)
    {
      BodyStep(ops, idx, qpn);
      var group := Group(ops[idx], qpn);
      if group.Err? {
        FailureSticks(ops, qpn, idx + 1);
        return Err(group.error);
      }
      Assoc(Header(numQubits), body, group.value);
      result := result + group.value;
      body := body + group.value;
    }
    assert ops[..|ops|] == ops;
    return Ok(result);
  }

  /** The translation succeeds exactly when every instruction's group does, and
      then the lines of a longer program extend those of its prefix. */
  lemma {:induction false} BodyOk(ops: seq<Instr>, qpn: nat)
    ensures Body(ops, qpn).Ok? <==> forall i :: 0 <= i < |ops| ==> Group(ops[i], qpn).Ok?
    decreases |ops|
  {
    if ops != [] {
      var n := |ops| - 1;
      BodyOk(ops[..n], qpn);
      if Body(ops, qpn).Ok? {
        forall i | 0 <= i < |ops| ensures Group(ops[i], qpn).Ok? {
          if i < n {
            assert ops[..n][i] == ops[i];
          }
        }
      } else if Body(ops[..n], qpn).Ok? {
        assert !Group(ops[n], qpn).Ok?;
      } else {
        var i :| 0 <= i < n && !Group(ops[..n][i], qpn).Ok?;
        assert ops[..n][i] == ops[i];
      }
    }
  }

  /** The output of a program is the output of its first part followed by the
      lines of the rest, in program order. */
  lemma {:induction false} BodyAppend(a: seq<Instr>, b: seq<Instr>, qpn: nat)
    requires Body(a + b, qpn).Ok?
    ensures Body(a, qpn).Ok? && Body(b, qpn).Ok?
    ensures Body(a + b, qpn).value == Body(a, qpn).value + Body(b, qpn).value
    decreases |b|
  {
    if b == [] {
      assert a + b == a;
    } else {
      var n := |b| - 1;
      var init, last := b[..n], b[n];
      assert a + b == (a + init) + [last] && b == init + [last];
      BodySnoc(a + init, last, qpn);
      var g := Group(last, qpn).value;
      BodyAppend(a, init, qpn);
      BodySnoc(init, last, qpn);
      var x, y := Body(a, qpn).value, Body(init, qpn).value;
      assert Body(b, qpn) == Ok(y + g);
      assert Body(a + b, qpn) == Ok((x + y) + g);
      Assoc(x, y, g);
    }
  }

  lemma BodySnoc(s: seq<Instr>, op: Instr, qpn: nat)
    ensures Body(s + [op], qpn) == Then(Body(s, qpn), op, qpn)
  {
    assert (s + [op])[..|s|] == s;
  }

  /** How many lines each instruction gives: none for `while_loop`; two for
      cx and for a measurement, reset or initialisation of a carbon qubit;
      one otherwise. */
  lemma GroupSize(op: Instr, qpn: nat)
    requires Group(op, qpn).Ok? && op.name != "while_loop"
    ensures qpn > 0 && |op.qubits| > 0
    ensures |Group(op, qpn).value| ==
      if op.name == "cx" || (!IsElectron(op.qubits[0], qpn) && op.name in {"measure", "reset", "initialize"})
      then 2 else 1
  {
  }

  /** A cx becomes a z rotation of the control node's electron followed by the
      controlled gate on the target's carbon. */
  lemma CxLines(op: Instr, qpn: nat)
    requires op.name == "cx" && Group(op, qpn).Ok?
    ensures |op.qubits| > 1 && qpn > 0
    ensures Group(op, qpn).value ==
      [QgateEZ(NodeOf(op.qubits[0], qpn), 0.0, 1.57), QgateCC(NodeOf(op.qubits[0], qpn), Local(op.qubits[1], qpn), 0.0, 3.14)]
  {
  }

  /** Every line of an instruction addresses the node of its first operand. */
  lemma LinesOnFirstNode(op: Instr, qpn: nat)
    requires Group(op, qpn).Ok? && op.name != "while_loop"
    ensures qpn > 0 && |op.qubits| > 0
    ensures forall l :: l in Group(op, qpn).value && !l.Version? && !l.Qubits? ==> l.node == NodeOf(op.qubits[0], qpn)
  {
  }

  /** A single-qubit rotation uses the electron gate lines on an electron qubit
      and the carbon gate lines, with the carbon's local index, on a carbon qubit. */
  lemma RotationRole(op: Instr, qpn: nat)
    requires op.name in {"rx", "ry", "rz"} && Group(op, qpn).Ok?
    ensures qpn > 0 && |op.qubits| > 0 && |Group(op, qpn).value| == 1
    ensures var l := Group(op, qpn).value[0];
      if IsElectron(op.qubits[0], qpn) then l.QgateE? || l.QgateEZ?
      else (l.QgateUC? || l.QgateCZ?) && 0 <= l.carbon == Local(op.qubits[0], qpn)
  {
    AddressRoundTrip(op.qubits[0], qpn);
  }

  /** A carbon rotation about x or y carries the `preserved` note, 0 when absent;
      a SwapCE or SwapEC line carries the `basis` note, empty when absent. */
  lemma NotesCarried(op: Instr, qpn: nat)
    requires Group(op, qpn).Ok? && op.name in {"rx", "ry", "SwapCE", "SwapEC"}
    ensures qpn > 0 && |op.qubits| > 0 && |Group(op, qpn).value| == 1
    ensures var l := Group(op, qpn).value[0];
      (op.name in {"rx", "ry"} && !IsElectron(op.qubits[0], qpn) ==>
        l.QgateUC? && l.preserved == (if op.notes.preserved.Some? then op.notes.preserved.value else 0)) &&
      (op.name in {"SwapCE", "SwapEC"} ==>
        (l.SwapCE? || l.SwapEC?) && l.basis == (if op.notes.basis.Some? then op.notes.basis.value else ""))
  {
  }

  /** Measuring, resetting or initialising a carbon qubit reads a second operand,
      so a one-operand instruction of that kind fails. */
  lemma CarbonNeedsSecond(op: Instr, qpn: nat)
    requires qpn > 0 && |op.qubits| == 1 && !IsElectron(op.qubits[0], qpn)
    requires op.name in {"measure", "reset", "initialize"}
    ensures Group(op, qpn) == Err(MissingOperand)
  {
  }

  /** A program with a name the generator does not know fails, naming the
      first such instruction when every instruction before it translates. */
  lemma UnknownFails(ops: seq<Instr>, numQubits: nat, numNodes: nat, i: nat)
    requires numNodes > 0 && i < |ops| && !Handled(ops[i].name)
    requires Body(ops[..i], numQubits / numNodes).Ok?
    ensures Translate(ops, numQubits, numNodes) == Err(UnknownGate(ops[i].name))
  {
    var qpn := numQubits / numNodes;
    BodyStep(ops, i, qpn);
    FailureSticks(ops, qpn, i + 1);
  }
}
