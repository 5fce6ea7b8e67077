/** The carbon-target fix pass. A two-qubit gate whose second operand is an
    electron qubit cannot run as written on this hardware, so the pass replaces
    it by a fixed six-gate sequence whose only two-qubit gate is a controlled
    rotation from that electron onto the first operand. The pass walks the
    instructions in order and stops, leaving the rest untouched, at the first
    multi-qubit swap, entangle or initialize. */
module CarbonFix {
  import opened Circuits

  const Pi: real := 3.141592653589793

  /** The multi-qubit instructions at which the pass returns. */
  predicate Stops(op: Instr)
  {
    |op.qubits| > 1 && (op.name == "entangle" || op.name == "initialize" || op.name == "swap")
  }

  /** The multi-qubit instructions the pass inspects. */
  predicate Candidate(op: Instr)
  {
    |op.qubits| > 1 && !(op.name == "entangle" || op.name == "initialize" || op.name == "swap")
  }

  /** The replacement of a two-qubit gate on (q0, q1): H q1, H q0, RZ(pi/2) q1,
      CRX(pi) from q1 onto q0, H q1, H q0. */
  function Decomposition(q0: nat, q1: nat): (gs: seq<Instr>)
    ensures |gs| == 6
    ensures forall g :: g in gs ==> g.notes == NoNotes && g.clbits == []
    ensures forall g :: g in gs ==> forall q :: q in g.qubits ==> q == q0 || q == q1
  {
    [Gate("h", [q1], []), Gate("h", [q0], []), Gate("rz", [q1], [Pi / 2.0]),
     Gate("crx", [q1, q0], [Pi]), Gate("h", [q1], []), Gate("h", [q0], [])]
  }

  /** What the pass makes of one instruction that does not stop it. */
  function FixOne(op: Instr, qpn: nat): Result<seq<Instr>>
  {
    if !Candidate(op) then Ok([op])
    else if qpn == 0 then Err(ZeroDivision)
    else if IsElectron(op.qubits[1], qpn) then Ok(Decomposition(op.qubits[0], op.qubits[1]))
    else Ok([op])
  }

  /** `head` in front of a successful result. */
  function Prepend(head: seq<Instr>, r: Result<seq<Instr>>): Result<seq<Instr>>
  {
    match r
    case Ok(rest) => Ok(head + rest)
    case Err(e) => Err(e)
  }

  /** The pass over a whole instruction list. */
  function Fix(ops: seq<Instr>, qpn: nat): Result<seq<Instr>>
    decreases |ops|
  {
    if ops == [] then Ok([])
    else if Stops(ops[0]) then Ok(ops)
    else
      match FixOne(ops[0], qpn)
      case Err(e) => Err(e)
      case Ok(head) => Prepend(head, Fix(ops[1..], qpn))
  }

  lemma PrependAssoc(a: seq<Instr>, b: seq<Instr>, r: Result<seq<Instr>>)
    ensures Prepend(a, Prepend(b, r)) == Prepend(a + b, r)
  {
    if r.Ok? {
      assert a + (b + r.value) == (a + b) + r.value;
    }
  }

  /** The pass's loop: substitute instruction by instruction, return at the first stop. */
  method CXCarbonFix(ops: seq<Instr>, qpn: nat) returns (r: Result<seq<Instr>>)
    ensures r == Fix(ops, qpn)
  {
    var out: seq<Instr> := [];
    var i := 0;
    assert ops[0..] == ops;
    PrependEmpty(Fix(ops, qpn));
    while i < |ops|
      invariant 0 <= i <= |ops|
      invariant Fix(ops, qpn) == Prepend(out, Fix(ops[i..], qpn))
    {
      var op := ops[i];
      if |op.qubits| > 1 && !(op.name == "entangle" || op.name == "initialize" || op.name == "swap") {
        if qpn == 0 {
          return Err(ZeroDivision);
        }
        if op.qubits[1] % qpn == 0 {
          PrependAssoc(out, Decomposition(op.qubits[0], op.qubits[1]), Fix(ops[i + 1..], qpn));
          out := out + Decomposition(op.qubits[0], op.qubits[1]);
        } else {
          PrependAssoc(out, [op], Fix(ops[i + 1..], qpn));
          out := out + [op];
        }
      } else if |op.qubits| > 1 {
        return Ok(out + ops[i..]);
      } else {
        PrependAssoc(out, [op], Fix(ops[i + 1..], qpn));
        out := out + [op];
      }
      assert ops[i..][1..] == ops[i + 1..];
      i := i + 1;
    }
    assert out + [] == out;
    return Ok(out);
  }

  lemma PrependEmpty(r: Result<seq<Instr>>)
    ensures Prepend([], r) == r
  {
    if r.Ok? {
      assert [] + r.value == r.value;
    }
  }

  /** On a single instruction: a multi-qubit gate other than swap, entangle and
      initialize whose second operand is an electron becomes the six-gate
      sequence; every other instruction, including one at which the pass
      stops, comes out unchanged. The model keeps such an instruction whole,
      where the source re-applies it on at most its first two wires and
      without classical bits. */
  lemma SingleGate(op: Instr, qpn: nat)
    requires qpn > 0
    ensures Candidate(op) && IsElectron(op.qubits[1], qpn) ==>
      Fix([op], qpn) == Ok(Decomposition(op.qubits[0], op.qubits[1]))
    ensures !(Candidate(op) && IsElectron(op.qubits[1], qpn)) ==> Fix([op], qpn) == Ok([op])
  {
    assert [op][1..] == [];
    if Candidate(op) && IsElectron(op.qubits[1], qpn) {
      assert Decomposition(op.qubits[0], op.qubits[1]) + [] == Decomposition(op.qubits[0], op.qubits[1]);
    } else {
      assert [op] + [] == [op];
    }
  }

  /** Before the first stop the pass works instruction by instruction; the stop
      and every instruction after it come out unchanged. */
  lemma {:induction false} StopKeepsRest(ops: seq<Instr>, qpn: nat, i: nat)
    requires i < |ops| && Stops(ops[i])
    requires forall j :: 0 <= j < i ==> !Stops(ops[j])
    ensures Fix(ops, qpn) == Append(Fix(ops[..i], qpn), ops[i..])
    decreases i
  {
    if i == 0 {
      assert ops[..0] == [] && [] + ops[0..] == ops;
    } else {
      assert ops[1..][..i - 1] == ops[..i][1..];
      assert ops[1..][i - 1..] == ops[i..];
      StopKeepsRest(ops[1..], qpn, i - 1);
      assert ops[..i][0] == ops[0];
      match FixOne(ops[0], qpn)
      case Err(e) =>
      case Ok(head) =>
        var r := Fix(ops[..i][1..], qpn);
        if r.Ok? {
          assert head + (r.value + ops[i..]) == (head + r.value) + ops[i..];
        }
    }
  }

  /** `tail` after a successful result. */
  function Append(r: Result<seq<Instr>>, tail: seq<Instr>): Result<seq<Instr>>
  {
    match r
    case Ok(front) => Ok(front + tail)
    case Err(e) => Err(e)
  }

  /** The pass leaves a list unchanged when every inspected gate targets a carbon qubit. */
  lemma {:induction false} NothingToFix(ops: seq<Instr>, qpn: nat)
    requires qpn > 0
    requires forall op :: op in ops && Candidate(op) ==> !IsElectron(op.qubits[1], qpn)
    ensures Fix(ops, qpn) == Ok(ops)
    decreases |ops|
  {
    if ops != [] && !Stops(ops[0]) {
      assert ops[0] in ops;
      assert forall op :: op in ops[1..] ==> op in ops;
      NothingToFix(ops[1..], qpn);
      assert [ops[0]] + ops[1..] == ops;
    }
  }

  /** An instruction the pass leaves as it is. */
  predicate Settled(op: Instr, qpn: nat)
    requires qpn > 0
  {
    !Stops(op) && FixOne(op, qpn) == Ok([op])
  }

  lemma {:induction false} SettledPrefix(head: seq<Instr>, tail: seq<Instr>, qpn: nat)
    requires qpn > 0
    requires forall op :: op in head ==> Settled(op, qpn)
    ensures Fix(head + tail, qpn) == Prepend(head, Fix(tail, qpn))
    decreases |head|
  {
    if head == [] {
      assert head + tail == tail;
      if Fix(tail, qpn).Ok? {
        assert [] + Fix(tail, qpn).value == Fix(tail, qpn).value;
      }
    } else {
      assert (head + tail)[0] == head[0] && (head + tail)[1..] == head[1..] + tail;
      assert head[0] in head;
      assert forall op :: op in head[1..] ==> op in head;
      SettledPrefix(head[1..], tail, qpn);
      PrependAssoc([head[0]], head[1..], Fix(tail, qpn));
      assert [head[0]] + head[1..] == head;
    }
  }

  /** The replacement of a gate whose first operand is a carbon qubit is left
      alone by a second run: its controlled rotation targets that carbon. */
  lemma DecompositionSettled(q0: nat, q1: nat, qpn: nat)
    requires qpn > 0 && !IsElectron(q0, qpn)
    ensures forall g :: g in Decomposition(q0, q1) ==> Settled(g, qpn)
  {
    var gs := Decomposition(q0, q1);
    assert forall g :: g in gs ==> g == gs[0] || g == gs[1] || g == gs[2] || g == gs[3] || g == gs[4] || g == gs[5];
    assert gs[3].qubits[1] == q0;
  }

  /** Running the pass twice changes nothing more, provided no rewritten gate
      has an electron qubit as its first operand. */
  lemma {:induction false} FixIdempotent(ops: seq<Instr>, qpn: nat)
    requires qpn > 0
    requires forall op :: op in ops && Candidate(op) && IsElectron(op.qubits[1], qpn) ==>
               !IsElectron(op.qubits[0], qpn)
    ensures Fix(ops, qpn).Ok? && Fix(Fix(ops, qpn).value, qpn) == Fix(ops, qpn)
    decreases |ops|
  {
    if ops != [] && !Stops(ops[0]) {
      var op := ops[0];
      assert op in ops;
      assert forall o :: o in ops[1..] ==> o in ops;
      FixIdempotent(ops[1..], qpn);
      var rest := Fix(ops[1..], qpn).value;
      var head := FixOne(op, qpn).value;
      if Candidate(op) && IsElectron(op.qubits[1], qpn) {
        DecompositionSettled(op.qubits[0], op.qubits[1], qpn);
      } else {
        assert forall g :: g in head ==> g == op;
      }
      SettledPrefix(head, rest, qpn);
    }
  }

  /** Without that proviso a second run does change the result: a CX between two
      electron qubits is replaced, and the controlled rotation of its
      replacement is replaced again. */
  lemma NotIdempotent()
    ensures var once := Fix([Gate("cx", [0, 2], [])], 2);
      once == Ok(Decomposition(0, 2)) && Fix(once.value, 2) != once
  {
    FixElectronPair();
    ReplacedAgain(0, 2, 2);
  }

  lemma FixElectronPair()
    ensures Fix([Gate("cx", [0, 2], [])], 2) == Ok(Decomposition(0, 2))
  {
    var ops := [Gate("cx", [0, 2], [])];
    assert !Stops(ops[0]) && Candidate(ops[0]) && IsElectron(2, 2);
    assert FixOne(ops[0], 2) == Ok(Decomposition(0, 2));
    assert ops[1..] == [];
    assert Decomposition(0, 2) + [] == Decomposition(0, 2);
  }

  /** When the first operand is an electron qubit, a second run replaces the
      controlled rotation of the replacement. */
  lemma ReplacedAgain(q0: nat, q1: nat, qpn: nat)
    requires qpn > 0 && IsElectron(q0, qpn)
    ensures Fix(Decomposition(q0, q1), qpn) != Ok(Decomposition(q0, q1))
  {
    var d := Decomposition(q0, q1);
    ReplacementHead(q0, q1, qpn);
    ReplacementTail(q0, q1, qpn);
    ReplacementRotation(q0, q1, qpn);
    var rest := Decomposition(q1, q0) + d[4..];
    assert (d[..3] + rest)[3] == Decomposition(q1, q0)[0];
  }

  lemma ReplacementHead(q0: nat, q1: nat, qpn: nat)
    requires qpn > 0
    ensures var d := Decomposition(q0, q1);
      Fix(d, qpn) == Prepend(d[..3], Fix(d[3..], qpn))
  {
    var d := Decomposition(q0, q1);
    var head := [Gate("h", [q1], []), Gate("h", [q0], []), Gate("rz", [q1], [Pi / 2.0])];
    assert Settled(head[0], qpn) && Settled(head[1], qpn) && Settled(head[2], qpn);
    assert d[..3] == head && d == head + d[3..];
    SettledPrefix(head, d[3..], qpn);
  }

  lemma ReplacementTail(q0: nat, q1: nat, qpn: nat)
    requires qpn > 0
    ensures var d := Decomposition(q0, q1);
      Fix(d[4..], qpn) == Ok(d[4..])
  {
    var d := Decomposition(q0, q1);
    assert forall g :: g in d[4..] ==> g == d[4] || g == d[5];
    SettledPrefix(d[4..], [], qpn);
    assert d[4..] + [] == d[4..];
    PrependEmpty(Ok(d[4..]));
  }

  lemma ReplacementRotation(q0: nat, q1: nat, qpn: nat)
    requires qpn > 0 && IsElectron(q0, qpn)
    ensures var d := Decomposition(q0, q1);
      Fix(d[3..], qpn) == Prepend(Decomposition(q1, q0), Fix(d[4..], qpn))
  {
    var d := Decomposition(q0, q1);
    assert d[3..][1..] == d[4..];
    assert FixOne(d[3], qpn) == Ok(Decomposition(q1, q0));
  }
}
