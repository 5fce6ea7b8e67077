/** Shared data model of the compiler: instructions with their structured notes,
    the node/role arithmetic of the electron-carbon architecture, and the error
    conditions the passes raise. */
module Circuits {

  datatype Option<T> = None | Some(value: T)

  /** The failures the source raises as exceptions. */
  datatype Error =
    | EmptyScores                  // `max` of an empty collection of scores
    | MissingOperand               // an operand list indexed past its end
    | MissingParameter             // a parameter list indexed past its end
    | UnknownNode(node: nat)       // a node missing from the node-importance table
    | UnknownGate(name: string)    // an instruction name outside the code generator's vocabulary
    | NoReadyNodes(stuck: set<nat>) // the scheduler found no ready operation
    | ZeroDivision                 // qubits per node (or nodes) is zero

  datatype Result<T> = Ok(value: T) | Err(error: Error)

  /** The per-instruction annotations passes leave for later passes:
      `preserved`, `basis` and the `NVnode<k>` entries written by the tracking pass. */
  datatype Notes = Notes(preserved: Option<int>, basis: Option<string>, nvNode: map<nat, int>)

  const NoNotes: Notes := Notes(None, None, map[])

  /** One instruction of a circuit: name, qubit operands, classical operands, angles, notes. */
  datatype Instr = Instr(name: string, qubits: seq<nat>, clbits: seq<nat>, params: seq<real>, notes: Notes)

  /** A gate as a freshly built library gate, without notes or classical operands. */
  function Gate(name: string, qubits: seq<nat>, params: seq<real>): (g: Instr)
    ensures g.name == name && g.qubits == qubits && g.params == params
    ensures g.clbits == [] && g.notes == NoNotes
  {
    Instr(name, qubits, [], params, NoNotes)
  }

  /** The node that holds qubit `q`. */
  function NodeOf(q: nat, qpn: nat): (k: nat)
    requires qpn > 0
    ensures k * qpn <= q < (k + 1) * qpn
  {
    q / qpn
  }

  /** Qubit `q` plays the electron role in its node (the node's first qubit). */
  predicate IsElectron(q: nat, qpn: nat)
    requires qpn > 0
  {
    q % qpn == 0
  }

  /** Names of the controlled gates and their number of control operands. */
  predicate IsControlled(name: string)
  {
    name == "cx" || name == "cz" || name == "crx" || name == "ccx"
  }

  function NumCtrl(name: string): nat
  {
    if name == "ccx" then 2 else 1
  }

  /** The three non-unitary operations. */
  predicate IsNonUnitary(name: string)
  {
    name == "reset" || name == "initialize" || name == "measure"
  }

  /** Every qubit that some instruction names. */
  function QubitsOf(ops: seq<Instr>): set<nat>
  {
    if ops == [] then {} else QubitsOf(ops[..|ops| - 1]) + Elems(ops[|ops| - 1].qubits)
  }

  /** The qubits of an operand list, as a set. */
  function Elems(qs: seq<nat>): set<nat>
  {
    set q | q in qs
  }

  lemma {:induction false} QubitsOfMember(ops: seq<Instr>, q: nat)
    ensures q in QubitsOf(ops) <==> exists op :: op in ops && q in op.qubits
    decreases |ops|
  {
    if ops != [] {
      var n := |ops| - 1;
      QubitsOfMember(ops[..n], q);
      assert forall op :: op in ops <==> op in ops[..n] || op == ops[n] by {
        assert ops == ops[..n] + [ops[n]];
      }
    }
  }

  lemma Assoc<T>(a: seq<T>, b: seq<T>, c: seq<T>)
    ensures (a + b) + c == a + (b + c)
  {
  }

  /** A non-empty sequence is its front followed by its last element. */
  lemma SplitLast<T>(s: seq<T>)
    requires s != []
    ensures s[..|s| - 1] + [s[|s| - 1]] == s
  {
  }

  /** How often `q` occurs in an operand list. */
  function Count(qs: seq<nat>, q: nat): nat
  {
    if qs == [] then 0 else Count(qs[..|qs| - 1], q) + (if qs[|qs| - 1] == q then 1 else 0)
  }

  /** No qubit occurs twice among an instruction's operands. */
  predicate Distinct(qs: seq<nat>)
  {
    forall i, j :: 0 <= i < j < |qs| ==> qs[i] != qs[j]
  }

  function Get(m: map<nat, real>, q: nat): real
  {
    if q in m then m[q] else 0.0
  }
}
