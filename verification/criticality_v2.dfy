/** The temporal, role-weighted criticality scorer: the instruction at position
    idx of N contributes base weight × (N - idx) / N, a controlled gate gives its
    first operand 1.5 times that and its other operands once that, a measurement
    gives each operand 1.2 times that; the totals are divided by the largest,
    and an empty score map is returned as it is. */
module CriticalityV2 {
  import opened Circuits
  import opened Scores

  /** Which base-weight table the accumulation uses: this scorer's own table,
      or the table of the influence-aware scorer, which gives every name weight 1. */
  datatype Table = Weighted | Uniform

  /** This scorer's gate-weight table; a name the table does not list weighs 1. */
  function Weight(name: string): (w: real)
    ensures w > 0.0
  {
    if name == "initialize" then 0.5
    else if name == "measure" then 2.0
    else if name == "cx" || name == "cz" || name == "crx" then 3.0
    else if name == "swap" then 1.5
    else if name == "ccx" || name == "entangle" then 4.0
    else 1.0  // rx, ry, rz, h and every unlisted name
  }

  function BaseWeight(t: Table, name: string): (w: real)
    ensures w > 0.0
  {
    match t
    case Weighted => Weight(name)
    case Uniform => 1.0
  }

  /** Instructions earlier in the circuit weigh more: the first weighs 1, the
      weight falls with the position and stays above 0. */
  function TemporalWeight(idx: nat, total: nat): (t: real)
    requires idx < total
    ensures 0.0 < t <= 1.0
    ensures idx == 0 ==> t == 1.0
  {
    (total - idx) as real / total as real
  }

  lemma TemporalWeightDecreasing(i: nat, j: nat, total: nat)
    requires i < j < total
    ensures TemporalWeight(j, total) < TemporalWeight(i, total)
  {
    var n := total as real;
    assert (total - j) as real < (total - i) as real;
    DivideKeepsOrder((total - i) as real, (total - j) as real, n);
  }

  /** The weighted score of the instruction at position `idx`. */
  function Scaled(t: Table, name: string, idx: nat, total: nat): (w: real)
    requires idx < total
    ensures w > 0.0
  {
    BaseWeight(t, name) * TemporalWeight(idx, total)
  }

  /** The multiplier of operand `j`: control 1.5, target 1, measured qubit 1.2, otherwise 1. */
  function RoleFactor(name: string, j: nat): (f: real)
    ensures f > 0.0
  {
    if IsControlled(name) then (if j == 0 then 1.5 else 1.0)
    else if name == "measure" then 1.2
    else 1.0
  }

  /** The contributions of one instruction whose weighted score is `w`. */
  function RoleSpread(name: string, qs: seq<nat>, w: real): (cs: seq<(nat, real)>)
    ensures |cs| == |qs|
  {
    if qs == [] then []
    else RoleSpread(name, qs[..|qs| - 1], w) + [(qs[|qs| - 1], w * RoleFactor(name, |qs| - 1))]
  }

  lemma RoleSpreadLast(name: string, qs: seq<nat>, w: real, n: nat)
    requires n + 1 == |qs|
    ensures RoleSpread(name, qs, w) == RoleSpread(name, qs[..n], w) + [(qs[n], w * RoleFactor(name, n))]
  {
    var unfolded := (qs[|qs| - 1], w * RoleFactor(name, |qs| - 1));
    assert qs[..|qs| - 1] == qs[..n];
    assert unfolded.0 == qs[n];
    assert unfolded.1 == w * RoleFactor(name, n);
    assert unfolded == (qs[n], w * RoleFactor(name, n));
  }

  lemma {:induction false} RoleSpreadTouched(name: string, qs: seq<nat>, w: real)
    ensures Touched(RoleSpread(name, qs, w)) == Elems(qs)
    decreases |qs|
  {
    if qs != [] {
      var n := |qs| - 1;
      RoleSpreadTouched(name, qs[..n], w);
      RoleSpreadLast(name, qs, w, n);
      TouchedAppend(RoleSpread(name, qs[..n], w), [(qs[n], w * RoleFactor(name, n))]);
      assert Touched([(qs[n], w * RoleFactor(name, n))]) == {qs[n]};
      assert Elems(qs) == Elems(qs[..n]) + {qs[n]} by {
        forall x | x in qs ensures x in qs[..n] || x == qs[n] {
          var i :| 0 <= i < |qs| && qs[i] == x;
          if i < n { assert qs[..n][i] == x; }
        }
        assert forall x :: x in qs[..n] ==> x in qs;
      }
    }
  }

  lemma {:induction false} RoleSpreadPositive(name: string, qs: seq<nat>, w: real)
    requires w > 0.0
    ensures forall c :: c in RoleSpread(name, qs, w) ==> c.1 > 0.0
    decreases |qs|
  {
    if qs != [] {
      RoleSpreadPositive(name, qs[..|qs| - 1], w);
      RoleSpreadLast(name, qs, w, |qs| - 1);
    }
  }

  /** The contributions of the first |ops| instructions of a circuit of `total` instructions. */
  function Contribs(ops: seq<Instr>, total: nat, t: Table): (cs: seq<(nat, real)>)
    requires |ops| <= total
    ensures forall c :: c in cs ==> c.1 > 0.0
    ensures Touched(cs) == QubitsOf(ops)
  {
    if ops == [] then []
    else
      var n := |ops| - 1;
      var rest, op := Contribs(ops[..n], total, t), ops[n];
      var w := Scaled(t, op.name, n, total);
      RoleSpreadTouched(op.name, op.qubits, w);
      RoleSpreadPositive(op.name, op.qubits, w);
      TouchedAppend(rest, RoleSpread(op.name, op.qubits, w));
      rest + RoleSpread(op.name, op.qubits, w)
  }

  /** The un-normalised scores of a whole circuit. */
  function Raw(ops: seq<Instr>, t: Table): (m: ScoreMap)
    ensures m.Keys == QubitsOf(ops)
    ensures Positive(m)
  {
    AccumulatePositive(Contribs(ops, |ops|, t));
    Accumulate(Contribs(ops, |ops|, t))
  }

  /** Some controlled gate has no operand, so reading its control fails. */
  predicate MissingControl(ops: seq<Instr>)
  {
    exists i :: 0 <= i < |ops| && LacksControl(ops[i])
  }

  predicate LacksControl(op: Instr)
  {
    IsControlled(op.name) && |op.qubits| == 0
  }

  lemma MissingAt(ops: seq<Instr>, i: nat)
    requires i < |ops| && LacksControl(ops[i])
    ensures MissingControl(ops)
  {
  }

  lemma ControlStep(ops: seq<Instr>, i: nat)
    requires i < |ops| && !MissingControl(ops[..i]) && !LacksControl(ops[i])
    ensures !MissingControl(ops[..i + 1])
  {
    var p := ops[..i + 1];
    forall k | 0 <= k < |p| ensures !LacksControl(p[k]) {
      if k < i { assert p[k] == ops[..i][k]; }
    }
  }

  /** What the scorer returns: the normalised scores, or the empty map when no
      qubit was scored (no division then). */
  ghost function CriticalityV2(ops: seq<Instr>): (r: Result<ScoreMap>)
    ensures r.Err? <==> MissingControl(ops)
    ensures r.Err? ==> r.error == MissingOperand
    ensures r.Ok? ==> r.value.Keys == QubitsOf(ops)
    ensures ops == [] ==> r == Ok(map[])
  {
    if MissingControl(ops) then Err(MissingOperand)
    else
      var raw := Raw(ops, Weighted);
      if raw == map[] then Ok(map[]) else Ok(Normalize(raw))
  }

  /** The loop of one instruction: add its role-weighted score to each operand. */
  method AddInstruction(scores: ScoreMap, ghost before: seq<(nat, real)>, op: Instr, w: real)
    returns (r: ScoreMap)
    requires scores == Accumulate(before)
    ensures r == Accumulate(before + RoleSpread(op.name, op.qubits, w))
  {
    var name, qs := op.name, op.qubits;
    r := scores;
    ghost var done: seq<(nat, real)> := [];
    assert before + done == before;
    for j := 0 to |qs|
      invariant done == RoleSpread(name, qs[..j], w)
      invariant r == Accumulate(before + done)
    {
      var q := qs[j];
      var amount := w * RoleFactor(name, j);
      AccumulateExtend(before, done, r, q, amount);
      r := r[q := Get(r, q) + amount];
      RoleSpreadPrefix(name, qs, w, j);
      done := done + [(q, amount)];
    }
    assert qs[..|qs|] == qs;
    assert done == RoleSpread(op.name, op.qubits, w);
  }

  lemma RoleSpreadPrefix(name: string, qs: seq<nat>, w: real, j: nat)
    requires j < |qs|
    ensures RoleSpread(name, qs[..j + 1], w)
         == RoleSpread(name, qs[..j], w) + [(qs[j], w * RoleFactor(name, j))]
  {
    var p := qs[..j + 1];
    RoleSpreadLast(name, p, w, j);
    assert p[..j] == qs[..j] && p[j] == qs[j];
  }

  /** The scorer's loop over the instructions, with base weights from table `t`;
      it stops at the first controlled gate without operands. */
  method AccumulateCircuit(ops: seq<Instr>, t: Table) returns (r: Result<ScoreMap>)
    ensures MissingControl(ops) ==> r == Err(MissingOperand)
    ensures !MissingControl(ops) ==> r == Ok(Raw(ops, t))
  {
    var total := |ops|;
    var scores: ScoreMap := map[];
    ghost var cs: seq<(nat, real)> := [];
    for idx := 0 to total
      invariant cs == Contribs(ops[..idx], total, t)
      invariant scores == Accumulate(cs)
      invariant !MissingControl(ops[..idx])
    {
      var op := ops[idx];
      if IsControlled(op.name) && |op.qubits| == 0 {
        MissingAt(ops, idx);
        return Err(MissingOperand);
      }
      ControlStep(ops, idx);
      var weighted := Scaled(t, op.name, idx, total);
      scores := AddInstruction(scores, cs, op, weighted);
      PrefixStep(ops, idx, total, t);
      cs := cs + RoleSpread(op.name, op.qubits, weighted);
    }
    assert ops[..total] == ops;
    return Ok(scores);
  }

  /** The scorer: the loop over the instructions, then the guarded normalisation. */
  method CircuitCriticalityV2(ops: seq<Instr>) returns (r: Result<ScoreMap>)
    ensures r == CriticalityV2(ops)
  {
    var acc := AccumulateCircuit(ops, Weighted);
    if acc.Err? {
      return acc;
    }
    var scores := acc.value;
    if scores == map[] {
      return Ok(map[]);
    }
    var mx := MaxScore(scores);
    var normalized := DivideAll(scores, mx);
    return Ok(normalized);
  }

  lemma PrefixStep(ops: seq<Instr>, idx: nat, total: nat, t: Table)
    requires idx < |ops| <= total
    ensures Contribs(ops[..idx + 1], total, t)
         == Contribs(ops[..idx], total, t)
          + RoleSpread(ops[idx].name, ops[idx].qubits, Scaled(t, ops[idx].name, idx, total))
  {
    assert ops[..idx + 1][..idx] == ops[..idx];
  }

  lemma {:induction false} RoleSpreadShare(name: string, qs: seq<nat>, w: real, j: nat)
    requires Distinct(qs) && j < |qs|
    ensures Total(RoleSpread(name, qs, w), qs[j]) == w * RoleFactor(name, j)
    decreases |qs|
  {
    var n := |qs| - 1;
    var rest := RoleSpread(name, qs[..n], w);
    RoleSpreadLast(name, qs, w, n);
    var share := w * RoleFactor(name, j);
    if j < n {
      TotalSnoc(rest, (qs[n], w * RoleFactor(name, n)), qs[j]);
      assert qs[..n][j] == qs[j] && qs[n] != qs[j];
      RoleSpreadShare(name, qs[..n], w, j);
      assert Total(rest, qs[j]) == share;
    } else {
      TotalSnoc(rest, (qs[n], share), qs[j]);
      assert qs[j] !in Touched(rest) by {
        RoleSpreadTouched(name, qs[..n], w);
      }
      TotalUntouched(rest, qs[j]);
      assert Total(rest, qs[j]) == 0.0;
    }
  }

  /** What one instruction with weighted score `w` and distinct operands gives each
      qubit: 1.5 w to the control of a controlled gate and w to each of its other
      operands, 1.2 w to each measured qubit, w to each operand of any other gate,
      and nothing to a qubit it does not name. */
  lemma RoleShares(op: Instr, w: real)
    requires Distinct(op.qubits)
    ensures IsControlled(op.name) && |op.qubits| > 0 ==>
      Total(RoleSpread(op.name, op.qubits, w), op.qubits[0]) == 1.5 * w
    ensures IsControlled(op.name) ==> forall j :: 1 <= j < |op.qubits| ==>
      Total(RoleSpread(op.name, op.qubits, w), op.qubits[j]) == w
    ensures op.name == "measure" ==> forall j :: 0 <= j < |op.qubits| ==>
      Total(RoleSpread(op.name, op.qubits, w), op.qubits[j]) == 1.2 * w
    ensures !IsControlled(op.name) && op.name != "measure" ==> forall j :: 0 <= j < |op.qubits| ==>
      Total(RoleSpread(op.name, op.qubits, w), op.qubits[j]) == w
    ensures forall q :: q !in op.qubits ==> Total(RoleSpread(op.name, op.qubits, w), q) == 0.0
  {
    var name, qs := op.name, op.qubits;
    var shares := RoleSpread(name, qs, w);
    RoleSpreadShares(name, qs, w);
    if IsControlled(name) {
      forall j | 0 <= j < |qs| ensures Total(shares, qs[j]) == (if j == 0 then 1.5 * w else w) {
        assert RoleFactor(name, j) == (if j == 0 then 1.5 else 1.0);
      }
    } else if name == "measure" {
      forall j | 0 <= j < |qs| ensures Total(shares, qs[j]) == 1.2 * w {
        assert RoleFactor(name, j) == 1.2;
      }
    } else {
      forall j | 0 <= j < |qs| ensures Total(shares, qs[j]) == w {
        assert RoleFactor(name, j) == 1.0;
      }
    }
  }

  lemma RoleSpreadShares(name: string, qs: seq<nat>, w: real)
    requires Distinct(qs)
    ensures forall j :: 0 <= j < |qs| ==> Total(RoleSpread(name, qs, w), qs[j]) == w * RoleFactor(name, j)
    ensures forall q :: q !in qs ==> Total(RoleSpread(name, qs, w), q) == 0.0
  {
    forall j | 0 <= j < |qs| ensures Total(RoleSpread(name, qs, w), qs[j]) == w * RoleFactor(name, j) {
      RoleSpreadShare(name, qs, w, j);
    }
    forall q | q !in qs ensures Total(RoleSpread(name, qs, w), q) == 0.0 {
      RoleSpreadTouched(name, qs, w);
      TotalUntouched(RoleSpread(name, qs, w), q);
    }
  }

  /** For a circuit that names some qubit and has no operand-less controlled gate,
      every score lies in (0, 1] and the largest is exactly 1. */
  lemma ScoresNormalized(ops: seq<Instr>)
    requires QubitsOf(ops) != {} && !MissingControl(ops)
    ensures var r := CriticalityV2(ops);
      && r.Ok?
      && (forall q :: q in r.value ==> 0.0 < r.value[q] <= 1.0)
      && (exists q :: q in r.value && r.value[q] == 1.0)
  {
    assert Raw(ops, Weighted) != map[];
  }

  /** Two Hadamards on distinct qubits: the first scores 1 and the second 1/2 before normalisation. */
  lemma TwoHadamards(x: nat, y: nat)
    requires x != y
    ensures Raw([Gate("h", [x], []), Gate("h", [y], [])], Weighted) == map[x := 1.0, y := 0.5]
  {
    HadamardContribs(x, y);
    PairAccumulate(x, 1.0, y, 0.5);
  }

  lemma HadamardContribs(x: nat, y: nat)
    ensures Contribs([Gate("h", [x], []), Gate("h", [y], [])], 2, Weighted) == [(x, 1.0), (y, 0.5)]
  {
    var ops := [Gate("h", [x], []), Gate("h", [y], [])];
    HadamardWeights();
    PrefixStep(ops, 0, 2, Weighted);
    assert ops[..0] == [];
    HadamardSpread(x, 1.0);
    var first := Contribs(ops[..1], 2, Weighted);
    assert first == [(x, 1.0)];
    PrefixStep(ops, 1, 2, Weighted);
    assert ops[..2] == ops;
    HadamardSpread(y, 0.5);
    assert Contribs(ops, 2, Weighted) == first + [(y, 0.5)];
  }

  lemma HadamardWeights()
    ensures Scaled(Weighted, "h", 0, 2) == 1.0 && Scaled(Weighted, "h", 1, 2) == 0.5
  {
    assert BaseWeight(Weighted, "h") == 1.0;
    assert TemporalWeight(1, 2) == 0.5;
  }

  lemma HadamardSpread(q: nat, w: real)
    ensures RoleSpread("h", [q], w) == [(q, w)]
  {
    RoleSpreadLast("h", [q], w, 0);
    assert [q][..0] == [];
    assert RoleFactor("h", 0) == 1.0;
  }

  lemma PairAccumulate(x: nat, a: real, y: nat, b: real)
    requires x != y
    ensures Accumulate([(x, a), (y, b)]) == map[x := a, y := b]
  {
    var e: seq<(nat, real)> := [];
    assert Accumulate(e) == map[];
    AccumulateSnoc(e, (x, a));
    assert e + [(x, a)] == [(x, a)];
    AccumulateSnoc([(x, a)], (y, b));
    assert [(x, a)] + [(y, b)] == [(x, a), (y, b)];
  }

  /** Of two Hadamards on distinct qubits, the earlier one's qubit scores higher. */
  lemma EarlierScoresHigher(x: nat, y: nat)
    requires x != y
    ensures var r := CriticalityV2([Gate("h", [x], []), Gate("h", [y], [])]);
      r.Ok? && x in r.value && y in r.value && r.value[y] < r.value[x]
  {
    var a := [Gate("h", [x], []), Gate("h", [y], [])];
    assert !MissingControl(a) by {
      assert forall i :: 0 <= i < |a| ==> a[i].name == "h";
    }
    TwoHadamards(x, y);
    var ra := Raw(a, Weighted);
    assert x in ra;
    assert CriticalityV2(a) == Ok(Normalize(ra));
    NormalizeStrict(ra, y, x);
  }

  /** Unlike the static scorer, this one depends on the order of the instructions:
      two Hadamards swapped in place swap which of their qubits scores higher. */
  lemma OrderMatters()
    ensures var a := [Gate("h", [0], []), Gate("h", [1], [])];
            var b := [Gate("h", [1], []), Gate("h", [0], [])];
            multiset(a) == multiset(b) && CriticalityV2(a) != CriticalityV2(b)
  {
    var a := [Gate("h", [0], []), Gate("h", [1], [])];
    var b := [Gate("h", [1], []), Gate("h", [0], [])];
    assert multiset(a) == multiset(b);
    EarlierScoresHigher(0, 1);
    EarlierScoresHigher(1, 0);
  }

  lemma NormalizeStrict(m: ScoreMap, x: nat, y: nat)
    requires m != map[] && Positive(m) && x in m && y in m && m[x] < m[y]
    ensures Normalize(m)[x] < Normalize(m)[y]
  {
  }
}
