/** The static criticality scorer: every instruction adds its gate's fixed
    weight to each of its qubits, and the totals are divided by the largest. */
module CriticalityV1 {
  import opened Circuits
  import opened Scores

  /** The static gate-weight table; a name the table does not list weighs 1. */
  function Weight(name: string): (w: real)
    ensures w > 0.0
  {
    if name == "measure" then 1.5
    else if name == "cx" || name == "cz" || name == "swap" then 2.0
    else if name == "ccx" || name == "entangle" then 3.0
    else 1.0  // rx, ry, rz, h, initialize and every unlisted name
  }

  /** The contributions of one instruction: weight `w` for each operand, in operand order. */
  function Spread(qs: seq<nat>, w: real): (cs: seq<(nat, real)>)
    ensures |cs| == |qs|
  {
    if qs == [] then [] else Spread(qs[..|qs| - 1], w) + [(qs[|qs| - 1], w)]
  }

  /** The contributions of a whole instruction list, in loop order. */
  function Contribs(ops: seq<Instr>): (cs: seq<(nat, real)>)
    ensures forall c :: c in cs ==> c.1 > 0.0
    ensures Touched(cs) == QubitsOf(ops)
  {
    if ops == [] then []
    else
      var n := |ops| - 1;
      var rest, op := Contribs(ops[..n]), ops[n];
      SpreadFacts(op.qubits, Weight(op.name));
      TouchedAppend(rest, Spread(op.qubits, Weight(op.name)));
      rest + Spread(op.qubits, Weight(op.name))
  }

  lemma {:induction false} SpreadFacts(qs: seq<nat>, w: real)
    requires w > 0.0
    ensures forall c :: c in Spread(qs, w) ==> c.1 == w
    ensures Touched(Spread(qs, w)) == Elems(qs)
    decreases |qs|
  {
    if qs != [] {
      var n := |qs| - 1;
      SpreadFacts(qs[..n], w);
      TouchedAppend(Spread(qs[..n], w), [(qs[n], w)]);
      assert Elems(qs) == Elems(qs[..n]) + {qs[n]} by {
        forall x | x in qs ensures x in qs[..n] || x == qs[n] {
          var i :| 0 <= i < |qs| && qs[i] == x;
          if i < n { assert qs[..n][i] == x; }
        }
        assert forall x :: x in qs[..n] ==> x in qs;
      }
    }
  }

  /** The un-normalised scores. */
  function Raw(ops: seq<Instr>): ScoreMap
  {
    Accumulate(Contribs(ops))
  }

  /** What the scorer returns: the raw scores divided by their maximum, or the
      failure of `max` on an empty collection when no instruction names a qubit. */
  ghost function CriticalityV1(ops: seq<Instr>): (r: Result<ScoreMap>)
    ensures r.Err? <==> QubitsOf(ops) == {}
    ensures r.Err? ==> r.error == EmptyScores
    ensures r.Ok? ==> r.value.Keys == QubitsOf(ops)
  {
    var raw := Raw(ops);
    AccumulatePositive(Contribs(ops));
    if raw == map[] then Err(EmptyScores) else Ok(Normalize(raw))
  }

  /** The scorer's loops: accumulate into a default-zero map, then divide by the maximum. */
  method CircuitCriticalityV1(ops: seq<Instr>) returns (r: Result<ScoreMap>)
    ensures r == CriticalityV1(ops)
  {
    var scores: ScoreMap := map[];
    for i := 0 to |ops|
      invariant scores == Raw(ops[..i])
    {
      var op := ops[i];
      scores := AddWeight(scores, Contribs(ops[..i]), op.qubits, Weight(op.name));
      PrefixStep(ops, i);
    }
    assert ops[..|ops|] == ops;
    AccumulatePositive(Contribs(ops));
    if scores == map[] {
      return Err(EmptyScores);
    }
    var mx := MaxScore(scores);
    var normalized := DivideAll(scores, mx);
    return Ok(normalized);
  }

  /** The inner loop: add weight `w` to each operand in turn. */
  method AddWeight(scores: ScoreMap, ghost before: seq<(nat, real)>, qs: seq<nat>, w: real)
    returns (r: ScoreMap)
    requires scores == Accumulate(before)
    ensures r == Accumulate(before + Spread(qs, w))
  {
    r := scores;
    assert before + Spread(qs[..0], w) == before;
    for j := 0 to |qs|
      invariant r == Accumulate(before + Spread(qs[..j], w))
    {
      var q := qs[j];
      SpreadPrefix(qs, w, j);
      AccumulateExtend(before, Spread(qs[..j], w), r, q, w);
      r := r[q := Get(r, q) + w];
    }
    assert qs[..|qs|] == qs;
  }

  lemma SpreadPrefix(qs: seq<nat>, w: real, j: nat)
    requires j < |qs|
    ensures Spread(qs[..j + 1], w) == Spread(qs[..j], w) + [(qs[j], w)]
  {
    assert qs[..j + 1][..j] == qs[..j];
  }

  lemma PrefixStep(ops: seq<Instr>, i: nat)
    requires i < |ops|
    ensures Contribs(ops[..i + 1]) == Contribs(ops[..i]) + Spread(ops[i].qubits, Weight(ops[i].name))
  {
    assert ops[..i + 1][..i] == ops[..i];
  }

  /** Reference definition of a qubit's raw score: the weight of every
      instruction, once per occurrence of the qubit among its operands. */
  function WeightSum(ops: seq<Instr>, q: nat): real
  {
    if ops == [] then 0.0
    else WeightSum(ops[..|ops| - 1], q) + Term(ops[|ops| - 1], q)
  }

  /** What one instruction adds to qubit `q`. */
  function Term(op: Instr, q: nat): real
  {
    Weight(op.name) * Count(op.qubits, q) as real
  }

  /** `w` added `k` times. */
  function Times(k: nat, w: real): real
  {
    if k == 0 then 0.0 else Times(k - 1, w) + w
  }

  lemma {:induction false} TimesMul(k: nat, w: real)
    ensures Times(k, w) == w * k as real
  {
    if k > 0 {
      TimesMul(k - 1, w);
      MulStep(w, k - 1, true);
    }
  }

  lemma {:induction false} TotalSpread(qs: seq<nat>, w: real, q: nat)
    ensures Total(Spread(qs, w), q) == Times(Count(qs, q), w)
    decreases |qs|
  {
    if qs != [] {
      var n := |qs| - 1;
      TotalSpread(qs[..n], w, q);
      TotalSpreadLast(qs, w, q);
    }
  }

  lemma TotalSpreadLast(qs: seq<nat>, w: real, q: nat)
    requires qs != []
    ensures Total(Spread(qs, w), q)
         == Total(Spread(qs[..|qs| - 1], w), q) + (if qs[|qs| - 1] == q then w else 0.0)
  {
    var s := Spread(qs, w);
    assert s[..|s| - 1] == Spread(qs[..|qs| - 1], w);
  }

  lemma MulStep(w: real, c: nat, hit: bool)
    ensures w * (c + (if hit then 1 else 0)) as real == w * c as real + (if hit then w else 0.0)
  {
  }

  /** One instruction's contributions to `q` are its term. */
  lemma SpreadTerm(op: Instr, q: nat)
    ensures Total(Spread(op.qubits, Weight(op.name)), q) == Term(op, q)
  {
    TotalSpread(op.qubits, Weight(op.name), q);
    TimesMul(Count(op.qubits, q), Weight(op.name));
  }

  /** A qubit's raw score is the weight of every instruction that names it. */
  lemma {:induction false} RawIsWeightSum(ops: seq<Instr>, q: nat)
    ensures Total(Contribs(ops), q) == WeightSum(ops, q)
    decreases |ops|
  {
    if ops != [] {
      var n := |ops| - 1;
      RawIsWeightSum(ops[..n], q);
      TotalAppend(Contribs(ops[..n]), Spread(ops[n].qubits, Weight(ops[n].name)), q);
      SpreadTerm(ops[n], q);
    }
  }

  lemma {:induction false} WeightSumAppend(a: seq<Instr>, b: seq<Instr>, q: nat)
    ensures WeightSum(a + b, q) == WeightSum(a, q) + WeightSum(b, q)
    decreases |b|
  {
    if b == [] {
      assert a + b == a;
    } else {
      var n := |b| - 1;
      assert (a + b)[..|a + b| - 1] == a + b[..n];
      assert (a + b)[|a + b| - 1] == b[n];
      WeightSumAppend(a, b[..n], q);
    }
  }

  /** Taking out the instruction at `k` takes its term out of the sum. */
  lemma WeightSumRemove(b: seq<Instr>, k: nat, q: nat)
    requires k < |b|
    ensures WeightSum(b, q)
         == WeightSum(b[..k] + b[k + 1..], q) + Term(b[k], q)
  {
    assert b == (b[..k] + [b[k]]) + b[k + 1..];
    WeightSumAppend(b[..k] + [b[k]], b[k + 1..], q);
    WeightSumAppend(b[..k], [b[k]], q);
    WeightSumAppend(b[..k], b[k + 1..], q);
    assert [b[k]][..0] == [];
  }

  lemma MultisetRemove(a: seq<Instr>, b: seq<Instr>, k: nat)
    requires a != [] && multiset(a) == multiset(b)
    requires k < |b| && b[k] == a[|a| - 1]
    ensures multiset(a[..|a| - 1]) == multiset(b[..k] + b[k + 1..])
  {
    var x := b[k];
    assert a == a[..|a| - 1] + [x];
    assert b == b[..k] + [x] + b[k + 1..];
    assert multiset(a[..|a| - 1]) == multiset(a) - multiset{x};
    assert multiset(b[..k] + b[k + 1..]) == multiset(b) - multiset{x};
  }

  lemma {:induction false} WeightSumPermutation(a: seq<Instr>, b: seq<Instr>, q: nat)
    requires multiset(a) == multiset(b)
    ensures WeightSum(a, q) == WeightSum(b, q)
    decreases |a|
  {
    if a == [] {
      assert |b| == |multiset(b)| == 0;
    } else {
      var n := |a| - 1;
      assert a[n] in multiset(b);
      var k :| 0 <= k < |b| && b[k] == a[n];
      MultisetRemove(a, b, k);
      WeightSumPermutation(a[..n], b[..k] + b[k + 1..], q);
      WeightSumRemove(b, k, q);
    }
  }

  /** Reordering the instruction list leaves the scores unchanged. */
  lemma PermutationInvariant(a: seq<Instr>, b: seq<Instr>)
    requires multiset(a) == multiset(b)
    ensures CriticalityV1(a) == CriticalityV1(b)
  {
    assert QubitsOf(a) == QubitsOf(b) by {
      forall op | op in a ensures op in b { assert op in multiset(a); }
      forall op | op in b ensures op in a { assert op in multiset(b); }
      forall q ensures q in QubitsOf(a) <==> q in QubitsOf(b) {
        QubitsOfMember(a, q);
        QubitsOfMember(b, q);
      }
    }
    forall q | q in QubitsOf(a) ensures Total(Contribs(a), q) == Total(Contribs(b), q) {
      RawIsWeightSum(a, q);
      RawIsWeightSum(b, q);
      WeightSumPermutation(a, b, q);
    }
    assert Raw(a) == Raw(b);
  }

  /** For a circuit that names some qubit, every score lies in (0, 1], some
      qubit scores exactly 1, and the scores order the qubits as the raw sums do. */
  lemma ScoresNormalized(ops: seq<Instr>)
    requires QubitsOf(ops) != {}
    ensures var r := CriticalityV1(ops);
      && r.Ok?
      && (forall q :: q in r.value ==> 0.0 < r.value[q] <= 1.0)
      && (exists q :: q in r.value && r.value[q] == 1.0)
      && (forall a, b :: a in r.value && b in r.value ==>
            (WeightSum(ops, a) <= WeightSum(ops, b) <==> r.value[a] <= r.value[b]))
  {
    var raw := Raw(ops);
    assert raw.Keys == QubitsOf(ops);
    AccumulatePositive(Contribs(ops));
    assert CriticalityV1(ops) == Ok(Normalize(raw));
    forall q | q in raw ensures raw[q] == WeightSum(ops, q) {
      RawIsWeightSum(ops, q);
    }
  }
}
