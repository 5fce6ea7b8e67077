/** The influence-aware criticality scorer: the role-weighted temporal scores of
    the previous scorer with every base weight 1, each multiplied by one plus
    the qubit's normalised error-propagation influence, then divided by the largest. */
module CriticalityV3 {
  import opened Circuits
  import opened Scores
  import opened Influence
  import V2 = CriticalityV2

  /** Every score multiplied by one plus the qubit's influence; a qubit without
      an influence entry keeps its score. */
  function Combine(raw: ScoreMap, infl: ScoreMap): (m: ScoreMap)
    ensures m.Keys == raw.Keys
  {
    map q | q in raw :: raw[q] * (1.0 + Get(infl, q))
  }

  lemma MulBounds(a: real, f: real)
    requires a > 0.0 && 1.0 <= f <= 2.0
    ensures a <= a * f <= 2.0 * a
  {
  }

  /** With influences in [0, 1], combining keeps scores positive, never lowers a
      score and at most doubles it. */
  lemma CombineBounds(raw: ScoreMap, infl: ScoreMap)
    requires Positive(raw)
    requires forall q :: q in infl ==> 0.0 <= infl[q] <= 1.0
    ensures Positive(Combine(raw, infl))
    ensures forall q :: q in raw ==> raw[q] <= Combine(raw, infl)[q] <= 2.0 * raw[q]
    ensures forall q :: q in raw && q !in infl ==> Combine(raw, infl)[q] == raw[q]
  {
    var m := Combine(raw, infl);
    forall q | q in raw ensures 0.0 < raw[q] <= m[q] <= 2.0 * raw[q] {
      MulBounds(raw[q], 1.0 + Get(infl, q));
    }
  }

  /** What the scorer returns. The influence analysis runs first and fails on a
      circuit without qubits; reading the control of an operand-less controlled
      gate fails next; `max` of the scores fails when no instruction names a qubit. */
  ghost function CriticalityV3(ops: seq<Instr>, n: nat): (r: Result<ScoreMap>)
    ensures n == 0 ==> r == Err(EmptyScores)
    ensures n > 0 && V2.MissingControl(ops) ==> r == Err(MissingOperand)
    ensures r.Ok? <==> n > 0 && !V2.MissingControl(ops) && QubitsOf(ops) != {}
    ensures r.Err? && n > 0 && !V2.MissingControl(ops) ==> r.error == EmptyScores
    ensures r.Ok? ==> r.value.Keys == QubitsOf(ops)
  {
    match InfluenceScores(ops, n)
    case Err(e) => Err(e)
    case Ok(infl) =>
      if V2.MissingControl(ops) then Err(MissingOperand)
      else
        var m := Combine(V2.Raw(ops, V2.Uniform), infl);
        if m == map[] then Err(EmptyScores)
        else
          InfluenceNormalized(ops, n);
          CombineBounds(V2.Raw(ops, V2.Uniform), infl);
          Ok(Normalize(m))
  }

  /** The combine loop, in place on the score map. */
  method CombineAll(m: ScoreMap, infl: ScoreMap) returns (r: ScoreMap)
    ensures r == Combine(m, infl)
  {
    r := m;
    var todo := m.Keys;
    while todo != {}
      invariant todo <= m.Keys && r.Keys == m.Keys
      invariant forall q :: q in m && q !in todo ==> r[q] == m[q] * (1.0 + Get(infl, q))
      invariant forall q :: q in todo ==> r[q] == m[q]
      decreases todo
    {
      var q :| q in todo;
      var factor := 1.0 + (if q in infl then infl[q] else 0.0);
      r := r[q := r[q] * factor];
      todo := todo - {q};
    }
    assert forall q :: q in r ==> r[q] == Combine(m, infl)[q];
  }

  /** The scorer: the influence analysis, the accumulation loop with unit base
      weights, the combine loop, then the division by the maximum. */
  method CircuitCriticalityV3(ops: seq<Instr>, n: nat) returns (r: Result<ScoreMap>)
    ensures r == CriticalityV3(ops, n)
  {
    var influence := AnalyzeErrorPropagation(ops, n);
    if influence.Err? {
      return Err(influence.error);
    }
    var acc := V2.AccumulateCircuit(ops, V2.Uniform);
    if acc.Err? {
      return acc;
    }
    var scores := CombineAll(acc.value, influence.value);
    if scores == map[] {
      return Err(EmptyScores);
    }
    InfluenceNormalized(ops, n);
    CombineBounds(V2.Raw(ops, V2.Uniform), influence.value);
    var mx := MaxScore(scores);
    var normalized := DivideAll(scores, mx);
    return Ok(normalized);
  }

  /** For a circuit with qubits, an instruction naming some qubit and no
      operand-less controlled gate, every score lies in (0, 1], the largest is
      exactly 1, and the scores order the qubits as the combined sums do. */
  lemma ScoresNormalized(ops: seq<Instr>, n: nat)
    requires n > 0 && QubitsOf(ops) != {} && !V2.MissingControl(ops)
    ensures var r := CriticalityV3(ops, n);
      && r.Ok?
      && (forall q :: q in r.value ==> 0.0 < r.value[q] <= 1.0)
      && (exists q :: q in r.value && r.value[q] == 1.0)
    ensures var r := CriticalityV3(ops, n);
      var m := Combine(V2.Raw(ops, V2.Uniform), InfluenceScores(ops, n).value);
      forall a, b :: a in r.value && b in r.value ==> (m[a] <= m[b] <==> r.value[a] <= r.value[b])
  {
    var m := Combine(V2.Raw(ops, V2.Uniform), InfluenceScores(ops, n).value);
    InfluenceNormalized(ops, n);
    CombineBounds(V2.Raw(ops, V2.Uniform), InfluenceScores(ops, n).value);
    assert m != map[];
    assert CriticalityV3(ops, n) == Ok(Normalize(m));
  }

  lemma DivScale(a: real, b: real, c: real)
    requires b > 0.0 && c > 0.0
    ensures (a * c) / (b * c) == a / b
  {
    var x := a / b;
    assert a == x * b;
    assert a * c == x * (b * c);
  }

  /** Every score multiplied by `c`. */
  function Scale(m: ScoreMap, c: real): (s: ScoreMap)
    ensures s.Keys == m.Keys
  {
    map q | q in m :: m[q] * c
  }

  lemma MulPositive(a: real, c: real)
    requires a > 0.0 && c > 0.0
    ensures a * c > 0.0
  {
  }

  lemma MulMonotone(a: real, b: real, c: real)
    requires a <= b && c > 0.0
    ensures a * c <= b * c
  {
  }

  lemma ScaleMax(m: ScoreMap, c: real, mx: real)
    requires Positive(m) && IsMax(m, mx) && c > 0.0
    ensures Positive(Scale(m, c)) && IsMax(Scale(m, c), mx * c)
  {
    var s := Scale(m, c);
    var w :| w in m && m[w] == mx;
    assert s[w] == mx * c;
    forall q | q in s ensures 0.0 < s[q] <= mx * c {
      MulPositive(m[q], c);
      MulMonotone(m[q], mx, c);
    }
  }

  /** Scaling every score by the same positive factor does not change the normalised scores. */
  lemma NormalizeScale(m: ScoreMap, c: real)
    requires m != map[] && Positive(m) && c > 0.0
    ensures Positive(Scale(m, c)) && Normalize(Scale(m, c)) == Normalize(m)
  {
    var s := Scale(m, c);
    var mx := MaxValue(m);
    ScaleMax(m, c, mx);
    assert s != map[];
    MaxUnique(s, mx * c, MaxValue(s));
    DividedScale(m, c, mx);
  }

  lemma DividedScale(m: ScoreMap, c: real, mx: real)
    requires mx > 0.0 && c > 0.0
    ensures Divided(Scale(m, c), mx * c) == Divided(m, mx)
  {
    var a, b := Divided(Scale(m, c), mx * c), Divided(m, mx);
    forall q | q in m ensures a[q] == b[q] {
      var x := m[q];
      DivScale(x, mx, c);
      calc {
        a[q];
        Scale(m, c)[q] / (mx * c);
        (x * c) / (mx * c);
        x / mx;
        b[q];
      }
    }
    assert a.Keys == b.Keys;
  }

  /** No instruction spreads an error: every influence is 1. */
  lemma FlatInfluence(ops: seq<Instr>, n: nat)
    requires n > 0
    requires forall op :: op in ops ==> !Entangling(op.name)
    ensures var r := InfluenceScores(ops, n);
      r.Ok? && forall q: nat :: q < n ==> q in r.value && r.value[q] == 1.0
  {
    InfluenceIsNormalized(ops, n);
    FlatReach(ops, n);
    NormalizeFlat(RawInfluence(ops, n), n);
  }

  /** Scores that are all 1 stay 1 when normalised. */
  lemma NormalizeFlat(raw: ScoreMap, n: nat)
    requires n > 0 && forall q: nat :: q in raw <==> q < n
    requires forall q: nat :: q < n ==> raw[q] == 1.0
    ensures raw != map[] && Positive(raw)
    ensures forall q: nat :: q < n ==> q in Normalize(raw) && Normalize(raw)[q] == 1.0
  {
    assert 0 in raw && IsMax(raw, 1.0);
    MaxUnique(raw, 1.0, MaxValue(raw));
    var r := Normalize(raw);
    assert r == Divided(raw, 1.0);
    forall q: nat | q < n ensures q in r && r[q] == 1.0 {
      assert raw[q] == 1.0;
    }
  }

  lemma FlatReach(ops: seq<Instr>, n: nat)
    requires forall op :: op in ops ==> !Entangling(op.name)
    ensures forall q: nat :: q < n ==> RawInfluence(ops, n)[q] == 1.0
  {
    forall q: nat | q < n ensures Reach(ops, q) == 1.0 {
      forall y ensures y !in SuccOf(ops, q) {
        SuccOfMember(ops, q, y);
      }
      Isolated(ops, q);
    }
  }

  /** The gate names along which an error spreads. */
  predicate Entangling(name: string)
  {
    IsControlled(name) || name == "swap" || name == "entangle"
  }

  /** Without entangling gates every influence is 1, so every score is doubled
      and the result is that of the unit-weight temporal scorer without influence. */
  lemma NoEntanglingNoInfluence(ops: seq<Instr>, n: nat)
    requires n > 0 && QubitsOf(ops) != {}
    requires forall op :: op in ops ==> !Entangling(op.name)
    requires forall q :: q in QubitsOf(ops) ==> q < n
    ensures CriticalityV3(ops, n) == Ok(Normalize(V2.Raw(ops, V2.Uniform)))
  {
    FlatInfluence(ops, n);
    assert !V2.MissingControl(ops) by {
      forall i | 0 <= i < |ops| ensures !V2.LacksControl(ops[i]) {
        assert ops[i] in ops;
      }
    }
    var raw := V2.Raw(ops, V2.Uniform);
    var infl := InfluenceScores(ops, n).value;
    CombineFlat(raw, infl, n);
    NormalizeScale(raw, 2.0);
  }

  lemma CombineFlat(raw: ScoreMap, infl: ScoreMap, n: nat)
    requires forall q :: q in raw ==> q < n
    requires forall q: nat :: q < n ==> q in infl && infl[q] == 1.0
    ensures Combine(raw, infl) == Scale(raw, 2.0)
  {
    var a, b := Combine(raw, infl), Scale(raw, 2.0);
    forall q | q in raw ensures a[q] == b[q] {
      assert Get(infl, q) == 1.0;
    }
    assert a.Keys == b.Keys;
  }
}
