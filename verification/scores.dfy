/** The accumulate-then-max-normalise scheme shared by the three criticality scorers.
    A scorer turns its instruction list into a flat list of (qubit, amount)
    contributions, in the order its loops add them to the default-zero score map;
    the score map holds, for every qubit some contribution names, the sum of
    that qubit's amounts. */
module Scores {
  import opened Circuits

  type ScoreMap = map<nat, real>

  /** Sum of the amounts that `cs` adds to qubit `q`. */
  function Total(cs: seq<(nat, real)>, q: nat): real
  {
    if cs == [] then 0.0
    else Total(cs[..|cs| - 1], q) + (if cs[|cs| - 1].0 == q then cs[|cs| - 1].1 else 0.0)
  }

  /** The qubits that receive at least one contribution (the keys a default-zero map gains). */
  function Touched(cs: seq<(nat, real)>): set<nat>
  {
    set c | c in cs :: c.0
  }

  lemma TouchedAppend(cs: seq<(nat, real)>, ds: seq<(nat, real)>)
    ensures Touched(cs + ds) == Touched(cs) + Touched(ds)
  {
    forall c | c in cs + ds ensures c in cs || c in ds { }
    assert forall c :: c in cs ==> c in cs + ds;
    assert forall c :: c in ds ==> c in cs + ds;
  }

  /** The score map that adding every contribution in order produces. */
  function Accumulate(cs: seq<(nat, real)>): (m: ScoreMap)
    ensures m.Keys == Touched(cs)
  {
    map q | q in Touched(cs) :: Total(cs, q)
  }

  lemma {:induction false} TotalAppend(cs: seq<(nat, real)>, ds: seq<(nat, real)>, q: nat)
    ensures Total(cs + ds, q) == Total(cs, q) + Total(ds, q)
    decreases |ds|
  {
    if ds == [] {
      assert cs + ds == cs;
    } else {
      var n := |ds| - 1;
      assert (cs + ds)[..|cs + ds| - 1] == cs + ds[..n];
      TotalAppend(cs, ds[..n], q);
    }
  }

  lemma TotalSnoc(cs: seq<(nat, real)>, c: (nat, real), q: nat)
    ensures Total(cs + [c], q) == Total(cs, q) + (if c.0 == q then c.1 else 0.0)
  {
    assert (cs + [c])[..|cs|] == cs;
  }

  lemma {:induction false} TotalUntouched(cs: seq<(nat, real)>, q: nat)
    requires q !in Touched(cs)
    ensures Total(cs, q) == 0.0
    decreases |cs|
  {
    if cs != [] {
      var n := |cs| - 1;
      assert Touched(cs[..n]) <= Touched(cs) by {
        forall c | c in cs[..n] ensures c in cs { }
      }
      assert cs[n] in cs;
      TotalUntouched(cs[..n], q);
    }
  }

  /** One more contribution adds its amount to its qubit's entry, which starts at zero. */
  lemma AccumulateSnoc(cs: seq<(nat, real)>, c: (nat, real))
    ensures Accumulate(cs + [c]) == Accumulate(cs)[c.0 := Get(Accumulate(cs), c.0) + c.1]
  {
    var a, b := Accumulate(cs + [c]), Accumulate(cs)[c.0 := Get(Accumulate(cs), c.0) + c.1];
    assert (cs + [c])[..|cs + [c]| - 1] == cs;
    assert Touched(cs + [c]) == Touched(cs) + {c.0} by {
      forall d | d in cs + [c] ensures d in cs || d == c { }
    }
    if c.0 !in Touched(cs) {
      TotalUntouched(cs, c.0);
    }
    forall q | q in a.Keys ensures a[q] == b[q] { }
    assert a == b;
  }

  /** The same step for a map `r` that holds the earlier contributions, split in two. */
  lemma AccumulateExtend(before: seq<(nat, real)>, done: seq<(nat, real)>, r: ScoreMap, q: nat, amount: real)
    requires r == Accumulate(before + done)
    ensures r[q := Get(r, q) + amount] == Accumulate(before + (done + [(q, amount)]))
  {
    assert before + (done + [(q, amount)]) == (before + done) + [(q, amount)];
    AccumulateSnoc(before + done, (q, amount));
  }

  lemma {:induction false} TotalPositive(cs: seq<(nat, real)>, q: nat)
    requires forall c :: c in cs ==> c.1 > 0.0
    ensures Total(cs, q) >= 0.0
    ensures q in Touched(cs) ==> Total(cs, q) > 0.0
    decreases |cs|
  {
    if cs != [] {
      var n := |cs| - 1;
      assert forall c :: c in cs[..n] ==> c in cs;
      assert cs[n] in cs;
      assert Touched(cs) == Touched(cs[..n]) + {cs[n].0} by {
        forall d | d in cs ensures d in cs[..n] || d == cs[n] {
          var i :| 0 <= i < |cs| && cs[i] == d;
          if i < n { assert cs[..n][i] == d; }
        }
      }
      TotalPositive(cs[..n], q);
    }
  }

  /** Strictly positive contributions give strictly positive scores. */
  lemma AccumulatePositive(cs: seq<(nat, real)>)
    requires forall c :: c in cs ==> c.1 > 0.0
    ensures Positive(Accumulate(cs))
  {
    forall q | q in Touched(cs) ensures Total(cs, q) > 0.0 {
      TotalPositive(cs, q);
    }
  }

  /** All values are strictly positive. */
  predicate Positive(m: ScoreMap)
  {
    forall q :: q in m ==> m[q] > 0.0
  }

  /** `mx` is the largest value of the map. */
  predicate IsMax(m: ScoreMap, mx: real)
  {
    (exists q :: q in m && m[q] == mx) && forall q :: q in m ==> m[q] <= mx
  }

  lemma {:induction false} MaxExists(m: ScoreMap)
    requires m != map[]
    ensures exists mx :: IsMax(m, mx)
    decreases |m|
  {
    var k :| k in m;
    var rest := map q | q in m && q != k :: m[q];
    assert forall q :: q in m ==> q == k || q in rest;
    if rest == map[] {
      assert IsMax(m, m[k]);
    } else {
      assert rest.Keys == m.Keys - {k};
      assert |rest| < |m|;
      MaxExists(rest);
      var mx :| IsMax(rest, mx);
      if m[k] >= mx {
        assert IsMax(m, m[k]);
      } else {
        var w :| w in rest && rest[w] == mx;
        assert m[w] == mx;
        assert IsMax(m, mx);
      }
    }
  }

  /** The largest value of a non-empty score map. */
  ghost function MaxValue(m: ScoreMap): (mx: real)
    requires m != map[]
    ensures IsMax(m, mx)
  {
    MaxExists(m);
    var mx :| IsMax(m, mx); mx
  }

  lemma MaxUnique(m: ScoreMap, a: real, b: real)
    requires IsMax(m, a) && IsMax(m, b)
    ensures a == b
  {
    var qa :| qa in m && m[qa] == a;
    var qb :| qb in m && m[qb] == b;
  }

  lemma DivideBySelf(x: real)
    requires x > 0.0
    ensures x / x == 1.0
  {
  }

  lemma DivideKeepsOrder(a: real, b: real, mx: real)
    requires mx > 0.0
    ensures a <= b <==> a / mx <= b / mx
  {
    assert a / mx * mx == a && b / mx * mx == b;
    if a / mx <= b / mx {
      assert a / mx * mx <= b / mx * mx;
    }
  }

  /** Division of every value by the largest one: values land in (0, 1],
      the largest becomes exactly 1 and the order of the values is kept. */
  ghost function Normalize(m: ScoreMap): (r: ScoreMap)
    requires m != map[] && Positive(m)
    ensures r.Keys == m.Keys
    ensures forall q :: q in r ==> 0.0 < r[q] <= 1.0
    ensures exists q :: q in r && r[q] == 1.0
    ensures forall a, b :: a in m && b in m ==> (m[a] <= m[b] <==> r[a] <= r[b])
  {
    var mx := MaxValue(m);
    DividedFacts(m, mx);
    Divided(m, mx)
  }

  /** Every value divided by `mx`. */
  function Divided(m: ScoreMap, mx: real): ScoreMap
    requires mx != 0.0
  {
    map q | q in m :: m[q] / mx
  }

  lemma DividedFacts(m: ScoreMap, mx: real)
    requires Positive(m) && IsMax(m, mx) && m != map[]
    ensures var r := Divided(m, mx);
      && (forall q :: q in r ==> 0.0 < r[q] <= 1.0)
      && (exists q :: q in r && r[q] == 1.0)
      && (forall a, b :: a in m && b in m ==> (m[a] <= m[b] <==> r[a] <= r[b]))
  {
    var r := Divided(m, mx);
    var w :| w in m && m[w] == mx;
    assert mx > 0.0;
    DivideBySelf(mx);
    assert r[w] == m[w] / mx;
    forall q | q in r ensures 0.0 < r[q] <= 1.0 {
      DivideKeepsOrder(m[q], mx, mx);
    }
    forall a, b | a in m && b in m ensures m[a] <= m[b] <==> r[a] <= r[b] {
      DivideKeepsOrder(m[a], m[b], mx);
    }
  }

  /** Python's `max(scores.values())`. */
  method MaxScore(m: ScoreMap) returns (mx: real)
    requires m != map[]
    ensures IsMax(m, mx)
  {
    var k :| k in m;
    mx := m[k];
    var rest := m.Keys - {k};
    while rest != {}
      invariant rest <= m.Keys && k !in rest
      invariant mx in m.Values
      invariant forall q :: q in m && q !in rest ==> m[q] <= mx
      decreases rest
    {
      var q :| q in rest;
      if m[q] > mx {
        mx := m[q];
      }
      rest := rest - {q};
    }
  }

  /** `for q in scores: scores[q] /= mx`, in place on the map. */
  method DivideAll(m: ScoreMap, mx: real) returns (r: ScoreMap)
    requires m != map[] && Positive(m) && IsMax(m, mx)
    ensures r == Normalize(m)
  {
    r := m;
    var todo := m.Keys;
    while todo != {}
      invariant todo <= m.Keys && r.Keys == m.Keys
      invariant forall q :: q in m && q !in todo ==> r[q] == m[q] / mx
      invariant forall q :: q in todo ==> r[q] == m[q]
      decreases todo
    {
      var q :| q in todo;
      r := r[q := r[q] / mx];
      todo := todo - {q};
    }
    MaxUnique(m, mx, MaxValue(m));
  }
}
