/** The cost matrix of the noise-aware layout: one row per logical qubit and
    one column per physical qubit, each entry the logical qubit's criticality
    (0 when it has none) times the physical qubit's gate error. */
module Layout {
  import opened Circuits

  /** The cost of placing logical qubit `lq` on physical qubit `pq`. */
  function Cost(crit: map<nat, real>, gateError: map<nat, real>, lq: nat, pq: nat): real
    requires pq in gateError
  {
    Get(crit, lq) * gateError[pq]
  }

  /** The matrix the layout's nested loops build, row by row. */
  function Matrix(logical: seq<nat>, physical: seq<nat>, crit: map<nat, real>, gateError: map<nat, real>)
    : (m: seq<seq<real>>)
    requires forall p :: p in physical ==> p in gateError
    ensures |m| == |logical|
    ensures forall l :: 0 <= l < |logical| ==> |m[l]| == |physical|
  {
    seq(|logical|, l requires 0 <= l < |logical| =>
      seq(|physical|, p requires 0 <= p < |physical| => Cost(crit, gateError, logical[l], physical[p])))
  }

  /** The nested loops: one row per logical qubit, one entry per physical qubit. */
  method CostMatrix(logical: seq<nat>, physical: seq<nat>, crit: map<nat, real>, gateError: map<nat, real>)
    returns (cost: seq<seq<real>>)
    requires forall p :: p in physical ==> p in gateError
    ensures cost == Matrix(logical, physical, crit, gateError)
  {
    cost := [];
    for l := 0 to |logical|
      invariant |cost| == l
      invariant forall i :: 0 <= i < l ==> cost[i] == Matrix(logical, physical, crit, gateError)[i]
    {
      var criticality := if logical[l] in crit then crit[logical[l]] else 0.0;
      var costs: seq<real> := [];
      for p := 0 to |physical|
        invariant |costs| == p
        invariant forall j :: 0 <= j < p ==> costs[j] == Cost(crit, gateError, logical[l], physical[j])
      {
        costs := costs + [criticality * gateError[physical[p]]];
      }
      cost := cost + [costs];
    }
  }

  /** A logical qubit without a criticality score costs nothing anywhere. */
  lemma ZeroRow(logical: seq<nat>, physical: seq<nat>, crit: map<nat, real>, gateError: map<nat, real>, l: nat)
    requires forall p :: p in physical ==> p in gateError
    requires l < |logical| && logical[l] !in crit
    ensures forall p :: 0 <= p < |physical| ==> Matrix(logical, physical, crit, gateError)[l][p] == 0.0
  {
  }

  lemma MulMonotone(a: real, b: real, c: real)
    requires a <= b && c >= 0.0
    ensures a * c <= b * c
  {
  }

  /** With non-negative gate errors, a more critical qubit costs at least as much
      on every physical qubit, and with non-negative criticalities, a noisier
      physical qubit costs at least as much for every logical qubit. */
  lemma CostMonotone(logical: seq<nat>, physical: seq<nat>, crit: map<nat, real>, gateError: map<nat, real>)
    requires forall p :: p in physical ==> p in gateError
    ensures var m := Matrix(logical, physical, crit, gateError);
      forall a, b, p ::
        (0 <= a < |logical| && 0 <= b < |logical| && 0 <= p < |physical| &&
         gateError[physical[p]] >= 0.0 && Get(crit, logical[a]) <= Get(crit, logical[b]))
        ==> m[a][p] <= m[b][p]
    ensures var m := Matrix(logical, physical, crit, gateError);
      forall l, p, s ::
        (0 <= l < |logical| && 0 <= p < |physical| && 0 <= s < |physical| &&
         Get(crit, logical[l]) >= 0.0 && gateError[physical[p]] <= gateError[physical[s]])
        ==> m[l][p] <= m[l][s]
  {
    var m := Matrix(logical, physical, crit, gateError);
    forall a, b, p | 0 <= a < |logical| && 0 <= b < |logical| && 0 <= p < |physical| &&
        gateError[physical[p]] >= 0.0 && Get(crit, logical[a]) <= Get(crit, logical[b])
      ensures m[a][p] <= m[b][p]
    {
      MulMonotone(Get(crit, logical[a]), Get(crit, logical[b]), gateError[physical[p]]);
    }
    forall l, p, s | 0 <= l < |logical| && 0 <= p < |physical| && 0 <= s < |physical| &&
        Get(crit, logical[l]) >= 0.0 && gateError[physical[p]] <= gateError[physical[s]]
      ensures m[l][p] <= m[l][s]
    {
      MulMonotone(gateError[physical[p]], gateError[physical[s]], Get(crit, logical[l]));
      assert Get(crit, logical[l]) * gateError[physical[p]] == gateError[physical[p]] * Get(crit, logical[l]);
      assert Get(crit, logical[l]) * gateError[physical[s]] == gateError[physical[s]] * Get(crit, logical[l]);
    }
  }
}
