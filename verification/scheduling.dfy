/** The priority list scheduler. Operations are the ids 0 .. n-1 of a
    dependency graph, each with the set of operations it depends on; an
    operation's priority is the largest criticality among its qubits. The
    scheduler repeatedly emits a ready operation of largest priority, where an
    operation is ready once everything it depends on has been emitted. */
module Scheduling {
  import opened Circuits

  /** The largest criticality among an operation's qubits, a qubit without a
      score counting 0; `max` over no qubits fails. */
  function Priority(qs: seq<nat>, crit: map<nat, real>): (r: Result<real>)
    ensures r.Err? <==> qs == []
    ensures r.Err? ==> r.error == EmptyScores
    ensures r.Ok? ==> forall q :: q in qs ==> Get(crit, q) <= r.value
    ensures r.Ok? ==> exists q :: q in qs && Get(crit, q) == r.value
    decreases |qs|
  {
    if qs == [] then Err(EmptyScores)
    else
      var n := |qs| - 1;
      var last := Get(crit, qs[n]);
      assert qs == qs[..n] + [qs[n]];
      match Priority(qs[..n], crit)
      case Err(_) => Ok(last)
      case Ok(p) => Ok(if p < last then last else p)
  }

  /** The priority of every operation, indexed by operation id. */
  method AssignOperationPriorities(opQubits: seq<seq<nat>>, crit: map<nat, real>) returns (r: Result<seq<real>>)
    ensures r.Err? <==> exists i :: 0 <= i < |opQubits| && opQubits[i] == []
    ensures r.Err? ==> r.error == EmptyScores
    ensures r.Ok? ==> |r.value| == |opQubits|
    ensures r.Ok? ==> forall i :: 0 <= i < |opQubits| ==> Priority(opQubits[i], crit) == Ok(r.value[i])
  {
    var priorities: seq<real> := [];
    for i := 0 to |opQubits|
      invariant |priorities| == i
      invariant forall j :: 0 <= j < i ==> Priority(opQubits[j], crit) == Ok(priorities[j])
    {
      var p := Priority(opQubits[i], crit);
      if p.Err? {
        return Err(EmptyScores);
      }
      priorities := priorities + [p.value];
    }
    return Ok(priorities);
  }

  /** Every dependency names an operation of the graph. */
  predicate WellFormed(preds: seq<set<nat>>)
  {
    forall i, p :: 0 <= i < |preds| && p in preds[i] ==> p < |preds|
  }

  /** The operations not yet emitted all of whose dependencies have been emitted. */
  function ReadySet(preds: seq<set<nat>>, done: set<nat>): (r: set<nat>)
    ensures forall i :: i in r ==> i < |preds|
  {
    set i | 0 <= i < |preds| && i !in done && preds[i] <= done
  }

  /** `order` is a run of the scheduler: each operation was ready when it was
      emitted and had the largest priority among the operations ready then. */
  predicate Greedy(preds: seq<set<nat>>, prio: seq<real>, order: seq<nat>)
    requires |prio| == |preds|
  {
    forall k :: 0 <= k < |order| ==>
      order[k] in ReadySet(preds, Elems(order[..k])) &&
      forall j :: j in ReadySet(preds, Elems(order[..k])) ==> prio[j] <= prio[order[k]]
  }

  /** Operation `i` depends on some operation of `waiting`. */
  predicate Waits(preds: seq<set<nat>>, waiting: set<nat>, i: nat)
  {
    i < |preds| && exists p :: p in preds[i] && p in waiting
  }

  /** A non-empty set of operations each of which waits for another one in the set. */
  predicate Stuck(preds: seq<set<nat>>, waiting: set<nat>)
  {
    waiting != {} && forall i {:trigger Waits(preds, waiting, i)} :: i in waiting ==> Waits(preds, waiting, i)
  }

  /** A ranking under which every operation comes after everything it depends on:
      the graph has no cycle. */
  predicate Ranked(preds: seq<set<nat>>, rank: seq<nat>)
  {
    |rank| == |preds| && WellFormed(preds) &&
    forall i, p :: 0 <= i < |preds| && p in preds[i] ==> rank[p] < rank[i]
  }

  lemma MaxExists(s: set<nat>, prio: seq<real>)
    requires s != {} && forall i :: i in s ==> i < |prio|
    ensures exists m :: m in s && forall j :: j in s ==> prio[j] <= prio[m]
    decreases s
  {
    var x :| x in s;
    if s != {x} {
      MaxExists(s - {x}, prio);
      var m :| m in s - {x} && forall j :: j in s - {x} ==> prio[j] <= prio[m];
      if prio[m] < prio[x] {
        assert forall j :: j in s ==> prio[j] <= prio[x];
      } else {
        assert forall j :: j in s ==> prio[j] <= prio[m];
      }
    }
  }

  lemma ElemsSnoc(order: seq<nat>, x: nat)
    ensures Elems(order + [x]) == Elems(order) + {x}
  {
    assert forall q :: q in order + [x] <==> q in order || q == x;
  }

  lemma GreedySnoc(preds: seq<set<nat>>, prio: seq<real>, order: seq<nat>, x: nat)
    requires |prio| == |preds| && Greedy(preds, prio, order)
    requires x in ReadySet(preds, Elems(order))
    requires forall j :: j in ReadySet(preds, Elems(order)) ==> prio[j] <= prio[x]
    ensures Greedy(preds, prio, order + [x])
  {
    var o := order + [x];
    forall k | 0 <= k < |o|
      ensures o[k] in ReadySet(preds, Elems(o[..k]))
      ensures forall j :: j in ReadySet(preds, Elems(o[..k])) ==> prio[j] <= prio[o[k]]
    {
      if k < |order| {
        assert o[..k] == order[..k];
      } else {
        assert o[..k] == order;
      }
    }
  }

  /** After emitting `next`, the ready set loses `next` and gains exactly the
      dependants of `next` whose dependencies have now all been emitted. */
  lemma ReadyAfter(preds: seq<set<nat>>, done: set<nat>, next: nat)
    requires next in ReadySet(preds, done)
    requires forall i :: i in done ==> i < |preds| && preds[i] <= done
    ensures ReadySet(preds, done + {next}) ==
      ReadySet(preds, done) - {next} +
      NewlyReady(preds, next, done + {next})
  {
    var d := done + {next};
    var lhs := ReadySet(preds, d);
    var rhs := ReadySet(preds, done) - {next} +
      NewlyReady(preds, next, d);
    forall i | i in lhs ensures i in rhs {
      if next !in preds[i] {
        assert preds[i] <= done;
      }
    }
    forall i | i in rhs ensures i in lhs {
      if i in ReadySet(preds, done) - {next} {
        assert i !in d;
      } else {
        assert next in preds[i];
        assert i != next;
        assert i !in done;
      }
    }
  }

  /** The operations that depend on `next` and all of whose dependencies are in `done`. */
  function NewlyReady(preds: seq<set<nat>>, next: nat, done: set<nat>): set<nat>
  {
    set s | 0 <= s < |preds| && next in preds[s] && preds[s] <= done
  }

  method AddReadySuccessors(preds: seq<set<nat>>, ready: set<nat>, scheduled: set<nat>, next: nat)
    returns (r: set<nat>)
    ensures r == ready + NewlyReady(preds, next, scheduled)
  {
    var succ := set s | 0 <= s < |preds| && next in preds[s];
    var todo := succ;
    r := ready;
    while todo != {}
      invariant todo <= succ
      invariant r == ready + (set s | s in succ && s !in todo && preds[s] <= scheduled)
      decreases todo
    {
      var s :| s in todo;
      if preds[s] <= scheduled {
        r := r + {s};
      }
      todo := todo - {s};
    }
  }

  /** The scheduler's bookkeeping after emitting `order`: `scheduled` holds
      exactly the emitted operations, each once, together with everything they
      depend on, and the emission so far is a run of the scheduler. */
  predicate Emitted(preds: seq<set<nat>>, prio: seq<real>, order: seq<nat>, scheduled: set<nat>)
  {
    |prio| == |preds| && scheduled == Elems(order) && |order| == |scheduled| &&
    (forall i :: i in scheduled ==> i < |preds| && preds[i] <= scheduled) &&
    Greedy(preds, prio, order)
  }

  /** Emitting a ready operation of largest priority keeps the bookkeeping. */
  lemma EmitStep(preds: seq<set<nat>>, prio: seq<real>, order: seq<nat>, scheduled: set<nat>, next: nat)
    requires Emitted(preds, prio, order, scheduled)
    requires next in ReadySet(preds, scheduled)
    requires forall o :: o in ReadySet(preds, scheduled) ==> prio[o] <= prio[next]
    ensures Emitted(preds, prio, order + [next], scheduled + {next})
    ensures ReadySet(preds, scheduled + {next}) ==
      ReadySet(preds, scheduled) - {next} +
      NewlyReady(preds, next, scheduled + {next})
  {
    ReadyAfter(preds, scheduled, next);
    GreedySnoc(preds, prio, order, next);
    ElemsSnoc(order, next);
    assert |scheduled + {next}| == |scheduled| + 1;
  }

  /** The scheduler: the emission order of the operation ids, or the operations
      left waiting when none is ready. */
  method PriorityBasedScheduler(preds: seq<set<nat>>, prio: seq<real>) returns (r: Result<seq<nat>>)
    requires WellFormed(preds) && |prio| == |preds|
    ensures r.Ok? ==> |r.value| == |preds| && Greedy(preds, prio, r.value)
    ensures r.Err? ==> r.error.NoReadyNodes? && Stuck(preds, r.error.stuck)
    ensures (exists rank :: Ranked(preds, rank)) ==> r.Ok?
  {
    var n := |preds|;
    var unscheduled := Ids(n);
    var ready := set i | 0 <= i < n && preds[i] == {};
    var scheduled: set<nat> := {};
    var order: seq<nat> := [];
    assert ready == ReadySet(preds, scheduled);
    while unscheduled != {}
      invariant Emitted(preds, prio, order, scheduled)
      invariant unscheduled == Ids(n) - scheduled
      invariant ready == ReadySet(preds, scheduled)
      decreases |unscheduled|
    {
      if ready == {} {
        StuckWhenNoneReady(preds, scheduled, unscheduled);
        StuckMeansCycle(preds, unscheduled);
        return Err(NoReadyNodes(unscheduled));
      }
      var next := HighestPriority(ready, prio);
      assert next in unscheduled;
      EmitStep(preds, prio, order, scheduled, next);
      RemoveOne(unscheduled, Ids(n), scheduled, next);
      ready := ready - {next};
      unscheduled := unscheduled - {next};
      scheduled := scheduled + {next};
      order := order + [next];
      ready := AddReadySuccessors(preds, ready, scheduled, next);
    }
    assert scheduled == Ids(n);
    return Ok(order);
  }

  /** A ready operation of largest priority. */
  method HighestPriority(ready: set<nat>, prio: seq<real>) returns (next: nat)
    requires ready != {} && forall o :: o in ready ==> o < |prio|
    ensures next in ready && forall o :: o in ready ==> prio[o] <= prio[next]
  {
    MaxExists(ready, prio);
    next :| next in ready && forall o :: o in ready ==> prio[o] <= prio[next];
  }

  lemma StuckMeansCycle(preds: seq<set<nat>>, waiting: set<nat>)
    requires Stuck(preds, waiting)
    ensures !exists rank :: Ranked(preds, rank)
  {
    if exists rank :: Ranked(preds, rank) {
      var rank :| Ranked(preds, rank);
      RankedNeverStuck(preds, rank, waiting);
    }
  }

  lemma RemoveOne(rest: set<nat>, all: set<nat>, done: set<nat>, x: nat)
    requires rest == all - done
    ensures rest - {x} == all - (done + {x})
  {
  }

  /** The operation ids 0 .. n-1. */
  function Ids(n: nat): (s: set<nat>)
    ensures forall i: nat :: i in s <==> i < n
    ensures |s| == n
  {
    if n == 0 then {} else
      var s := Ids(n - 1);
      assert n - 1 !in s;
      s + {n - 1}
  }

  /** With nothing ready, every operation left waits for another one left. */
  lemma StuckWhenNoneReady(preds: seq<set<nat>>, scheduled: set<nat>, unscheduled: set<nat>)
    requires WellFormed(preds)
    requires unscheduled != {} && unscheduled == Ids(|preds|) - scheduled
    requires ReadySet(preds, scheduled) == {}
    ensures Stuck(preds, unscheduled)
  {
    forall i | i in unscheduled ensures Waits(preds, unscheduled, i) {
      assert i !in ReadySet(preds, scheduled);
      var p :| p in preds[i] && p !in scheduled;
      assert p < |preds|;
    }
  }

  lemma {:induction false} NoneStuckBelow(preds: seq<set<nat>>, rank: seq<nat>, waiting: set<nat>, b: nat)
    requires Ranked(preds, rank)
    ensures Stuck(preds, waiting) ==> forall i :: i in waiting && i < |rank| ==> rank[i] >= b
  {
    if b > 0 && Stuck(preds, waiting) {
      NoneStuckBelow(preds, rank, waiting, b - 1);
      forall i | i in waiting && i < |rank| ensures rank[i] >= b {
        assert Waits(preds, waiting, i);
        var p :| p in preds[i] && p in waiting;
      }
    }
  }

  /** An acyclic graph never leaves the scheduler without a ready operation. */
  lemma RankedNeverStuck(preds: seq<set<nat>>, rank: seq<nat>, waiting: set<nat>)
    requires Ranked(preds, rank)
    ensures !Stuck(preds, waiting)
  {
    if Stuck(preds, waiting) {
      var i :| i in waiting;
      assert Waits(preds, waiting, i);
      NoneStuckBelow(preds, rank, waiting, rank[i] + 1);
    }
  }

  /** A complete run emits every operation exactly once. */
  lemma GreedyIsPermutation(preds: seq<set<nat>>, prio: seq<real>, order: seq<nat>)
    requires |prio| == |preds| && Greedy(preds, prio, order) && |order| == |preds|
    ensures Distinct(order)
    ensures forall i: nat :: i < |preds| <==> i in order
  {
    forall a, b | 0 <= a < b < |order| ensures order[a] != order[b] {
      assert order[b] in ReadySet(preds, Elems(order[..b]));
      assert order[a] in order[..b];
    }
    DistinctCovers(order, |preds|);
  }

  lemma {:induction false} DistinctCovers(order: seq<nat>, n: nat)
    requires Distinct(order) && |order| == n && forall k :: 0 <= k < |order| ==> order[k] < n
    ensures forall i: nat :: i < n <==> i in order
  {
    var s := Elems(order);
    DistinctSize(order);
    assert s <= Ids(n);
    SubsetSameSize(s, Ids(n));
    forall i: nat | i < n ensures i in order {
      assert i in Ids(n);
    }
  }

  lemma {:induction false} DistinctSize(order: seq<nat>)
    requires Distinct(order)
    ensures |Elems(order)| == |order|
    decreases |order|
  {
    if order != [] {
      var n := |order| - 1;
      DistinctSize(order[..n]);
      assert order == order[..n] + [order[n]];
      ElemsSnoc(order[..n], order[n]);
      assert order[n] !in order[..n];
    }
  }

  lemma {:induction false} SubsetSize(a: set<nat>, b: set<nat>)
    requires a <= b
    ensures |a| <= |b|
    decreases a
  {
    if a != {} {
      var x :| x in a;
      SubsetSize(a - {x}, b - {x});
    }
  }

  lemma SubsetSameSize(a: set<nat>, b: set<nat>)
    requires a <= b && |a| == |b|
    ensures a == b
  {
    if a != b {
      var x :| x in b && x !in a;
      SubsetSize(a, b - {x});
    }
  }

  /** Every operation is emitted after everything it depends on. */
  lemma GreedyIsTopological(preds: seq<set<nat>>, prio: seq<real>, order: seq<nat>)
    requires |prio| == |preds| && Greedy(preds, prio, order)
    ensures forall k, p :: 0 <= k < |order| && p in preds[order[k]] ==> p in order[..k]
  {
    forall k, p | 0 <= k < |order| && p in preds[order[k]] ensures p in order[..k] {
      assert order[k] in ReadySet(preds, Elems(order[..k]));
    }
  }

  /** The first operation emitted is one without dependencies. */
  lemma FirstIsInitiallyReady(preds: seq<set<nat>>, prio: seq<real>, order: seq<nat>)
    requires |prio| == |preds| && Greedy(preds, prio, order) && order != []
    ensures order[0] < |preds| && preds[order[0]] == {}
    ensures forall j :: 0 <= j < |preds| && preds[j] == {} ==> prio[j] <= prio[order[0]]
  {
    assert order[..0] == [];
    assert Elems([]) == {};
    forall j | 0 <= j < |preds| && preds[j] == {} ensures prio[j] <= prio[order[0]] {
      assert j in ReadySet(preds, {});
    }
  }

  /** Keys of the duration table: a name alone, or a name with its operands. */
  datatype DurationKey = ByName(name: string) | ByGate(name: string, qargs: seq<nat>)

  /** The default duration in ns: 200 for a multi-qubit operation, 50 otherwise. */
  function DefaultDuration(qargs: seq<nat>): nat
  {
    if |qargs| > 1 then 200 else 50
  }

  /** The known durations give none for this operation: the lookup fails or yields None. */
  predicate Missing(lookup: map<(string, seq<nat>), Option<nat>>, name: string, qargs: seq<nat>)
  {
    (name, qargs) !in lookup || lookup[(name, qargs)] == None
  }

  /** The by-name entries, copied as they are. */
  function ByNameTable(byName: map<string, Option<nat>>): map<DurationKey, Option<nat>>
  {
    map name | name in byName :: ByName(name) := byName[name]
  }

  /** The duration table after the instructions `ops`: the by-name entries, then
      a default entry for every instruction whose duration is missing. */
  function Durations(byName: map<string, Option<nat>>, lookup: map<(string, seq<nat>), Option<nat>>,
                     ops: seq<Instr>): map<DurationKey, Option<nat>>
  {
    if ops == [] then ByNameTable(byName)
    else
      var n := |ops| - 1;
      var m := Durations(byName, lookup, ops[..n]);
      if Missing(lookup, ops[n].name, ops[n].qubits) then
        m[ByGate(ops[n].name, ops[n].qubits) := Some(DefaultDuration(ops[n].qubits))]
      else m
  }

  lemma DurationsStep(byName: map<string, Option<nat>>, lookup: map<(string, seq<nat>), Option<nat>>,
                      ops: seq<Instr>, i: nat)
    requires i < |ops|
    ensures var m := Durations(byName, lookup, ops[..i]);
      Durations(byName, lookup, ops[..i + 1]) ==
        if Missing(lookup, ops[i].name, ops[i].qubits) then
          m[ByGate(ops[i].name, ops[i].qubits) := Some(DefaultDuration(ops[i].qubits))]
        else m
  {
    assert ops[..i + 1][..i] == ops[..i];
  }

  /** The update loop: the by-name table, then a default entry for each
      instruction whose duration is missing. */
  method AddMissingDurations(byName: map<string, Option<nat>>, lookup: map<(string, seq<nat>), Option<nat>>,
                             ops: seq<Instr>) returns (updated: map<DurationKey, Option<nat>>)
    ensures updated == Durations(byName, lookup, ops)
  {
    updated := ByNameTable(byName);
    assert ops[..0] == [];
    for i := 0 to |ops|
      invariant updated == Durations(byName, lookup, ops[..i])
    {
      DurationsStep(byName, lookup, ops, i);
      var name, qargs := ops[i].name, ops[i].qubits;
      if (name, qargs) !in lookup || lookup[(name, qargs)] == None {
        var duration := if |qargs| > 1 then 200 else 50;
        updated := updated[ByGate(name, qargs) := Some(duration)];
      }
    }
    assert ops[..|ops|] == ops;
  }

  /** Every by-name entry is kept as it is: the added entries are keyed by gate. */
  lemma {:induction false} DurationsKeepByName(byName: map<string, Option<nat>>,
                                               lookup: map<(string, seq<nat>), Option<nat>>, ops: seq<Instr>)
    ensures forall name :: name in byName ==>
      ByName(name) in Durations(byName, lookup, ops) && Durations(byName, lookup, ops)[ByName(name)] == byName[name]
    decreases |ops|
  {
    if ops != [] {
      DurationsKeepByName(byName, lookup, ops[..|ops| - 1]);
    }
  }

  /** Every instruction whose duration is missing gets the default: 200 ns on
      several qubits, 50 ns otherwise. */
  lemma {:induction false} DurationsDefault(byName: map<string, Option<nat>>,
                                            lookup: map<(string, seq<nat>), Option<nat>>, ops: seq<Instr>)
    ensures forall i :: 0 <= i < |ops| && Missing(lookup, ops[i].name, ops[i].qubits) ==>
      ByGate(ops[i].name, ops[i].qubits) in Durations(byName, lookup, ops) &&
      Durations(byName, lookup, ops)[ByGate(ops[i].name, ops[i].qubits)] == Some(DefaultDuration(ops[i].qubits))
    decreases |ops|
  {
    if ops != [] {
      var n := |ops| - 1;
      var p := ops[..n];
      DurationsDefault(byName, lookup, p);
      forall i | 0 <= i < n && Missing(lookup, ops[i].name, ops[i].qubits)
        ensures ByGate(ops[i].name, ops[i].qubits) in Durations(byName, lookup, ops)
        ensures Durations(byName, lookup, ops)[ByGate(ops[i].name, ops[i].qubits)] == Some(DefaultDuration(ops[i].qubits))
      {
        assert p[i] == ops[i];
      }
    }
  }

  /** No other entry appears: each one is a by-name entry or the default of an
      instruction whose duration is missing. */
  lemma {:induction false} DurationsOnly(byName: map<string, Option<nat>>,
                                         lookup: map<(string, seq<nat>), Option<nat>>, ops: seq<Instr>)
    ensures forall k :: k in Durations(byName, lookup, ops) ==>
      (k.ByName? && k.name in byName) ||
      (k.ByGate? && exists i :: 0 <= i < |ops| && ops[i].name == k.name && ops[i].qubits == k.qargs &&
                                Missing(lookup, k.name, k.qargs))
    decreases |ops|
  {
    if ops != [] {
      var n := |ops| - 1;
      var p := ops[..n];
      DurationsOnly(byName, lookup, p);
      forall k | k in Durations(byName, lookup, ops)
        ensures (k.ByName? && k.name in byName) ||
          (k.ByGate? && exists i :: 0 <= i < |ops| && ops[i].name == k.name && ops[i].qubits == k.qargs &&
                                    Missing(lookup, k.name, k.qargs))
      {
        if k in Durations(byName, lookup, p) && k.ByGate? {
          var i :| 0 <= i < |p| && p[i].name == k.name && p[i].qubits == k.qargs && Missing(lookup, k.name, k.qargs);
          assert ops[i] == p[i];
        }
      }
    }
  }
}
