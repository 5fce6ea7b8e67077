/** Error-propagation analysis: from every circuit qubit a breadth-first search
    follows the directions in which an error can spread through the entangling
    gates, and the qubit's influence is the sum of 1 / (1 + depth) over every
    qubit the search reaches. The influences are divided by the largest. */
module Influence {
  import opened Circuits
  import opened Scores

  /** The operands of `op` other than `x`, in operand order. */
  function Others(qs: seq<nat>, x: nat): (r: seq<nat>)
    ensures forall y :: y in r <==> y in qs && y != x
  {
    if qs == [] then []
    else Others(qs[..|qs| - 1], x) + (if qs[|qs| - 1] != x then [qs[|qs| - 1]] else [])
  }

  /** The qubits an error on `x` spreads to through `op`, in the order they are
      enqueued: a controlled gate spreads from its controls to its targets only,
      a swap to its other operand, an entangle to all its other operands, and
      every other gate nowhere. */
  function Spreads(op: Instr, x: nat): (ts: seq<nat>)
    ensures forall t :: t in ts ==> t in op.qubits && t != x
  {
    if x !in op.qubits then []
    else if IsControlled(op.name) then
      var c := Ctrls(op);
      if x in op.qubits[..c] then
        (assert forall t :: t in op.qubits[c..] ==> t in op.qubits;
         var ts := Others(op.qubits[c..], x); ts)
      else []
    else if op.name == "swap" then
      var others := Others(op.qubits, x);
      if others == [] then [] else [others[0]]
    else if op.name == "entangle" then Others(op.qubits, x)
    else []
  }

  /** How many leading operands of a controlled gate are its controls; a
      slice past the end of the operand list stops at its end. */
  function Ctrls(op: Instr): (c: nat)
    ensures c <= |op.qubits|
  {
    if NumCtrl(op.name) <= |op.qubits| then NumCtrl(op.name) else |op.qubits|
  }

  /** Every qubit one error step away from `x`. */
  function SuccOf(ops: seq<Instr>, x: nat): set<nat>
  {
    if ops == [] then {}
    else SuccOf(ops[..|ops| - 1], x) + Elems(Spreads(ops[|ops| - 1], x))
  }

  /** Every qubit one error step away from some qubit of `f`. */
  function SuccSet(ops: seq<Instr>, f: set<nat>): set<nat>
  {
    set q, r | q in f && r in SuccOf(ops, q) :: r
  }

  lemma SuccOfStep(ops: seq<Instr>, i: nat, x: nat)
    requires i < |ops|
    ensures SuccOf(ops[..i + 1], x) == SuccOf(ops[..i], x) + Elems(Spreads(ops[i], x))
    ensures x !in ops[i].qubits ==> SuccOf(ops[..i + 1], x) == SuccOf(ops[..i], x)
  {
    assert ops[..i + 1][..i] == ops[..i];
  }

  lemma {:induction false} SuccOfBounded(ops: seq<Instr>, x: nat)
    ensures SuccOf(ops, x) <= QubitsOf(ops)
    decreases |ops|
  {
    if ops != [] {
      SuccOfBounded(ops[..|ops| - 1], x);
    }
  }

  lemma SuccSetBounded(ops: seq<Instr>, f: set<nat>)
    ensures SuccSet(ops, f) <= QubitsOf(ops)
  {
    forall q | q in f ensures SuccOf(ops, q) <= QubitsOf(ops) {
      SuccOfBounded(ops, q);
    }
  }

  lemma SuccSetAdd(ops: seq<Instr>, f: set<nat>, x: nat)
    ensures SuccSet(ops, f + {x}) == SuccSet(ops, f) + SuccOf(ops, x)
  {
  }

  lemma SuccSetEmpty(ops: seq<Instr>)
    ensures SuccSet(ops, {}) == {}
  {
  }

  /** Reference semantics of the search, one depth level at a time: `frontier`
      is the set of qubits at depth `k`, `visited` all qubits at depth `k` or
      less; each level adds |frontier| / (1 + k). */
  function LevelSum(ops: seq<Instr>, visited: set<nat>, frontier: set<nat>, k: nat): real
    decreases |QubitsOf(ops) - visited|, |frontier|
  {
    if frontier == {} then 0.0
    else
      var next := SuccSet(ops, frontier) - visited;
      SuccSetBounded(ops, frontier);
      NextShrinks(ops, visited, next);
      Level(|frontier|, k) + LevelSum(ops, visited + next, next, k + 1)
  }

  /** The set of qubits the search has reached when it has exhausted every level. */
  function LevelVisited(ops: seq<Instr>, visited: set<nat>, frontier: set<nat>): set<nat>
    decreases |QubitsOf(ops) - visited|, |frontier|
  {
    if frontier == {} then visited
    else
      var next := SuccSet(ops, frontier) - visited;
      SuccSetBounded(ops, frontier);
      NextShrinks(ops, visited, next);
      LevelVisited(ops, visited + next, next)
  }

  /** What `size` qubits at depth `k` add: 1 / (1 + k) each. */
  function Level(size: nat, k: nat): real
  {
    if size == 0 then 0.0 else Level(size - 1, k) + 1.0 / (1 + k) as real
  }

  lemma NextShrinks(ops: seq<Instr>, visited: set<nat>, next: set<nat>)
    requires next <= QubitsOf(ops) && next !! visited
    ensures |QubitsOf(ops) - (visited + next)| + |next| == |QubitsOf(ops) - visited|
  {
    var u := QubitsOf(ops);
    assert u - visited == (u - (visited + next)) + next;
  }

  /** The raw influence of `source`: its search from depth 0. */
  function Reach(ops: seq<Instr>, source: nat): real
  {
    LevelSum(ops, {source}, {source}, 0)
  }

  /** The qubits the search from `source` reaches. */
  function Reached(ops: seq<Instr>, source: nat): set<nat>
  {
    LevelVisited(ops, {source}, {source})
  }

  lemma LevelStep(c: nat, k: nat)
    ensures Level(c, k) + 1.0 / (1 + k) as real == Level(c + 1, k)
  {
  }

  /** Queue entries for the qubits `xs`, all at depth `d`. */
  function Tag(xs: seq<nat>, d: nat): (q: seq<(nat, nat)>)
    ensures |q| == |xs| && forall i :: 0 <= i < |xs| ==> q[i] == (xs[i], d)
  {
    seq(|xs|, i requires 0 <= i < |xs| => (xs[i], d))
  }

  lemma TagAppend(a: seq<nat>, b: seq<nat>, d: nat)
    ensures Tag(a, d) + Tag(b, d) == Tag(a + b, d)
  {
  }

  lemma TagPop(a: seq<nat>, b: seq<nat>, k: nat)
    requires a != []
    ensures (Tag(a, k) + Tag(b, k + 1))[0] == (a[0], k)
    ensures (Tag(a, k) + Tag(b, k + 1))[1..] == Tag(a[1..], k) + Tag(b, k + 1)
  {
  }

  /** One operand list: each qubit of `ts` not yet visited is marked visited and
      enqueued at depth `d`; `added` lists those qubits in enqueue order. */
  method EnqueueNew(ts: seq<nat>, visited: set<nat>, queue: seq<(nat, nat)>, order: seq<nat>, d: nat)
    returns (visited': set<nat>, queue': seq<(nat, nat)>, order': seq<nat>, ghost added: seq<nat>)
    ensures visited' == visited + Elems(ts)
    ensures Unique(added) && Elems(added) == Elems(ts) - visited
    ensures queue' == queue + Tag(added, d) && order' == order + added
  {
    visited', queue', order', added := visited, queue, order, [];
    for j := 0 to |ts|
      invariant visited' == visited + Elems(ts[..j])
      invariant Unique(added) && Elems(added) == Elems(ts[..j]) - visited
      invariant queue' == queue + Tag(added, d) && order' == order + added
    {
      var t := ts[j];
      assert Elems(ts[..j + 1]) == Elems(ts[..j]) + {t} by {
        assert ts[..j + 1] == ts[..j] + [t];
      }
      if t !in visited' {
        TagAppend(added, [t], d);
        UniqueAppend(added, [t]);
        visited' := visited' + {t};
        queue' := queue' + [(t, d)];
        order' := order' + [t];
        added := added + [t];
      }
    }
    assert ts[..|ts|] == ts;
  }

  /** Every instruction that names `current`: enqueue the qubits it spreads to. */
  method Expand(ops: seq<Instr>, current: nat, visited: set<nat>, queue: seq<(nat, nat)>, order: seq<nat>, d: nat)
    returns (visited': set<nat>, queue': seq<(nat, nat)>, order': seq<nat>, ghost added: seq<nat>)
    ensures visited' == visited + SuccOf(ops, current)
    ensures Unique(added) && Elems(added) == SuccOf(ops, current) - visited
    ensures queue' == queue + Tag(added, d) && order' == order + added
  {
    visited', queue', order', added := visited, queue, order, [];
    for i := 0 to |ops|
      invariant ExpandState(ops[..i], current, visited, queue, order, d, visited', queue', order', added)
    {
      var op := ops[i];
      SuccOfStep(ops, i, current);
      if current in op.qubits {
        ghost var more;
        ghost var v0, q0, o0 := visited', queue', order';
        visited', queue', order', more := EnqueueNew(Spreads(op, current), visited', queue', order', d);
        ExpandStep(ops[..i], ops[..i + 1], current, visited, queue, order, d, v0, q0, o0, added,
                   Spreads(op, current), visited', queue', order', more);
        added := added + more;
      }
    }
    assert ops[..|ops|] == ops;
  }

  /** What `Expand` has enqueued once it has gone through the instructions `ops`. */
  ghost predicate ExpandState(ops: seq<Instr>, x: nat, visited: set<nat>, queue: seq<(nat, nat)>,
    order: seq<nat>, d: nat, visited': set<nat>, queue': seq<(nat, nat)>, order': seq<nat>, added: seq<nat>)
  {
    && visited' == visited + SuccOf(ops, x)
    && Unique(added) && Elems(added) == SuccOf(ops, x) - visited
    && queue' == queue + Tag(added, d) && order' == order + added
  }

  /** One instruction that names `x` and spreads it to `ts`. */
  lemma ExpandStep(ops: seq<Instr>, ops': seq<Instr>, x: nat, visited: set<nat>, queue: seq<(nat, nat)>,
    order: seq<nat>, d: nat, v0: set<nat>, q0: seq<(nat, nat)>, o0: seq<nat>, added: seq<nat>,
    ts: seq<nat>, v1: set<nat>, q1: seq<(nat, nat)>, o1: seq<nat>, more: seq<nat>)
    requires ExpandState(ops, x, visited, queue, order, d, v0, q0, o0, added)
    requires SuccOf(ops', x) == SuccOf(ops, x) + Elems(ts)
    requires v1 == v0 + Elems(ts)
    requires Unique(more) && Elems(more) == Elems(ts) - v0
    requires q1 == q0 + Tag(more, d) && o1 == o0 + more
    ensures ExpandState(ops', x, visited, queue, order, d, v1, q1, o1, added + more)
  {
    TagAppend(added, more, d);
    UniqueAppend(added, more);
    Assoc(queue, Tag(added, d), Tag(more, d));
    Assoc(order, added, more);
  }

  /** The state of the search between two dequeues, in three independent parts
      and the link between them: the queue holds the rest `rem` of depth level
      `k`, then the qubits `nxt` found so far at level k + 1, and it runs dry
      only once level k has no more qubits. */
  ghost predicate SearchState(ops: seq<Instr>, source: nat, queue: seq<(nat, nat)>, visited: set<nat>,
    order: seq<nat>, score: real, k: nat, vk: set<nat>, lk: set<nat>, done: set<nat>,
    rem: seq<nat>, nxt: seq<nat>, base: real, popped: set<nat>)
  {
    && QueueState(queue, k, rem, nxt)
    && SetState(ops, source, visited, order, vk, lk, done, rem, nxt, popped)
    && ScoreState(ops, source, score, k, vk, lk, done, base)
    && (rem == [] ==> nxt == [] && lk == {})
  }

  /** The queue lists level k's remaining qubits at depth k, then level k + 1's at depth k + 1. */
  ghost predicate QueueState(queue: seq<(nat, nat)>, k: nat, rem: seq<nat>, nxt: seq<nat>)
  {
    queue == Tag(rem, k) + Tag(nxt, k + 1)
  }

  /** `vk` holds every qubit of level k or less, `lk` level k itself, `done` the
      part of level k already dequeued and `popped` every qubit dequeued so far;
      the queue and `order` hold each visited qubit once. */
  ghost predicate SetState(ops: seq<Instr>, source: nat, visited: set<nat>, order: seq<nat>,
    vk: set<nat>, lk: set<nat>, done: set<nat>, rem: seq<nat>, nxt: seq<nat>, popped: set<nat>)
  {
    && Unique(rem) && Unique(nxt)
    && done <= lk <= vk <= QubitsOf(ops) + {source}
    && popped == (vk - lk) + done
    && Elems(rem) == lk - done
    && Elems(nxt) == SuccSet(ops, done) - vk
    && visited == vk + Elems(nxt)
    && Unique(order) && Elems(order) == visited
  }

  /** The score so far, `base` for the levels before k plus the dequeued part of
      level k, and what the reference sum still adds from level k on. */
  ghost predicate ScoreState(ops: seq<Instr>, source: nat, score: real, k: nat,
    vk: set<nat>, lk: set<nat>, done: set<nat>, base: real)
  {
    && score == base + Level(|done|, k)
    && base + LevelSum(ops, vk, lk, k) == Reach(ops, source)
    && LevelVisited(ops, vk, lk) == Reached(ops, source)
  }

  /** The front of a non-empty queue is the first remaining qubit of level k. */
  lemma QueueFront(queue: seq<(nat, nat)>, k: nat, rem: seq<nat>, nxt: seq<nat>, current: nat, depth: nat)
    requires QueueState(queue, k, rem, nxt) && (rem == [] ==> nxt == [])
    requires queue != [] && queue[0] == (current, depth)
    ensures rem != [] && current == rem[0] && depth == k
  {
    assert |queue| == |rem| + |nxt|;
    TagPop(rem, nxt, k);
  }

  /** Dequeuing the front of the queue and enqueueing `added` at the next depth. */
  lemma AdvanceQueue(queue: seq<(nat, nat)>, k: nat, rem: seq<nat>, nxt: seq<nat>,
    depth: nat, added: seq<nat>, queue': seq<(nat, nat)>)
    requires QueueState(queue, k, rem, nxt) && rem != [] && depth == k
    requires queue' == queue[1..] + Tag(added, depth + 1)
    ensures QueueState(queue', k, rem[1..], nxt + added)
  {
    TagPop(rem, nxt, k);
    TagAppend(nxt, added, k + 1);
    Assoc(Tag(rem[1..], k), Tag(nxt, k + 1), Tag(added, k + 1));
  }

  /** Dequeuing the front qubit of level k and marking what it spreads to. */
  lemma AdvanceSets(ops: seq<Instr>, source: nat, visited: set<nat>, order: seq<nat>,
    vk: set<nat>, lk: set<nat>, done: set<nat>, rem: seq<nat>, nxt: seq<nat>, popped: set<nat>,
    current: nat, added: seq<nat>, visited': set<nat>, order': seq<nat>)
    requires SetState(ops, source, visited, order, vk, lk, done, rem, nxt, popped)
    requires rem != [] && current == rem[0]
    requires Unique(added) && Elems(added) == SuccOf(ops, current) - visited
    requires visited' == visited + SuccOf(ops, current) && order' == order + added
    ensures current in lk && current !in done
    ensures current in QubitsOf(ops) + {source} && current !in popped
    ensures SetState(ops, source, visited', order', vk, lk, done + {current}, rem[1..], nxt + added,
                     popped + {current})
  {
    PopFacts(rem);
    UniqueAppend(nxt, added);
    UniqueAppend(order, added);
    SuccSetAdd(ops, done, current);
    assert Elems(nxt + added) == SuccSet(ops, done + {current}) - vk;
  }

  /** Dequeuing adds 1 / (1 + k) for the qubit taken from level k. */
  lemma AdvanceScore(ops: seq<Instr>, source: nat, score: real, k: nat,
    vk: set<nat>, lk: set<nat>, done: set<nat>, base: real, current: nat, depth: nat, score': real)
    requires ScoreState(ops, source, score, k, vk, lk, done, base)
    requires current !in done && depth == k
    requires score' == score + 1.0 / (1 + depth) as real
    ensures ScoreState(ops, source, score', k, vk, lk, done + {current}, base)
  {
    assert |done + {current}| == |done| + 1;
    LevelStep(|done|, depth);
  }

  /** Once level k is exhausted, the qubits queued at depth k + 1 form the new level. */
  lemma SwitchQueue(queue: seq<(nat, nat)>, k: nat, nxt: seq<nat>)
    requires QueueState(queue, k, [], nxt)
    ensures QueueState(queue, k + 1, nxt, [])
  {
    var t := Tag(nxt, k + 1);
    TagEmpty(k);
    assert [] + t == t == t + [];
  }

  lemma SwitchSets(ops: seq<Instr>, source: nat, visited: set<nat>, order: seq<nat>,
    vk: set<nat>, lk: set<nat>, done: set<nat>, nxt: seq<nat>, popped: set<nat>)
    requires SetState(ops, source, visited, order, vk, lk, done, [], nxt, popped)
    ensures done == lk && Elems(nxt) == SuccSet(ops, lk) - vk
    ensures nxt == [] ==> Elems(nxt) == {}
    ensures SetState(ops, source, visited, order, vk + Elems(nxt), Elems(nxt), {}, nxt, [], popped)
  {
    Exhausted(lk, done, []);
    PoppedSwitch(vk, lk, Elems(nxt), popped);
    NextBound(ops, source, vk, lk, nxt);
    SuccSetEmpty(ops);
    ElemsEmpty();
    assert visited == (vk + Elems(nxt)) + Elems([]);
  }

  lemma SwitchScore(ops: seq<Instr>, source: nat, score: real, k: nat,
    vk: set<nat>, lk: set<nat>, nxt: seq<nat>, base: real)
    requires ScoreState(ops, source, score, k, vk, lk, lk, base)
    requires lk != {} && Elems(nxt) == SuccSet(ops, lk) - vk
    ensures ScoreState(ops, source, score, k + 1, vk + Elems(nxt), Elems(nxt), {}, score)
  {
    NextSum(ops, source, score, k, vk, lk, nxt, base);
    NextVisited(ops, source, vk, lk, nxt);
  }

  /** The last qubit of level k has been dequeued. */
  lemma Exhausted(lk: set<nat>, done: set<nat>, rem: seq<nat>)
    requires done <= lk && Elems(rem) == lk - done && rem == []
    ensures done == lk
  {
    forall x | x in lk ensures x in done {
      assert x !in Elems(rem);
    }
  }

  lemma PoppedSwitch(vk: set<nat>, lk: set<nat>, next: set<nat>, popped: set<nat>)
    requires lk <= vk && next !! vk && popped == (vk - lk) + lk
    ensures popped == ((vk + next) - next) + {}
  {
  }

  /** When level k is exhausted, level k + 1 becomes the current level: its
      qubits stay within the circuit, and the reference sums and reached sets
      carry over. */
  lemma NextBound(ops: seq<Instr>, source: nat, vk: set<nat>, lk: set<nat>, nxt: seq<nat>)
    requires vk <= QubitsOf(ops) + {source}
    requires Elems(nxt) == SuccSet(ops, lk) - vk
    ensures vk + Elems(nxt) <= QubitsOf(ops) + {source}
  {
    SuccSetBounded(ops, lk);
  }

  lemma NextSum(ops: seq<Instr>, source: nat, score: real, k: nat,
    vk: set<nat>, lk: set<nat>, nxt: seq<nat>, base: real)
    requires lk != {}
    requires Elems(nxt) == SuccSet(ops, lk) - vk
    requires score == base + Level(|lk|, k)
    requires base + LevelSum(ops, vk, lk, k) == Reach(ops, source)
    ensures score + LevelSum(ops, vk + Elems(nxt), Elems(nxt), k + 1) == Reach(ops, source)
  {
  }

  lemma NextVisited(ops: seq<Instr>, source: nat, vk: set<nat>, lk: set<nat>, nxt: seq<nat>)
    requires lk != {}
    requires Elems(nxt) == SuccSet(ops, lk) - vk
    requires LevelVisited(ops, vk, lk) == Reached(ops, source)
    ensures LevelVisited(ops, vk + Elems(nxt), Elems(nxt)) == Reached(ops, source)
  {
  }

  lemma ElemsEmpty()
    ensures Elems([]) == {}
  {
  }

  lemma TagEmpty(k: nat)
    ensures Tag([], k) == []
  {
  }

  /** The search from one qubit: a FIFO queue of (qubit, depth) pairs and a
      visited set, so that each qubit is enqueued at most once. `order` lists the
      qubits in the order they were enqueued. */
  method Search(ops: seq<Instr>, source: nat) returns (score: real, order: seq<nat>)
    ensures score == Reach(ops, source)
    ensures Distinct(order) && Elems(order) == Reached(ops, source)
  {
    var visited := {source};
    var queue := [(source, 0)];
    order := [source];
    score := 0.0;
    ghost var k: nat := 0;
    ghost var vk, lk, done, popped := {source}, {source}, {}, {};
    ghost var rem, nxt := [source], [];
    ghost var base := 0.0;
    Start(ops, source);
    while queue != []
      invariant SearchState(ops, source, queue, visited, order, score, k, vk, lk, done, rem, nxt, base, popped)
      decreases |(QubitsOf(ops) + {source}) - popped|
    {
      ghost var queue0, visited0, order0, score0 := queue, visited, order, score;
      var current, depth := queue[0].0, queue[0].1;
      queue := queue[1..];
      score := score + 1.0 / (1 + depth) as real;
      var next := depth + 1;
      ghost var queue1, added := queue, [];
      visited, queue, order, added := Expand(ops, current, visited, queue, order, next);
      k, vk, lk, done, rem, nxt, base, popped := Step(ops, source, queue0, visited0, order0, score0,
        k, vk, lk, done, rem, nxt, base, popped, current, depth, next, added, queue1, queue, visited, order, score);
    }
    Finished(ops, source, queue, visited, order, score, k, vk, lk, done, rem, nxt, base, popped);
  }

  /** One turn of the loop: dequeue the front qubit, enqueue what it spreads to,
      and move on to the next level once the current one is exhausted. */
  lemma Step(ops: seq<Instr>, source: nat, queue: seq<(nat, nat)>, visited: set<nat>,
    order: seq<nat>, score: real, k: nat, vk: set<nat>, lk: set<nat>, done: set<nat>,
    rem: seq<nat>, nxt: seq<nat>, base: real, popped: set<nat>,
    current: nat, depth: nat, next: nat, added: seq<nat>,
    queue1: seq<(nat, nat)>, queue': seq<(nat, nat)>, visited': set<nat>, order': seq<nat>, score': real)
    returns (k': nat, vk': set<nat>, lk': set<nat>, done': set<nat>, rem': seq<nat>, nxt': seq<nat>,
      base': real, popped': set<nat>)
    requires SearchState(ops, source, queue, visited, order, score, k, vk, lk, done, rem, nxt, base, popped)
    requires queue != [] && queue[0] == (current, depth)
    requires Unique(added) && Elems(added) == SuccOf(ops, current) - visited
    requires next == depth + 1 && queue1 == queue[1..] && queue' == queue1 + Tag(added, next)
    requires visited' == visited + SuccOf(ops, current) && order' == order + added
    requires score' == score + 1.0 / (1 + depth) as real
    ensures SearchState(ops, source, queue', visited', order', score', k', vk', lk', done', rem', nxt', base', popped')
    ensures |(QubitsOf(ops) + {source}) - popped'| < |(QubitsOf(ops) + {source}) - popped|
  {
    QueueFront(queue, k, rem, nxt, current, depth);
    AdvanceQueue(queue, k, rem, nxt, depth, added, queue');
    AdvanceSets(ops, source, visited, order, vk, lk, done, rem, nxt, popped, current, added, visited', order');
    AdvanceScore(ops, source, score, k, vk, lk, done, base, current, depth, score');
    Popped(QubitsOf(ops) + {source}, popped, current);
    k', vk', lk', done', rem', nxt', base', popped' :=
      k, vk, lk, done + {current}, rem[1..], nxt + added, base, popped + {current};
    if rem' == [] {
      SwitchQueue(queue', k, nxt');
      SwitchSets(ops, source, visited', order', vk, lk, done', nxt', popped');
      SwitchScore(ops, source, score', k, vk, lk, nxt', base);
      k', vk', lk', done', rem', nxt', base' := k + 1, vk + Elems(nxt'), Elems(nxt'), {}, nxt', [], score';
    }
  }

  /** The state before the first dequeue. */
  lemma Start(ops: seq<Instr>, source: nat)
    ensures SearchState(ops, source, [(source, 0)], {source}, [source], 0.0, 0, {source}, {source}, {},
                        [source], [], 0.0, {})
  {
    SuccSetEmpty(ops);
    assert Tag([source], 0) == [(source, 0)];
  }

  /** An empty queue means every level is exhausted. */
  lemma Finished(ops: seq<Instr>, source: nat, queue: seq<(nat, nat)>, visited: set<nat>,
    order: seq<nat>, score: real, k: nat, vk: set<nat>, lk: set<nat>, done: set<nat>,
    rem: seq<nat>, nxt: seq<nat>, base: real, popped: set<nat>)
    requires SearchState(ops, source, queue, visited, order, score, k, vk, lk, done, rem, nxt, base, popped)
    requires queue == []
    ensures score == Reach(ops, source)
    ensures Distinct(order) && Elems(order) == Reached(ops, source)
  {
    assert |rem| + |nxt| == 0;
    assert lk == {} && done == {};
    UniqueDistinct(order);
  }

  lemma Popped(u: set<nat>, p: set<nat>, x: nat)
    requires x in u && x !in p
    ensures |u - (p + {x})| < |u - p|
  {
    assert u - p == (u - (p + {x})) + {x};
  }

  /** No qubit occurs twice in `xs`; written from the front so that the solver
      unfolds it one element at a time. */
  predicate Unique(xs: seq<nat>)
    decreases |xs|
  {
    xs == [] || (xs[0] !in xs[1..] && Unique(xs[1..]))
  }

  lemma {:induction false} UniqueDistinct(xs: seq<nat>)
    requires Unique(xs)
    ensures Distinct(xs)
    decreases |xs|
  {
    if xs != [] {
      UniqueDistinct(xs[1..]);
      forall i, j | 0 <= i < j < |xs| ensures xs[i] != xs[j] {
        if i == 0 {
          assert xs[j] == xs[1..][j - 1];
        } else {
          assert xs[i] == xs[1..][i - 1] && xs[j] == xs[1..][j - 1];
        }
      }
    }
  }

  lemma ElemsAppend(a: seq<nat>, b: seq<nat>)
    ensures Elems(a + b) == Elems(a) + Elems(b)
  {
    forall x | x in a + b ensures x in a || x in b { }
    assert forall x :: x in a ==> x in a + b;
    assert forall x :: x in b ==> x in a + b;
  }

  lemma {:induction false} UniqueAppend(a: seq<nat>, b: seq<nat>)
    requires Unique(a) && Unique(b) && Elems(a) !! Elems(b)
    ensures Unique(a + b) && Elems(a + b) == Elems(a) + Elems(b)
    decreases |a|
  {
    ElemsAppend(a, b);
    if a == [] {
      assert a + b == b;
    } else {
      assert (a + b)[0] == a[0] && (a + b)[1..] == a[1..] + b;
      assert Elems(a[1..]) <= Elems(a) by {
        forall x | x in a[1..] ensures x in a { }
      }
      UniqueAppend(a[1..], b);
      assert a[0] in Elems(a);
    }
  }

  lemma PopFacts(rem: seq<nat>)
    requires rem != [] && Unique(rem)
    ensures rem[0] !in Elems(rem[1..]) && Unique(rem[1..])
    ensures Elems(rem) == Elems(rem[1..]) + {rem[0]}
  {
    assert rem == [rem[0]] + rem[1..];
    ElemsAppend([rem[0]], rem[1..]);
  }

  /** `y` is one error step away from `x` exactly when some instruction spreads
      an error on `x` to `y`. */
  lemma SuccOfMember(ops: seq<Instr>, x: nat, y: nat)
    ensures y in SuccOf(ops, x) <==> exists op :: op in ops && y in Spreads(op, x)
  {
    if y in SuccOf(ops, x) {
      SuccOfSound(ops, x, y);
    }
    if exists op :: op in ops && y in Spreads(op, x) {
      var op :| op in ops && y in Spreads(op, x);
      var i :| 0 <= i < |ops| && ops[i] == op;
      SuccOfHas(ops, i, x, y);
    }
  }

  lemma {:induction false} SuccOfSound(ops: seq<Instr>, x: nat, y: nat)
    requires y in SuccOf(ops, x)
    ensures exists op :: op in ops && y in Spreads(op, x)
    decreases |ops|
  {
    var n := |ops| - 1;
    var init, last := ops[..n], ops[n];
    if y in SuccOf(init, x) {
      SuccOfSound(init, x, y);
      var op :| op in init && y in Spreads(op, x);
      assert op in ops;
    } else {
      assert last in ops && y in Spreads(last, x);
    }
  }

  lemma {:induction false} SuccOfHas(ops: seq<Instr>, i: nat, x: nat, y: nat)
    requires i < |ops| && y in Spreads(ops[i], x)
    ensures y in SuccOf(ops, x)
    decreases |ops|
  {
    var n := |ops| - 1;
    SuccOfStep(ops, n, x);
    assert ops[..n + 1] == ops;
    if i < n {
      assert ops[..n][i] == ops[i];
      SuccOfHas(ops[..n], i, x, y);
    } else {
      var ts := Spreads(ops[i], x);
      assert i == n && y in ts;
      assert y in Elems(ts);
    }
  }

  /** A controlled gate spreads an error from a control to each of its targets
      and from a target nowhere. */
  lemma ControlledSpreads(op: Instr, x: nat, y: nat)
    requires IsControlled(op.name) && Distinct(op.qubits)
    ensures x in op.qubits[..Ctrls(op)] ==> (y in Spreads(op, x) <==> y in op.qubits[Ctrls(op)..])
    ensures x !in op.qubits[..Ctrls(op)] ==> Spreads(op, x) == []
  {
    var c := Ctrls(op);
    assert op.qubits == op.qubits[..c] + op.qubits[c..];
    if x in op.qubits[..c] && y in op.qubits[c..] {
      var i :| 0 <= i < c && op.qubits[i] == x;
      var j :| 0 <= j < |op.qubits| - c && op.qubits[c..][j] == y;
      assert op.qubits[c + j] == y;
    }
    if x !in op.qubits[..c] && x in op.qubits {
      var i :| 0 <= i < |op.qubits| && op.qubits[i] == x;
      assert i >= c;
    }
  }

  /** A swap of two distinct qubits spreads an error each way. */
  lemma SwapSpreads(op: Instr, a: nat, b: nat)
    requires op.name == "swap" && op.qubits == [a, b] && a != b
    ensures Spreads(op, a) == [b] && Spreads(op, b) == [a]
  {
    assert [a, b][..1] == [a] && [a][..0] == [];
    assert Others([a], a) == [];
    assert Others([a], b) == [a];
    SwapFrom(op, a, [b]);
    SwapFrom(op, b, [a]);
  }

  lemma SwapFrom(op: Instr, x: nat, others: seq<nat>)
    requires op.name == "swap" && x in op.qubits && Others(op.qubits, x) == others && others != []
    ensures Spreads(op, x) == [others[0]]
  {
    assert !IsControlled("swap");
  }

  /** An entangle spreads an error from any operand to every other operand. */
  lemma EntangleSpreads(op: Instr, x: nat)
    requires op.name == "entangle" && x in op.qubits
    ensures Elems(Spreads(op, x)) == Elems(op.qubits) - {x}
  {
  }

  /** Error steps are symmetric across a swap or an entangle: if one of them
      names two distinct qubits, each is one step away from the other. */
  lemma SymmetricGate(ops: seq<Instr>, i: nat, a: nat, b: nat)
    requires i < |ops| && a != b
    requires (ops[i].name == "entangle" && a in ops[i].qubits && b in ops[i].qubits)
          || (ops[i].name == "swap" && ops[i].qubits == [a, b])
    ensures b in SuccOf(ops, a) && a in SuccOf(ops, b)
  {
    var op := ops[i];
    if op.name == "swap" {
      SwapSpreads(op, a, b);
    } else {
      EntangleSpreads(op, a);
      EntangleSpreads(op, b);
    }
    assert b in Spreads(op, a) && a in Spreads(op, b);
    SuccOfMember(ops, a, b);
    SuccOfMember(ops, b, a);
  }

  /** A qubit that only ever acts as a target of controlled gates spreads no error. */
  lemma {:induction false} OnlyTarget(ops: seq<Instr>, x: nat)
    requires forall op :: op in ops && x in op.qubits ==>
               IsControlled(op.name) && x !in op.qubits[..Ctrls(op)]
    ensures SuccOf(ops, x) == {}
    decreases |ops|
  {
    if ops != [] {
      var n := |ops| - 1;
      assert forall op :: op in ops[..n] ==> op in ops;
      OnlyTarget(ops[..n], x);
      assert ops[n] in ops;
      assert Spreads(ops[n], x) == [];
    }
  }

  /** A qubit with no error step out of it influences only itself, with score 1. */
  lemma Isolated(ops: seq<Instr>, s: nat)
    requires SuccOf(ops, s) == {}
    ensures Reach(ops, s) == 1.0 && Reached(ops, s) == {s}
  {
    var next := SuccSet(ops, {s}) - {s};
    assert next == {};
    assert {s} + next == {s};
    assert Reach(ops, s) == Level(1, 0) + LevelSum(ops, {s}, {}, 1);
    assert Level(1, 0) == 1.0;
    assert Reached(ops, s) == LevelVisited(ops, {s}, {});
  }

  lemma {:induction false} LevelPositive(size: nat, k: nat)
    ensures size == 0 ==> Level(size, k) == 0.0
    ensures size > 0 ==> Level(size, k) > 0.0
    decreases size
  {
    if size > 0 {
      LevelPositive(size - 1, k);
    }
  }

  lemma {:induction false} LevelSumPositive(ops: seq<Instr>, visited: set<nat>, frontier: set<nat>, k: nat)
    ensures frontier == {} ==> LevelSum(ops, visited, frontier, k) == 0.0
    ensures frontier != {} ==> LevelSum(ops, visited, frontier, k) > 0.0
    decreases |QubitsOf(ops) - visited|, |frontier|
  {
    if frontier != {} {
      var next := SuccSet(ops, frontier) - visited;
      SuccSetBounded(ops, frontier);
      NextShrinks(ops, visited, next);
      LevelPositive(|frontier|, k);
      LevelSumPositive(ops, visited + next, next, k + 1);
    }
  }

  /** Every qubit influences at least itself, at depth 0. */
  lemma ReachAtLeastOne(ops: seq<Instr>, s: nat)
    ensures Reach(ops, s) >= 1.0
  {
    var next := SuccSet(ops, {s}) - {s};
    LevelSumPositive(ops, {s} + next, next, 1);
    assert Level(1, 0) == 1.0;
  }

  lemma SuccSetUnion(ops: seq<Instr>, a: set<nat>, b: set<nat>)
    ensures SuccSet(ops, a + b) == SuccSet(ops, a) + SuccSet(ops, b)
  {
  }

  lemma {:induction false} LevelVisitedClosed(ops: seq<Instr>, visited: set<nat>, frontier: set<nat>)
    requires frontier <= visited && SuccSet(ops, visited - frontier) <= visited
    ensures visited <= LevelVisited(ops, visited, frontier) <= visited + QubitsOf(ops)
    ensures SuccSet(ops, LevelVisited(ops, visited, frontier)) <= LevelVisited(ops, visited, frontier)
    decreases |QubitsOf(ops) - visited|, |frontier|
  {
    if frontier == {} {
      assert visited - frontier == visited;
    } else {
      var next := SuccSet(ops, frontier) - visited;
      SuccSetBounded(ops, frontier);
      NextShrinks(ops, visited, next);
      NextClosed(ops, visited, frontier, next);
      LevelVisitedClosed(ops, visited + next, next);
    }
  }

  /** One level further, the qubits not on the new frontier still step only into the visited ones. */
  lemma NextClosed(ops: seq<Instr>, visited: set<nat>, frontier: set<nat>, next: set<nat>)
    requires frontier <= visited && SuccSet(ops, visited - frontier) <= visited
    requires next == SuccSet(ops, frontier) - visited
    ensures SuccSet(ops, (visited + next) - next) <= visited + next
  {
    assert (visited + next) - next == visited;
    assert visited == (visited - frontier) + frontier;
    SuccSetUnion(ops, visited - frontier, frontier);
  }

  /** The search from `s` reaches `s`, only circuit qubits besides, and every
      qubit one error step away from a reached qubit. */
  lemma ReachedClosed(ops: seq<Instr>, s: nat)
    ensures s in Reached(ops, s) && Reached(ops, s) <= QubitsOf(ops) + {s}
    ensures forall x, y :: x in Reached(ops, s) && y in SuccOf(ops, x) ==> y in Reached(ops, s)
  {
    assert {s} - {s} == {};
    SuccSetEmpty(ops);
    LevelVisitedClosed(ops, {s}, {s});
    var r := Reached(ops, s);
    forall x, y | x in r && y in SuccOf(ops, x) ensures y in r {
      assert y in SuccSet(ops, r);
    }
  }

  /** The influences of qubits 0 .. p - 1 before normalisation. */
  function RawInfluence(ops: seq<Instr>, p: nat): (m: ScoreMap)
    ensures forall q: nat :: q in m <==> q < p
  {
    map q: nat | q < p :: Reach(ops, q)
  }

  lemma RawInfluenceStep(ops: seq<Instr>, p: nat)
    ensures RawInfluence(ops, p + 1) == RawInfluence(ops, p)[p := Reach(ops, p)]
  {
    var a, b := RawInfluence(ops, p + 1), RawInfluence(ops, p)[p := Reach(ops, p)];
    forall q: nat ensures q in a <==> q in b { }
    forall q | q in a ensures a[q] == b[q] { }
  }

  lemma RawInfluencePositive(ops: seq<Instr>, n: nat)
    ensures Positive(RawInfluence(ops, n))
  {
    forall q: nat | q < n ensures Reach(ops, q) > 0.0 {
      ReachAtLeastOne(ops, q);
    }
  }

  /** The analysis's result for a circuit of `n` qubits: the raw influences
      divided by the largest when it is positive, or the failure of `max` on an
      empty collection when the circuit has no qubit. */
  ghost function InfluenceScores(ops: seq<Instr>, n: nat): (r: Result<ScoreMap>)
    ensures r.Err? <==> n == 0
    ensures r.Err? ==> r.error == EmptyScores
    ensures r.Ok? ==> forall q: nat :: q in r.value <==> q < n
  {
    if n == 0 then Err(EmptyScores)
    else
      var raw := RawInfluence(ops, n);
      assert 0 in raw;
      if MaxValue(raw) > 0.0 then
        RawInfluencePositive(ops, n);
        Ok(Normalize(raw))
      else Ok(raw)
  }

  /** The analysis: one search per qubit 0 .. n - 1, then the division by the maximum. */
  method AnalyzeErrorPropagation(ops: seq<Instr>, n: nat) returns (r: Result<ScoreMap>)
    ensures r == InfluenceScores(ops, n)
  {
    var influence: ScoreMap := map[];
    for p := 0 to n
      invariant influence == RawInfluence(ops, p)
    {
      var s, order := Search(ops, p);
      RawInfluenceStep(ops, p);
      influence := influence[p := s];
    }
    if n == 0 {
      return Err(EmptyScores);
    }
    assert 0 in influence;
    var mx := MaxScore(influence);
    MaxUnique(influence, mx, MaxValue(influence));
    if mx > 0.0 {
      RawInfluencePositive(ops, n);
      influence := DivideAll(influence, mx);
    }
    return Ok(influence);
  }

  /** For a circuit with qubits, every influence lies in (0, 1], some qubit has
      influence exactly 1, the influences order the qubits as their raw search
      sums do, and so the factor 1 + influence the dynamic scorer applies lies in (1, 2]. */
  lemma InfluenceNormalized(ops: seq<Instr>, n: nat)
    requires n > 0
    ensures var r := InfluenceScores(ops, n);
      && r.Ok?
      && (forall q :: q in r.value ==> 0.0 < r.value[q] <= 1.0)
      && (exists q :: q in r.value && r.value[q] == 1.0)
      && (forall a, b :: a in r.value && b in r.value ==>
            (Reach(ops, a) <= Reach(ops, b) <==> r.value[a] <= r.value[b]))
      && (forall q: nat :: q < n ==> 1.0 < 1.0 + Get(r.value, q) <= 2.0)
  {
    var raw := RawInfluence(ops, n);
    InfluenceIsNormalized(ops, n);
    var r := Normalize(raw);
    forall q: nat | q < n ensures 1.0 < 1.0 + Get(r, q) <= 2.0 {
      assert q in r;
    }
    forall a, b | a in r && b in r
      ensures Reach(ops, a) <= Reach(ops, b) <==> r[a] <= r[b]
    {
      assert raw[a] == Reach(ops, a) && raw[b] == Reach(ops, b);
    }
  }

  lemma InfluenceIsNormalized(ops: seq<Instr>, n: nat)
    requires n > 0
    ensures RawInfluence(ops, n) != map[] && Positive(RawInfluence(ops, n))
    ensures InfluenceScores(ops, n) == Ok(Normalize(RawInfluence(ops, n)))
  {
    var raw := RawInfluence(ops, n);
    RawInfluencePositive(ops, n);
    assert 0 in raw && raw[0] > 0.0;
    assert MaxValue(raw) > 0.0;
  }
}
