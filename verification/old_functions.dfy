/** Taking the non-unitary instructions out of a circuit and putting them back:
    removal keeps the other instructions in order and records each removed one
    with its original position; re-insertion sorts the records by position and
    inserts each instruction back at its position. */
module OldFunctions {
  import opened Circuits
  import V1 = CriticalityV1

  /** A removed instruction with its position in the original list. */
  type Removal = (nat, Instr)

  /** The instructions removal keeps, in order. */
  function Kept(ops: seq<Instr>): seq<Instr>
  {
    if ops == [] then []
    else
      var n := |ops| - 1;
      Kept(ops[..n]) + (if IsNonUnitary(ops[n].name) then [] else [ops[n]])
  }

  /** The removal records, in the order removal meets them. */
  function Removed(ops: seq<Instr>): seq<Removal>
  {
    if ops == [] then []
    else
      var n := |ops| - 1;
      Removed(ops[..n]) + (if IsNonUnitary(ops[n].name) then [(n, ops[n])] else [])
  }

  lemma PrefixLast(ops: seq<Instr>, i: nat)
    requires i < |ops|
    ensures ops[..i + 1][..i] == ops[..i] && ops[..i + 1][i] == ops[i]
  {
  }

  /** The removal loop. */
  method RemoveNonUnitaryGates(ops: seq<Instr>) returns (kept: seq<Instr>, removed: seq<Removal>)
    ensures kept == Kept(ops) && removed == Removed(ops)
  {
    kept, removed := [], [];
    for index := 0 to |ops|
      invariant kept == Kept(ops[..index]) && removed == Removed(ops[..index])
    {
      PrefixLast(ops, index);
      var instruction := ops[index];
      if instruction.name == "reset" || instruction.name == "initialize" || instruction.name == "measure" {
        removed := removed + [(index, instruction)];
      } else {
        kept := kept + [instruction];
      }
    }
    assert ops[..|ops|] == ops;
  }

  /** Positions strictly increase along the records. */
  predicate Increasing(rs: seq<Removal>)
  {
    forall j, k :: 0 <= j < k < |rs| ==> rs[j].0 < rs[k].0
  }

  /** The kept instructions and the records together are as many as the instructions. */
  lemma {:induction false} RemoveLength(ops: seq<Instr>)
    ensures |Kept(ops)| + |Removed(ops)| == |ops|
    decreases |ops|
  {
    if ops != [] {
      RemoveLength(ops[..|ops| - 1]);
    }
  }

  /** The kept instructions are exactly the unitary ones. */
  lemma {:induction false} KeptMembers(ops: seq<Instr>)
    ensures forall x :: x in Kept(ops) <==> x in ops && !IsNonUnitary(x.name)
    decreases |ops|
  {
    if ops != [] {
      var n := |ops| - 1;
      KeptMembers(ops[..n]);
      assert ops == ops[..n] + [ops[n]];
    }
  }

  /** Every record holds a non-unitary instruction with its original position. */
  lemma {:induction false} RecordsFaithful(ops: seq<Instr>)
    ensures forall k :: 0 <= k < |Removed(ops)| ==>
      Removed(ops)[k].0 < |ops| && ops[Removed(ops)[k].0] == Removed(ops)[k].1 &&
      IsNonUnitary(Removed(ops)[k].1.name)
    decreases |ops|
  {
    if ops != [] {
      var n := |ops| - 1;
      RecordsFaithful(ops[..n]);
    }
  }

  /** The records' positions increase. */
  lemma {:induction false} RecordsIncreasing(ops: seq<Instr>)
    ensures Increasing(Removed(ops))
    ensures forall k :: 0 <= k < |Removed(ops)| ==> Removed(ops)[k].0 < |ops|
    decreases |ops|
  {
    if ops != [] {
      var n := |ops| - 1;
      RecordsIncreasing(ops[..n]);
    }
  }

  /** Some record holds position `i`. */
  predicate HasRecord(rs: seq<Removal>, i: nat)
  {
    exists k :: 0 <= k < |rs| && rs[k].0 == i
  }

  /** Every non-unitary instruction has a record. */
  lemma {:induction false} RecordsComplete(ops: seq<Instr>)
    ensures forall i: nat :: i < |ops| && IsNonUnitary(ops[i].name) ==> HasRecord(Removed(ops), i)
    decreases |ops|
  {
    if ops != [] {
      var n := |ops| - 1;
      var p := ops[..n];
      RecordsComplete(p);
      var r := Removed(ops);
      assert r == Removed(p) + (if IsNonUnitary(ops[n].name) then [(n, ops[n])] else []);
      forall i: nat | i < |ops| && IsNonUnitary(ops[i].name) ensures HasRecord(r, i) {
        if i < n {
          assert p[i] == ops[i];
          assert HasRecord(Removed(p), i);
          var k :| 0 <= k < |Removed(p)| && Removed(p)[k].0 == i;
          assert r[k] == Removed(p)[k];
        } else {
          assert r[|r| - 1].0 == i;
        }
      }
    }
  }

  /** `list.insert`: at position `i`, or at the end when `i` is past it. */
  function InsertAt(s: seq<Instr>, i: nat, x: Instr): (r: seq<Instr>)
    ensures |r| == |s| + 1
    ensures i <= |s| ==> r[i] == x && r[..i] == s[..i] && r[i + 1..] == s[i..]
    ensures i > |s| ==> r == s + [x]
  {
    if i <= |s| then s[..i] + [x] + s[i..] else s + [x]
  }

  /** The instructions after inserting the records one after another. */
  function Reinsert(s: seq<Instr>, rs: seq<Removal>): (r: seq<Instr>)
    ensures |r| == |s| + |rs|
  {
    if rs == [] then s
    else
      var n := |rs| - 1;
      InsertAt(Reinsert(s, rs[..n]), rs[n].0, rs[n].1)
  }

  /** Positions never decrease along the records. */
  predicate Sorted(rs: seq<Removal>)
  {
    forall j, k :: 0 <= j < k < |rs| ==> rs[j].0 <= rs[k].0
  }

  /** The records in order of position; records with the same position keep
      their relative order, as Python's stable sort does (`SortStable`). */
  function SortByIndex(rs: seq<Removal>): (r: seq<Removal>)
    ensures multiset(r) == multiset(rs)
    ensures Sorted(r)
  {
    if rs == [] then []
    else
      var n := |rs| - 1;
      assert rs == rs[..n] + [rs[n]];
      var sorted := SortByIndex(rs[..n]);
      PlaceSorted(sorted, rs[n]);
      Place(sorted, rs[n])
  }

  /** One record placed after every record whose position is not larger. */
  function Place(sorted: seq<Removal>, e: Removal): (r: seq<Removal>)
    ensures multiset(r) == multiset(sorted) + multiset{e}
    decreases |sorted|
  {
    if sorted == [] then [e]
    else if e.0 < sorted[0].0 then [e] + sorted
    else
      assert sorted == [sorted[0]] + sorted[1..];
      [sorted[0]] + Place(sorted[1..], e)
  }

  /** Placing a record into sorted records keeps them sorted. */
  lemma {:induction false} PlaceSorted(sorted: seq<Removal>, e: Removal)
    requires Sorted(sorted)
    ensures Sorted(Place(sorted, e))
    decreases |sorted|
  {
    if sorted != [] && e.0 >= sorted[0].0 {
      var rest := Place(sorted[1..], e);
      PlaceSorted(sorted[1..], e);
      forall y | y in rest ensures sorted[0].0 <= y.0 {
        assert y in multiset(rest);
        if y != e {
          assert y in multiset(sorted[1..]);
        }
      }
      ConsSorted(sorted[0], rest);
    }
  }

  lemma ConsSorted(x: Removal, rest: seq<Removal>)
    requires Sorted(rest) && forall y :: y in rest ==> x.0 <= y.0
    ensures Sorted([x] + rest)
  {
    var r := [x] + rest;
    forall j, k | 0 <= j < k < |r| ensures r[j].0 <= r[k].0 {
      if j > 0 {
        assert r[j] == rest[j - 1] && r[k] == rest[k - 1];
      } else {
        assert r[k] in rest;
      }
    }
  }

  /** A record whose position is at least every other one goes last. */
  lemma {:induction false} PlaceLast(sorted: seq<Removal>, e: Removal)
    requires forall y :: y in sorted ==> y.0 <= e.0
    ensures Place(sorted, e) == sorted + [e]
    decreases |sorted|
  {
    if sorted != [] {
      var rest := sorted[1..];
      assert sorted[0] in sorted && sorted == [sorted[0]] + rest;
      assert Place(sorted, e) == [sorted[0]] + Place(rest, e);
      assert forall y :: y in rest ==> y in sorted;
      PlaceLast(rest, e);
      Assoc([sorted[0]], rest, [e]);
    }
  }

  /** The records at position `p`, in their order. */
  function AtPosition(rs: seq<Removal>, p: nat): seq<Removal>
    decreases |rs|
  {
    if rs == [] then []
    else (if rs[0].0 == p then [rs[0]] else []) + AtPosition(rs[1..], p)
  }

  lemma {:induction false} AtPositionAppend(a: seq<Removal>, b: seq<Removal>, p: nat)
    ensures AtPosition(a + b, p) == AtPosition(a, p) + AtPosition(b, p)
    decreases |a|
  {
    if a == [] {
      assert a + b == b;
    } else {
      assert (a + b)[1..] == a[1..] + b;
      AtPositionAppend(a[1..], b, p);
      Assoc(if a[0].0 == p then [a[0]] else [], AtPosition(a[1..], p), AtPosition(b, p));
    }
  }

  /** Sorted records lying after position `p` hold none at `p`. */
  lemma {:induction false} NoneAtPosition(sorted: seq<Removal>, p: nat)
    requires Sorted(sorted) && (sorted != [] ==> p < sorted[0].0)
    ensures AtPosition(sorted, p) == []
    decreases |sorted|
  {
    if sorted != [] {
      NoneAtPosition(sorted[1..], p);
    }
  }

  /** Placing a record puts it after every record with its position. */
  lemma {:induction false} PlaceStable(sorted: seq<Removal>, e: Removal, p: nat)
    requires Sorted(sorted)
    ensures AtPosition(Place(sorted, e), p) == AtPosition(sorted, p) + AtPosition([e], p)
    decreases |sorted|
  {
    var last := AtPosition([e], p);
    assert [e][1..] == [];
    if sorted == [] {
    } else if e.0 < sorted[0].0 {
      if e.0 == p {
        NoneAtPosition(sorted, p);
      }
      AtPositionAppend([e], sorted, p);
    } else {
      PlaceStable(sorted[1..], e, p);
      var head := if sorted[0].0 == p then [sorted[0]] else [];
      Assoc(head, AtPosition(sorted[1..], p), last);
    }
  }

  /** Records with the same position leave the sort in the order they came in. */
  lemma {:induction false} SortStable(rs: seq<Removal>, p: nat)
    ensures AtPosition(SortByIndex(rs), p) == AtPosition(rs, p)
    decreases |rs|
  {
    if rs != [] {
      var n := |rs| - 1;
      SortStable(rs[..n], p);
      PlaceStable(SortByIndex(rs[..n]), rs[n], p);
      assert rs == rs[..n] + [rs[n]];
      AtPositionAppend(rs[..n], [rs[n]], p);
    }
  }

  /** Sorting records that are already in increasing order changes nothing. */
  lemma {:induction false} SortSorted(rs: seq<Removal>)
    requires Increasing(rs)
    ensures SortByIndex(rs) == rs
    decreases |rs|
  {
    if rs != [] {
      var n := |rs| - 1;
      IncreasingInit(rs);
      SortSorted(rs[..n]);
      PlaceLast(rs[..n], rs[n]);
    }
  }

  lemma IncreasingInit(rs: seq<Removal>)
    requires Increasing(rs) && rs != []
    ensures Increasing(rs[..|rs| - 1])
    ensures forall y :: y in rs[..|rs| - 1] ==> y.0 <= rs[|rs| - 1].0
  {
  }

  /** The re-insertion: sort the records by position, then insert each one. */
  method AddNonUnitaryGates(data: seq<Instr>, removed: seq<Removal>) returns (r: seq<Instr>)
    ensures r == Reinsert(data, SortByIndex(removed))
  {
    var sorted := SortByIndex(removed);
    r := data;
    for k := 0 to |sorted|
      invariant r == Reinsert(data, sorted[..k])
    {
      assert sorted[..k + 1][..k] == sorted[..k];
      var (index, instruction) := sorted[k];
      r := if index <= |r| then r[..index] + [instruction] + r[index..] else r + [instruction];
    }
    assert sorted[..|sorted|] == sorted;
  }

  /** Each record's position lies within the list it is inserted into. */
  predicate Fits(s: seq<Instr>, rs: seq<Removal>)
  {
    forall k :: 0 <= k < |rs| ==> rs[k].0 <= |s| + k
  }

  lemma InsertBeforeLast(t: seq<Instr>, i: nat, y: Instr, x: Instr)
    requires i <= |t|
    ensures InsertAt(t + [x], i, y) == InsertAt(t, i, y) + [x]
  {
    assert (t + [x])[..i] == t[..i];
    assert (t + [x])[i..] == t[i..] + [x];
  }

  /** Re-inserting into a list with one more instruction at its end gives the
      same list with that instruction at its end. */
  lemma {:induction false} ReinsertSnoc(s: seq<Instr>, x: Instr, rs: seq<Removal>)
    requires Fits(s, rs)
    ensures Reinsert(s + [x], rs) == Reinsert(s, rs) + [x]
    decreases |rs|
  {
    if rs != [] {
      var n := |rs| - 1;
      assert Fits(s, rs[..n]);
      ReinsertSnoc(s, x, rs[..n]);
      InsertBeforeLast(Reinsert(s, rs[..n]), rs[n].0, rs[n].1, x);
    }
  }

  /** Removal's records fit the kept list. */
  lemma {:induction false} RemovedFits(ops: seq<Instr>)
    ensures Fits(Kept(ops), Removed(ops))
    decreases |ops|
  {
    if ops != [] {
      var n := |ops| - 1;
      RemovedFits(ops[..n]);
      RemoveLength(ops[..n]);
    }
  }

  /** Putting back what was removed restores the original list exactly. */
  lemma {:induction false} RoundTrip(ops: seq<Instr>)
    ensures Reinsert(Kept(ops), SortByIndex(Removed(ops))) == ops
    decreases |ops|
  {
    RecordsIncreasing(ops);
    SortSorted(Removed(ops));
    ReinsertRemoved(ops);
  }

  lemma {:induction false} ReinsertRemoved(ops: seq<Instr>)
    ensures Reinsert(Kept(ops), Removed(ops)) == ops
    decreases |ops|
  {
    if ops != [] {
      var n := |ops| - 1;
      ReinsertRemoved(ops[..n]);
      RestoreLast(ops[..n], ops[n]);
      SplitLast(ops);
    }
  }

  lemma RestoreLast(p: seq<Instr>, x: Instr)
    requires Reinsert(Kept(p), Removed(p)) == p
    ensures Reinsert(Kept(p + [x]), Removed(p + [x])) == p + [x]
  {
    if IsNonUnitary(x.name) {
      RestoreRemoved(p, x);
    } else {
      RestoreKept(p, x);
    }
  }

  lemma RestoreRemoved(p: seq<Instr>, x: Instr)
    requires IsNonUnitary(x.name) && Reinsert(Kept(p), Removed(p)) == p
    ensures Reinsert(Kept(p + [x]), Removed(p + [x])) == p + [x]
  {
    Unfold(p, x);
    assert Kept(p + [x]) == Kept(p) + [];
    assert Kept(p) + [] == Kept(p);
    assert Removed(p + [x]) == Removed(p) + [(|p|, x)];
    ReinsertOneMore(Kept(p), Removed(p), (|p|, x));
    InsertAtEnd(p, x);
  }

  lemma InsertAtEnd(s: seq<Instr>, x: Instr)
    ensures InsertAt(s, |s|, x) == s + [x]
  {
    assert s[..|s|] == s && s[|s|..] == [];
  }

  lemma RestoreKept(p: seq<Instr>, x: Instr)
    requires !IsNonUnitary(x.name) && Reinsert(Kept(p), Removed(p)) == p
    ensures Reinsert(Kept(p + [x]), Removed(p + [x])) == p + [x]
  {
    Unfold(p, x);
    assert Kept(p + [x]) == Kept(p) + [x];
    assert Removed(p + [x]) == Removed(p) + [];
    assert Removed(p) + [] == Removed(p);
    RemovedFits(p);
    ReinsertSnoc(Kept(p), x, Removed(p));
  }

  lemma Unfold(p: seq<Instr>, x: Instr)
    ensures Kept(p + [x]) == Kept(p) + (if IsNonUnitary(x.name) then [] else [x])
    ensures Removed(p + [x]) == Removed(p) + (if IsNonUnitary(x.name) then [(|p|, x)] else [])
  {
    assert (p + [x])[..|p|] == p;
  }

  lemma ReinsertOneMore(s: seq<Instr>, rs: seq<Removal>, r: Removal)
    ensures Reinsert(s, rs + [r]) == InsertAt(Reinsert(s, rs), r.0, r.1)
  {
    assert (rs + [r])[..|rs|] == rs;
  }

  /** The older copy of the static scorer's weight table, in its own order. */
  function OldWeight(name: string): real
  {
    match name
    case "rx" => 1.0
    case "ry" => 1.0
    case "rz" => 1.0
    case "h" => 1.0
    case "cx" => 2.0
    case "cz" => 2.0
    case "ccx" => 3.0
    case "swap" => 2.0
    case "measure" => 1.5
    case "entangle" => 3.0
    case "initialize" => 1.0
    case _ => 1.0
  }

  /** The older scorer's table gives every name the static scorer's weight, so
      the two scorers agree on every circuit. */
  lemma SameWeightTable(name: string)
    ensures OldWeight(name) == V1.Weight(name)
  {
  }
}
