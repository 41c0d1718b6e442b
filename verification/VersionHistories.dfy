/** Whole runs of add_fn calls, seen on the map of ranges that each call refines. */
module VersionHistories {
  import opened VersionRanges

  predicate Accepts(ranges: seq<Range>, r: Range) {
    r.lo <= r.hi && !MeetsAny(r, ranges)
  }

  /** The ranges after add_fn was called for each of calls in turn; rejected calls change nothing. */
  function AddAll(ranges: seq<Range>, calls: seq<Range>): seq<Range>
    decreases calls
  {
    if calls == [] then
      ranges
    else
      AddAll(if Accepts(ranges, calls[0]) then InsertRange(ranges, calls[0]) else ranges, calls[1..])
  }

  predicate AllAccepted(ranges: seq<Range>, calls: seq<Range>)
    decreases calls
  {
    calls == [] || (Accepts(ranges, calls[0]) && AllAccepted(InsertRange(ranges, calls[0]), calls[1..]))
  }

  predicate PairwiseDisjoint(calls: seq<Range>) {
    && (forall i :: 0 <= i < |calls| ==> calls[i].lo <= calls[i].hi)
    && (forall i, j :: 0 <= i < j < |calls| ==> !calls[i].Meets(calls[j]))
  }

  lemma {:induction false} AddAllKeepsAscending(ranges: seq<Range>, calls: seq<Range>)
    requires Ascending(ranges)
    ensures Ascending(AddAll(ranges, calls))
    decreases calls
  {
    if calls == [] {
    } else {
      if Accepts(ranges, calls[0]) {
        InsertRangeKeepsAscending(ranges, calls[0]);
        AddAllKeepsAscending(InsertRange(ranges, calls[0]), calls[1..]);
      } else {
        AddAllKeepsAscending(ranges, calls[1..]);
      }
    }
  }

  /** In every reachable state the entry list is well formed, and reads back as the map of ranges. */
  lemma ReachableIsWellFormed(calls: seq<Range>)
    ensures WellFormed(Flatten(AddAll([], calls)))
    ensures Ranges(Flatten(AddAll([], calls))) == AddAll([], calls)
  {
    AddAllKeepsAscending([], calls);
    FlattenIsWellFormed(AddAll([], calls));
  }

  /** No call meets what is already there. */
  ghost predicate Clear(ranges: seq<Range>, calls: seq<Range>) {
    forall i :: 0 <= i < |calls| ==> !MeetsAny(calls[i], ranges)
  }

  lemma MeetsAfterInsert(ranges: seq<Range>, r: Range, x: Range)
    requires Ascending(ranges) && Accepts(ranges, r)
    ensures MeetsAny(x, InsertRange(ranges, r)) <==> r.Meets(x) || MeetsAny(x, ranges)
  {
    InsertRangeKeepsAscending(ranges, r);
    var after := InsertRange(ranges, r);
    if MeetsAny(x, after) {
      var k :| 0 <= k < |after| && after[k].Meets(x);
      assert after[k] in after;
    }
    if MeetsAny(x, ranges) {
      var k :| 0 <= k < |ranges| && ranges[k].Meets(x);
      assert ranges[k] in after;
    }
    if r.Meets(x) {
      assert r in after;
    }
  }

  /** All calls succeed exactly when the ranges are proper, disjoint from each other and from what is there. */
  lemma {:induction false} AllAcceptedIffDisjoint(ranges: seq<Range>, calls: seq<Range>)
    requires Ascending(ranges)
    ensures AllAccepted(ranges, calls) <==> PairwiseDisjoint(calls) && Clear(ranges, calls)
    decreases calls
  {
    if calls == [] {
    } else {
      var r, rest := calls[0], calls[1..];
      if Accepts(ranges, r) {
        InsertRangeKeepsAscending(ranges, r);
        AllAcceptedIffDisjoint(InsertRange(ranges, r), rest);
        forall i | 0 <= i < |rest|
          ensures MeetsAny(rest[i], InsertRange(ranges, r)) <==> r.Meets(rest[i]) || MeetsAny(rest[i], ranges)
        {
          MeetsAfterInsert(ranges, r, rest[i]);
        }
        DisjointBehind(r, rest);
        assert calls == [r] + rest;
        assert forall i :: 0 < i < |calls| ==> calls[i] == rest[i - 1];
      }
    }
  }

  lemma DisjointBehind(r: Range, rest: seq<Range>)
    requires r.lo <= r.hi
    ensures PairwiseDisjoint([r] + rest) <==>
            PairwiseDisjoint(rest) && forall i :: 0 <= i < |rest| ==> !r.Meets(rest[i])
  {
    var calls := [r] + rest;
    assert forall i :: 0 <= i < |rest| ==> rest[i] == calls[i + 1];
    assert forall i :: 0 < i < |calls| ==> calls[i] == rest[i - 1];
    if PairwiseDisjoint(calls) {
      forall i, j | 0 <= i < j < |rest|
        ensures !rest[i].Meets(rest[j])
      {
        assert !calls[i + 1].Meets(calls[j + 1]);
      }
      forall i | 0 <= i < |rest|
        ensures !r.Meets(rest[i])
      {
        assert !calls[0].Meets(calls[i + 1]);
      }
    }
  }

  lemma {:induction false} AcceptedRangesAreKept(ranges: seq<Range>, calls: seq<Range>)
    requires Ascending(ranges) && AllAccepted(ranges, calls)
    ensures forall x :: x in AddAll(ranges, calls) <==> x in ranges || x in calls
    decreases calls
  {
    if calls == [] {
    } else {
      InsertRangeKeepsAscending(ranges, calls[0]);
      AcceptedRangesAreKept(InsertRange(ranges, calls[0]), calls[1..]);
      assert calls == [calls[0]] + calls[1..];
    }
  }

  /** The order in which disjoint ranges are added leaves no trace in the entry list. */
  lemma InsertionOrderIsIrrelevant(calls: seq<Range>, others: seq<Range>)
    requires PairwiseDisjoint(calls) && PairwiseDisjoint(others)
    requires forall x :: x in calls <==> x in others
    ensures AllAccepted([], calls) && AllAccepted([], others)
    ensures Flatten(AddAll([], calls)) == Flatten(AddAll([], others))
    ensures forall x :: x in AddAll([], calls) <==> x in calls
  {
    AllAcceptedIffDisjoint([], calls);
    AllAcceptedIffDisjoint([], others);
    AcceptedRangesAreKept([], calls);
    AcceptedRangesAreKept([], others);
    AddAllKeepsAscending([], calls);
    AddAllKeepsAscending([], others);
    AscendingIsCanonical(AddAll([], calls), AddAll([], others));
  }
}
