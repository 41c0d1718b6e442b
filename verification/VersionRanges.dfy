/**
  The meaning of a version selector's entry list: disjoint closed ranges of levels in
  ascending order, each owned by one function. A range is stored as one entry of direction 0
  or as an adjacent pair of entries of directions 1 and -1.
 */
module VersionRanges {

  /** A function object, known by its identity. */
  datatype Function = Function(id: nat)

  datatype Entry = Entry(level: real, fn: Function, direction: int)

  datatype Range = Range(lo: real, hi: real, fn: Function) {
    predicate Covers(level: real) {
      lo <= level <= hi
    }

    predicate Meets(other: Range) {
      lo <= other.hi && other.lo <= hi
    }

    function Entries(): (entries: seq<Entry>) {
      if lo == hi then [Entry(lo, fn, 0)] else [Entry(lo, fn, 1), Entry(hi, fn, -1)]
    }
  }

  predicate Ascending(ranges: seq<Range>) {
    && (forall i :: 0 <= i < |ranges| ==> ranges[i].lo <= ranges[i].hi)
    && (forall i, j :: 0 <= i < j < |ranges| ==> ranges[i].hi < ranges[j].lo)
  }

  function Flatten(ranges: seq<Range>): seq<Entry> {
    if ranges == [] then [] else ranges[0].Entries() + Flatten(ranges[1..])
  }

  // ---------- the shape of an entry list, stated on the list itself ----------

  /** Entries of direction 0 and adjacent (1, -1) pairs that share one function. */
  predicate Paired(entries: seq<Entry>) {
    || entries == []
    || (entries[0].direction == 0 && Paired(entries[1..]))
    || (|entries| >= 2 && entries[0].direction == 1 && entries[1].direction == -1
        && entries[0].fn == entries[1].fn && Paired(entries[2..]))
  }

  predicate Increasing(entries: seq<Entry>) {
    forall i, j :: 0 <= i < j < |entries| ==> entries[i].level < entries[j].level
  }

  predicate WellFormed(entries: seq<Entry>) {
    Paired(entries) && Increasing(entries)
  }

  /** Reads the ranges back off the entries. */
  function Ranges(entries: seq<Entry>): seq<Range> {
    if entries == [] then
      []
    else if entries[0].direction == 0 || |entries| == 1 then
      [Range(entries[0].level, entries[0].level, entries[0].fn)] + Ranges(entries[1..])
    else
      [Range(entries[0].level, entries[1].level, entries[0].fn)] + Ranges(entries[2..])
  }

  /** Every level of the flattened ranges belongs to one of them. */
  lemma {:induction false} LevelsOfFlatten(ranges: seq<Range>, i: nat) returns (k: nat)
    requires i < |Flatten(ranges)|
    ensures k < |ranges|
    ensures Flatten(ranges)[i].level == ranges[k].lo || Flatten(ranges)[i].level == ranges[k].hi
  {
    var n := |ranges[0].Entries()|;
    if i < n {
      k := 0;
    } else {
      var k' := LevelsOfFlatten(ranges[1..], i - n);
      k := k' + 1;
    }
  }

  lemma PairedBehind(r: Range, rest: seq<Entry>)
    requires r.lo <= r.hi && Paired(rest)
    ensures Paired(r.Entries() + rest) && Ranges(r.Entries() + rest) == [r] + Ranges(rest)
  {
    var entries := r.Entries() + rest;
    assert entries[|r.Entries()|..] == rest;
  }

  lemma IncreasingBehind(r: Range, rest: seq<Entry>)
    requires r.lo <= r.hi && Increasing(rest)
    requires forall j :: 0 <= j < |rest| ==> r.hi < rest[j].level
    ensures Increasing(r.Entries() + rest)
  {
  }

  lemma RestIsAbove(ranges: seq<Range>, j: nat)
    requires Ascending(ranges) && ranges != [] && j < |Flatten(ranges[1..])|
    ensures ranges[0].hi < Flatten(ranges[1..])[j].level
  {
    var k := LevelsOfFlatten(ranges[1..], j);
    assert ranges[1..][k] == ranges[k + 1];
  }

  /** Ascending ranges and well-formed entry lists are two writings of the same thing. */
  lemma {:induction false} FlattenIsWellFormed(ranges: seq<Range>)
    requires Ascending(ranges)
    ensures WellFormed(Flatten(ranges)) && Ranges(Flatten(ranges)) == ranges
  {
    if ranges == [] {
    } else {
      var r, rest := ranges[0], Flatten(ranges[1..]);
      FlattenIsWellFormed(ranges[1..]);
      forall j | 0 <= j < |rest|
        ensures r.hi < rest[j].level
      {
        RestIsAbove(ranges, j);
      }
      PairedBehind(r, rest);
      IncreasingBehind(r, rest);
      assert ranges == [r] + ranges[1..];
    }
  }

  /** Splits the first range off a well-formed list. */
  lemma {:induction false} FirstRange(entries: seq<Entry>) returns (r: Range, rest: seq<Entry>)
    requires WellFormed(entries) && entries != []
    ensures |rest| < |entries| && WellFormed(rest)
    ensures r.lo <= r.hi && entries == r.Entries() + rest && Ranges(entries) == [r] + Ranges(rest)
    ensures r.lo == entries[0].level && (rest != [] ==> r.hi < rest[0].level)
  {
    if entries[0].direction == 0 {
      r, rest := Range(entries[0].level, entries[0].level, entries[0].fn), entries[1..];
      assert entries == entries[..1] + rest;
      assert r.Entries() == entries[..1];
    } else {
      r, rest := Range(entries[0].level, entries[1].level, entries[0].fn), entries[2..];
      assert entries == entries[..2] + rest;
      assert r.Entries() == entries[..2];
    }
  }

  lemma {:induction false} RangesAreAscending(entries: seq<Entry>)
    requires WellFormed(entries)
    ensures Ascending(Ranges(entries)) && Flatten(Ranges(entries)) == entries
    ensures forall k :: 0 <= k < |Ranges(entries)| ==> entries != [] && entries[0].level <= Ranges(entries)[k].lo
    decreases |entries|
  {
    if entries == [] {
    } else {
      var r, rest := FirstRange(entries);
      RangesAreAscending(rest);
      assert Ranges(entries)[1..] == Ranges(rest);
    }
  }

  // ---------- the naive map of ranges ----------

  predicate MeetsAny(r: Range, ranges: seq<Range>) {
    exists k :: 0 <= k < |ranges| && ranges[k].Meets(r)
  }

  /** Sorted insertion, by lower end. */
  function InsertRange(ranges: seq<Range>, r: Range): seq<Range> {
    if ranges == [] || r.lo < ranges[0].lo then [r] + ranges else [ranges[0]] + InsertRange(ranges[1..], r)
  }

  lemma {:induction false} InsertRangeKeepsAscending(ranges: seq<Range>, r: Range)
    requires Ascending(ranges) && r.lo <= r.hi && !MeetsAny(r, ranges)
    ensures Ascending(InsertRange(ranges, r))
    ensures forall x :: x in InsertRange(ranges, r) <==> x == r || x in ranges
  {
    if ranges == [] {
    } else {
      assert !ranges[0].Meets(r);
      if r.lo < ranges[0].lo {
      } else {
        var rest := InsertRange(ranges[1..], r);
        assert forall k :: 0 <= k < |ranges[1..]| ==> !ranges[1..][k].Meets(r) by {
          assert forall k :: 0 <= k < |ranges[1..]| ==> ranges[1..][k] == ranges[k + 1];
        }
        InsertRangeKeepsAscending(ranges[1..], r);
        assert forall k :: 0 <= k < |rest| ==> rest[k] in rest;
        assert forall x :: x in ranges <==> x == ranges[0] || x in ranges[1..];
      }
    }
  }

  /** An ascending list is determined by the set of its ranges. */
  lemma {:induction false} AscendingIsCanonical(a: seq<Range>, b: seq<Range>)
    requires Ascending(a) && Ascending(b)
    requires forall x :: x in a <==> x in b
    ensures a == b
  {
    if a != [] {
      assert a[0] in a;
    }
    if b == [] {
    } else {
      assert b[0] in b;
      LeastIsFirst(a, b[0]);
      LeastIsFirst(b, a[0]);
      assert a[0] == b[0];
      forall x
        ensures x in a[1..] <==> x in b[1..]
      {
        RestHasTheOthers(a, x);
        RestHasTheOthers(b, x);
      }
      AscendingIsCanonical(a[1..], b[1..]);
      assert a == [a[0]] + a[1..] && b == [b[0]] + b[1..];
    }
  }

  lemma LeastIsFirst(ranges: seq<Range>, x: Range)
    requires Ascending(ranges) && x in ranges
    ensures x == ranges[0] || ranges[0].lo < x.lo
  {
  }

  lemma RestHasTheOthers(ranges: seq<Range>, x: Range)
    requires Ascending(ranges) && ranges != []
    ensures x in ranges[1..] <==> x in ranges && x != ranges[0]
  {
    assert ranges == [ranges[0]] + ranges[1..];
    if x in ranges[1..] {
      var k :| 0 <= k < |ranges[1..]| && ranges[1..][k] == x;
      assert x == ranges[k + 1];
    }
  }
}
