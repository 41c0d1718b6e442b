/** The version selector of acts/libs/version_selector.py. */
module VersionSelector {
  import opened Wrappers
  import opened VersionRanges

  /** What the version function returned for a call. */
  datatype Level = Number(level: real) | NotANumber

  datatype CallResult =
    | Called(fn: Function, instance: Option<nat>)
    | NotImplementedError
    | ValueError
    | IndexError

  // ---------- bisect_left of Python's library ----------

  /** The leftmost place at which level can be inserted. */
  ghost predicate IsBisectLeft(entries: seq<Entry>, level: real, index: nat) {
    && index <= |entries|
    && (forall i :: 0 <= i < index ==> entries[i].level < level)
    && (forall i :: index <= i < |entries| ==> level <= entries[i].level)
  }

  method BisectLeft(entries: seq<Entry>, level: real) returns (index: nat)
    requires Increasing(entries)
    ensures IsBisectLeft(entries, level, index)
  {
    var lo, hi := 0, |entries|;
    while lo < hi
      invariant 0 <= lo <= hi <= |entries|
      invariant forall i :: 0 <= i < lo ==> entries[i].level < level
      invariant forall i :: hi <= i < |entries| ==> level <= entries[i].level
    {
      var mid := (lo + hi) / 2;
      if entries[mid].level < level {
        lo := mid + 1;
      } else {
        hi := mid;
      }
    }
    index := lo;
  }

  // ---------- where bisection lands, in terms of ranges ----------

  /** The ranges that end below level, and the entries they take up. */
  function Below(ranges: seq<Range>, level: real): seq<Range> {
    if ranges != [] && ranges[0].hi < level then [ranges[0]] + Below(ranges[1..], level) else []
  }

  function NotBelow(ranges: seq<Range>, level: real): seq<Range> {
    if ranges != [] && ranges[0].hi < level then NotBelow(ranges[1..], level) else ranges
  }

  lemma {:induction false} FlattenConcat(a: seq<Range>, b: seq<Range>)
    ensures Flatten(a + b) == Flatten(a) + Flatten(b)
  {
    if a == [] {
      assert a + b == b;
    } else {
      assert (a + b)[1..] == a[1..] + b;
      FlattenConcat(a[1..], b);
    }
  }

  lemma {:induction false} SplitAtLevel(ranges: seq<Range>, level: real)
    ensures ranges == Below(ranges, level) + NotBelow(ranges, level)
    ensures NotBelow(ranges, level) != [] ==> level <= NotBelow(ranges, level)[0].hi
  {
    if ranges == [] {
    } else if level <= ranges[0].hi {
    } else {
      SplitAtLevel(ranges[1..], level);
      assert ranges == [ranges[0]] + (Below(ranges[1..], level) + NotBelow(ranges[1..], level));
    }
  }

  lemma {:induction false} BelowEndsBelow(ranges: seq<Range>, level: real)
    ensures forall k :: 0 <= k < |Below(ranges, level)| ==> Below(ranges, level)[k].hi < level
  {
    if ranges == [] || level <= ranges[0].hi {
    } else {
      BelowEndsBelow(ranges[1..], level);
    }
  }

  lemma {:induction false} BelowIsPrefix(ranges: seq<Range>, level: real, k: nat)
    requires k < |Below(ranges, level)|
    ensures k < |ranges| && Below(ranges, level)[k] == ranges[k]
  {
    if k == 0 {
    } else {
      BelowIsPrefix(ranges[1..], level, k - 1);
    }
  }

  lemma LevelsBelow(ranges: seq<Range>, level: real)
    requires Ascending(ranges)
    ensures forall i :: 0 <= i < |Flatten(Below(ranges, level))| ==> Flatten(Below(ranges, level))[i].level < level
  {
    BelowEndsBelow(ranges, level);
    var below := Below(ranges, level);
    forall i | 0 <= i < |Flatten(below)|
      ensures Flatten(below)[i].level < level
    {
      var k := LevelsOfFlatten(below, i);
      BelowIsPrefix(ranges, level, k);
    }
  }

  /** Bisection stops at the first range that does not end below level, inside it if it starts below. */
  lemma BisectInRanges(ranges: seq<Range>, level: real, index: nat)
    requires Ascending(ranges) && IsBisectLeft(Flatten(ranges), level, index)
    ensures var start, above := |Flatten(Below(ranges, level))|, NotBelow(ranges, level);
            var entries := Flatten(ranges);
            && start <= |entries| && entries[..start] == Flatten(Below(ranges, level))
            && entries[start..] == Flatten(above)
            && (above == [] ==> index == start == |entries|)
            && (above != [] && level <= above[0].lo ==>
                  index == start < |entries| && entries[index] == above[0].Entries()[0])
            && (above != [] && above[0].lo < level ==>
                  index == start + 1 < |entries| && entries[index] == Entry(above[0].hi, above[0].fn, -1))
  {
    SplitAtLevel(ranges, level);
    LevelsBelow(ranges, level);
    var below, above, entries := Below(ranges, level), NotBelow(ranges, level), Flatten(ranges);
    FlattenConcat(below, above);
    var start := |Flatten(below)|;
    assert entries[..start] == Flatten(below) && entries[start..] == Flatten(above);
    assert forall i :: 0 <= i < start ==> entries[i] == Flatten(below)[i];
    assert index < |entries| ==> level <= entries[index].level;
    if above != [] {
      FirstEntries(above);
      assert entries[start] == Flatten(above)[0];
      if above[0].lo < level {
        assert entries[start + 1] == Flatten(above)[1];
      }
    }
  }

  lemma FirstEntries(ranges: seq<Range>)
    requires ranges != []
    ensures |Flatten(ranges)| >= |ranges[0].Entries()|
    ensures Flatten(ranges)[0] == ranges[0].Entries()[0]
    ensures ranges[0].lo != ranges[0].hi ==> Flatten(ranges)[1] == ranges[0].Entries()[1]
  {
  }

  lemma MeetsBehind(r: Range, ranges: seq<Range>)
    requires ranges != []
    ensures MeetsAny(r, ranges) <==> ranges[0].Meets(r) || MeetsAny(r, ranges[1..])
  {
    assert forall k :: 1 <= k < |ranges| ==> ranges[k] == ranges[1..][k - 1];
    if MeetsAny(r, ranges[1..]) {
      var k :| 0 <= k < |ranges[1..]| && ranges[1..][k].Meets(r);
      assert ranges[k + 1].Meets(r);
    }
  }

  /** If r meets any range it meets the first that does not end below it. */
  lemma {:induction false} MeetsFirstAbove(ranges: seq<Range>, r: Range)
    requires Ascending(ranges) && r.lo <= r.hi
    ensures var above := NotBelow(ranges, r.lo);
            MeetsAny(r, ranges) <==> above != [] && above[0].lo <= r.hi
  {
    if ranges == [] {
    } else {
      if ranges[0].hi < r.lo {
        MeetsBehind(r, ranges);
        MeetsFirstAbove(ranges[1..], r);
      } else if ranges[0].lo <= r.hi {
        assert ranges[0].Meets(r);
      }
    }
  }

  lemma {:induction false} InsertRangeBetween(ranges: seq<Range>, r: Range)
    requires Ascending(ranges) && r.lo <= r.hi && !MeetsAny(r, ranges)
    ensures InsertRange(ranges, r) == Below(ranges, r.lo) + [r] + NotBelow(ranges, r.lo)
  {
    if ranges == [] {
    } else {
      assert !ranges[0].Meets(r);
      if ranges[0].hi < r.lo {
        assert forall k :: 0 <= k < |ranges[1..]| ==> ranges[1..][k] == ranges[k + 1];
        InsertRangeBetween(ranges[1..], r);
      }
    }
  }

  /** What add_fn does to the list is sorted insertion into the map of ranges. */
  lemma SpliceInsertsRange(ranges: seq<Range>, r: Range, index: nat)
    requires Ascending(ranges) && r.lo <= r.hi && !MeetsAny(r, ranges)
    requires IsBisectLeft(Flatten(ranges), r.lo, index)
    ensures var entries := Flatten(ranges);
            entries[..index] + r.Entries() + entries[index..] == Flatten(InsertRange(ranges, r))
  {
    BisectInRanges(ranges, r.lo, index);
    MeetsFirstAbove(ranges, r);
    InsertRangeBetween(ranges, r);
    var below, above := Below(ranges, r.lo), NotBelow(ranges, r.lo);
    FlattenConcat(below + [r], above);
    FlattenConcat(below, [r]);
    assert Flatten([r]) == r.Entries();
  }

  // ---------- lookup ----------

  /** The naive lookup: try every range in turn. */
  function LinearScan(ranges: seq<Range>, level: real): Option<Function> {
    if ranges == [] then None
    else if ranges[0].Covers(level) then Some(ranges[0].fn)
    else LinearScan(ranges[1..], level)
  }

  lemma {:induction false} LinearScanFindsTheRange(ranges: seq<Range>, level: real, fn: Function)
    requires Ascending(ranges)
    ensures LinearScan(ranges, level) == Some(fn) <==>
            exists k :: 0 <= k < |ranges| && ranges[k].Covers(level) && ranges[k].fn == fn
  {
    if ranges == [] {
    } else {
      LinearScanFindsTheRange(ranges[1..], level, fn);
      assert forall k :: 1 <= k < |ranges| ==> ranges[1..][k - 1] == ranges[k];
    }
  }

  lemma {:induction false} LinearScanAbove(ranges: seq<Range>, level: real)
    requires Ascending(ranges)
    ensures var above := NotBelow(ranges, level);
            LinearScan(ranges, level) ==
            if above != [] && above[0].lo <= level then Some(above[0].fn) else None
  {
    if ranges != [] && ranges[0].hi < level {
      LinearScanAbove(ranges[1..], level);
    } else if ranges != [] && level < ranges[0].lo {
      NothingCoversBelow(ranges, level);
    }
  }

  lemma {:induction false} NothingCoversBelow(ranges: seq<Range>, level: real)
    requires Ascending(ranges) && (ranges != [] ==> level < ranges[0].lo)
    ensures LinearScan(ranges, level) == None
  {
    if ranges == [] {
    } else {
      NothingCoversBelow(ranges[1..], level);
    }
  }

  // ---------- printing ----------

  /**
    What print_ranges has still to print is left: either whole ranges, or the upper end of one
    whose lower end was just read.
   */
  ghost predicate PrintsTheRest(entries: seq<Entry>, minBoundary: Option<real>, left: seq<Range>) {
    if entries != [] && entries[0].direction == -1 then
      && left != []
      && minBoundary == Some(left[0].lo) && entries[0].level == left[0].hi
      && Paired(entries[1..]) && Ranges(entries[1..]) == left[1..]
    else
      Paired(entries) && Ranges(entries) == left
  }

  lemma PrintOne(entries: seq<Entry>, minBoundary: Option<real>, left: seq<Range>)
    requires entries != [] && PrintsTheRest(entries, minBoundary, left)
    ensures left != [] && (entries[0].direction == 1 || entries[0].direction == 0 || entries[0].direction == -1)
    ensures entries[0].direction == 1 ==> PrintsTheRest(entries[1..], Some(entries[0].level), left)
    ensures entries[0].direction == 0 ==>
              left[0].lo == left[0].hi == entries[0].level && PrintsTheRest(entries[1..], minBoundary, left[1..])
    ensures entries[0].direction == -1 ==>
              minBoundary == Some(left[0].lo) && left[0].hi == entries[0].level
              && PrintsTheRest(entries[1..], minBoundary, left[1..])
  {
    assert Paired(entries[1..]) && entries[0].direction != 1 && entries[1..] != [] ==> entries[1..][0].direction != -1;
    if entries[0].direction == 1 {
      assert entries[1..][1..] == entries[2..];
    }
  }

  // ---------- the class ----------

  class VersionSelector {
    var entryList: seq<Entry>
    var instance: Option<nat>

    ghost predicate Valid()
      reads this
    {
      WellFormed(entryList)
    }

    constructor ()
      ensures Valid() && entryList == [] && instance == None
    {
      entryList := [];
      instance := None;
    }

    /** False stands for the ValueError; the list is then as before. */
    method AddFn(fn: Function, minVersion: real, maxVersion: real) returns (added: bool)
      requires Valid()
      modifies this`entryList
      ensures Valid()
      ensures added <==> minVersion <= maxVersion
                         && !MeetsAny(Range(minVersion, maxVersion, fn), Ranges(old(entryList)))
      ensures Ranges(entryList) ==
              if added then InsertRange(Ranges(old(entryList)), Range(minVersion, maxVersion, fn))
              else Ranges(old(entryList))
      ensures !added ==> entryList == old(entryList)
    {
      if minVersion > maxVersion {
        return false;
      }
      ghost var ranges, r := Ranges(entryList), Range(minVersion, maxVersion, fn);
      RangesAreAscending(entryList);
      MeetsFirstAbove(ranges, r);
      var insertionIndex := BisectLeft(entryList, minVersion);
      BisectInRanges(ranges, minVersion, insertionIndex);
      if insertionIndex != |entryList| {
        var rightNeighbor := entryList[insertionIndex];
        if !(minVersion <= maxVersion < rightNeighbor.level && rightNeighbor.direction != -1) {
          return false;
        }
      }
      SpliceInsertsRange(ranges, r, insertionIndex);
      if minVersion == maxVersion {
        var newEntry := Entry(minVersion, fn, 0);
        entryList := entryList[..insertionIndex] + [newEntry] + entryList[insertionIndex..];
      } else {
        entryList := entryList[..insertionIndex] + [Entry(minVersion, fn, 1), Entry(maxVersion, fn, -1)]
                     + entryList[insertionIndex..];
      }
      InsertRangeKeepsAscending(ranges, r);
      FlattenIsWellFormed(InsertRange(ranges, r));
      added := true;
    }

    /** Sets the object that the next call is made on. */
    method Get(instance: Option<nat>)
      modifies this`instance
      ensures this.instance == instance
    {
      this.instance := instance;
    }

    /** Calling the selector; level is what the version function returned. */
    method Call(level: Level) returns (result: CallResult)
      requires Valid()
      ensures level.NotANumber? ==> result == ValueError
      ensures level.Number? && entryList == [] ==> result == IndexError
      ensures level.Number? && entryList != [] ==>
                result == match LinearScan(Ranges(entryList), level.level)
                          case Some(fn) => Called(fn, instance)
                          case None => NotImplementedError
    {
      if level.NotANumber? {
        return ValueError;
      }
      ghost var ranges := Ranges(entryList);
      RangesAreAscending(entryList);
      LinearScanAbove(ranges, level.level);
      var index := BisectLeft(entryList, level.level);
      BisectInRanges(ranges, level.level, index);
      if index == |entryList| {
        // the message names the first function, which an empty selector does not have
        return if |entryList| == 0 then IndexError else NotImplementedError;
      }
      var closest := entryList[index];
      if || (closest.direction == 0 && closest.level != level.level)
         || (closest.direction == 1 && closest.level > level.level)
         || (closest.direction == -1 && closest.level < level.level) {
        return NotImplementedError;
      }
      result := Called(closest.fn, instance);
    }

    /** The ends of every range, in ascending order. */
    method PrintRanges() returns (printed: seq<(real, real)>)
      requires Valid()
      ensures |printed| == |Ranges(entryList)|
      ensures forall k :: 0 <= k < |printed| ==>
                printed[k] == (Ranges(entryList)[k].lo, Ranges(entryList)[k].hi)
    {
      printed := [];
      var minBoundary: Option<real> := None;
      ghost var ranges := Ranges(entryList);
      for i := 0 to |entryList|
        invariant |printed| <= |ranges|
        invariant PrintsTheRest(entryList[i..], minBoundary, ranges[|printed|..])
        invariant forall k :: 0 <= k < |printed| ==> printed[k] == (ranges[k].lo, ranges[k].hi)
      {
        var entry := entryList[i];
        assert entryList[i..][1..] == entryList[i + 1..];
        ghost var left := ranges[|printed|..];
        PrintOne(entryList[i..], minBoundary, left);
        assert left[1..] == ranges[|printed| + 1..];
        if entry.direction == 1 {
          minBoundary := Some(entry.level);
        } else if entry.direction == 0 {
          printed := printed + [(entry.level, entry.level)];
        } else {
          printed := printed + [(minBoundary.value, entry.level)];
        }
      }
    }
  }
}
