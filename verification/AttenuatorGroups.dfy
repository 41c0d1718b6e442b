/** Groups of attenuators that are set together (controllers/attenuator.py). */
module AttenuatorGroups {
  import opened Attenuators

  datatype Synchronized = Yes | No | Unknown

  /** The levels of every slot of some instruments. */
  type Levels = map<AttenuatorInstrument, seq<real>>

  ghost predicate Covers(attens: seq<Attenuator>, levels: Levels) {
    forall j :: 0 <= j < |attens| ==> attens[j].instrument in levels && attens[j].idx < |levels[attens[j].instrument]|
  }

  /** The first n members have written v: each slot holds what the last of them wrote. */
  ghost predicate WrittenIn(attens: seq<Attenuator>, n: nat, v: real, levels: Levels)
    requires n <= |attens| && Covers(attens, levels)
  {
    forall j :: 0 <= j < n ==>
                  levels[attens[j].instrument][attens[j].idx] == v + LastOffset(attens, n, attens[j])
  }

  /** Slots that none of the first n members name are as in before. */
  ghost predicate OthersAsIn(attens: seq<Attenuator>, n: nat, levels: Levels, before: Levels)
    requires n <= |attens|
  {
    forall instrument :: instrument in levels ==>
      && instrument in before && |levels[instrument]| == |before[instrument]|
      && forall idx :: 0 <= idx < |levels[instrument]| && !Named(attens, n, instrument, idx) ==>
           levels[instrument][idx] == before[instrument][idx]
  }

  /** The levels after a has been set to v. */
  ghost function Write(levels: Levels, a: Attenuator, v: real): Levels
    requires a.instrument in levels && a.idx < |levels[a.instrument]|
  {
    levels[a.instrument := levels[a.instrument][a.idx := v + a.offset]]
  }

  lemma WrittenAfterOneMore(attens: seq<Attenuator>, i: nat, v: real, levels: Levels)
    requires i < |attens| && Covers(attens, levels) && WrittenIn(attens, i, v, levels)
    ensures Covers(attens, Write(levels, attens[i], v))
    ensures WrittenIn(attens, i + 1, v, Write(levels, attens[i], v))
  {
  }

  lemma OthersAfterOneMore(attens: seq<Attenuator>, i: nat, v: real, levels: Levels, before: Levels)
    requires i < |attens| && Covers(attens, levels) && OthersAsIn(attens, i, levels, before)
    ensures OthersAsIn(attens, i + 1, Write(levels, attens[i], v), before)
  {
    var after := Write(levels, attens[i], v);
    assert Named(attens, i + 1, attens[i].instrument, attens[i].idx);
    forall instrument, idx | instrument in after && 0 <= idx < |after[instrument]|
      && !Named(attens, i + 1, instrument, idx)
      ensures after[instrument][idx] == before[instrument][idx]
    {
      assert !Named(attens, i, instrument, idx);
      assert instrument != attens[i].instrument || idx != attens[i].idx;
    }
  }

  class AttenuatorGroup {
    var attens: seq<Attenuator>
    var value: real

    ghost predicate Valid()
      reads this`attens, Instruments()
    {
      forall i :: 0 <= i < |attens| ==> attens[i].Valid()
    }

    ghost function Instruments(): set<AttenuatorInstrument>
      reads this`attens
    {
      set i | 0 <= i < |attens| :: attens[i].instrument
    }

    constructor ()
      ensures Valid() && attens == [] && value == 0.0
    {
      attens, value := [], 0.0;
    }

    method Add(attenuator: Attenuator)
      requires Valid() && attenuator.Valid()
      modifies this`attens
      ensures Valid() && attens == old(attens) + [attenuator]
    {
      attens := attens + [attenuator];
    }

    ghost function AllLevels(): (levels: Levels)
      requires Valid()
      ensures Covers(attens, levels)
      reads this`attens, Instruments()
    {
      var levels := map instrument | instrument in Instruments() :: instrument.levels;
      assert forall j :: 0 <= j < |attens| ==> attens[j].Valid() && attens[j].instrument in Instruments();
      levels
    }

    /** The first n members have written v, and nothing else has changed. */
    ghost predicate Written(n: nat, v: real, before: Levels)
      requires n <= |attens| && Valid()
      reads this`attens, Instruments()
    {
      WrittenIn(attens, n, v, AllLevels()) && OthersAsIn(attens, n, AllLevels(), before)
    }

    /** The first n members accept v. */
    ghost predicate Accepted(n: nat, v: real)
      requires n <= |attens|
      reads this`attens, Instruments()`isOpen
    {
      forall j :: 0 <= j < n ==> attens[j].Accepts(v)
    }

    /** Exactly the first n members have been set to v. */
    ghost predicate SetSoFar(n: nat, v: real, before: Levels)
      requires Valid()
      reads this`attens, Instruments()
    {
      n <= |attens| && Accepted(n, v) && Written(n, v, before)
    }

    /**
      Sets every member in turn. If one refuses, exactly the members before it have been written,
      and the group keeps its value.
     */
    method SetAtten(v: real) returns (result: SetResult, ghost written: nat)
      requires Valid()
      modifies this`value, Instruments()`levels
      ensures Valid() && SetSoFar(written, v, old(AllLevels()))
      ensures result == Done <==> Accepted(|attens|, v)
      ensures result == Done ==> written == |attens| && value == v
      ensures result == Done ==> (AllRead(value) <==> OffsetsAgree(attens))
      ensures result != Done ==> value == old(value) && written < |attens| && !attens[written].Accepts(v)
    {
      result, written := SetMembers(v);
      if result == Done {
        value := v;
        SetMeansSynchronizedIff(old(AllLevels()));
      }
    }

    method SetMembers(v: real) returns (result: SetResult, ghost written: nat)
      requires Valid()
      modifies Instruments()`levels
      ensures Valid() && SetSoFar(written, v, old(AllLevels()))
      ensures if result == Done then written == |attens| else written < |attens| && !attens[written].Accepts(v)
    {
      ghost var before := AllLevels();
      result, written := Done, 0;
      for i := 0 to |attens|
        invariant Valid() && written == i && result == Done && SetSoFar(i, v, before)
      {
        assert attens[i].instrument in Instruments();
        result := SetMember(i, v, before);
        if result != Done {
          return;
        }
        written := i + 1;
      }
    }

    method SetMember(i: nat, v: real, ghost before: Levels) returns (result: SetResult)
      requires Valid() && i < |attens| && SetSoFar(i, v, before)
      modifies attens[i].instrument`levels
      ensures Valid()
      ensures result == Done <==> attens[i].Accepts(v)
      ensures result == Done ==> SetSoFar(i + 1, v, before)
      ensures result != Done ==> SetSoFar(i, v, before)
    {
      ghost var levels := AllLevels();
      result := WriteMember(i, v);
      if result == Done {
        WrittenByOneMore(i, v, levels, before);
      }
    }

    lemma WrittenByOneMore(i: nat, v: real, levels: Levels, before: Levels)
      requires Valid() && i < |attens| && Covers(attens, levels)
      requires WrittenIn(attens, i, v, levels) && OthersAsIn(attens, i, levels, before)
      requires AllLevels() == Write(levels, attens[i], v)
      ensures Written(i + 1, v, before)
    {
      WrittenAfterOneMore(attens, i, v, levels);
      OthersAfterOneMore(attens, i, v, levels, before);
    }

    method WriteMember(i: nat, v: real) returns (result: SetResult)
      requires Valid() && i < |attens|
      modifies attens[i].instrument`levels
      ensures Valid()
      ensures result == Done <==> attens[i].Accepts(v)
      ensures result == Done ==> AllLevels() == Write(old(AllLevels()), attens[i], v)
      ensures result != Done ==> AllLevels() == old(AllLevels())
    {
      result := attens[i].SetAtten(v, true);
    }

    /** Sets every member to the group's own value, with the same outcome when one refuses. */
    method Synchronize() returns (result: SetResult, ghost written: nat)
      requires Valid()
      modifies this`value, Instruments()`levels
      ensures Valid() && value == old(value) && SetSoFar(written, value, old(AllLevels()))
      ensures result == Done <==> Accepted(|attens|, value)
      ensures result == Done ==> written == |attens| && (AllRead(value) <==> OffsetsAgree(attens))
      ensures result != Done ==> written < |attens| && !attens[written].Accepts(value)
    {
      result, written := SetAtten(value);
    }

    /** Every member can be read, and reads v. */
    ghost predicate AllRead(v: real)
      requires Valid()
      reads this`attens, Instruments()
    {
      forall i :: 0 <= i < |attens| ==> attens[i].instrument.isOpen && attens[i].SlotLevel() - attens[i].offset == v
    }

    /** Whether every member reads the group's value; reading a closed instrument raises. */
    method IsSynchronized() returns (answer: Synchronized)
      requires Valid()
      ensures answer == Yes <==> AllRead(value)
      ensures answer == Unknown ==> exists i :: 0 <= i < |attens| && !attens[i].instrument.isOpen
      ensures Accepted(|attens|, value) ==> answer != Unknown
    {
      for i := 0 to |attens|
        invariant forall j :: 0 <= j < i ==>
            attens[j].instrument.isOpen && attens[j].SlotLevel() - attens[j].offset == value
      {
        var reading := attens[i].GetAtten();
        if reading == Unreadable {
          return Unknown;
        }
        if reading.value != value {
          return No;
        }
      }
      answer := Yes;
    }

    /** After a successful set the group is synchronized exactly when members that share a slot share an offset. */
    lemma SynchronizedIffOffsetsAgree()
      requires Valid() && WrittenIn(attens, |attens|, value, AllLevels())
      requires forall i :: 0 <= i < |attens| ==> attens[i].instrument.isOpen
      ensures AllRead(value) <==> OffsetsAgree(attens)
    {
      LastWritesAgree(attens);
    }

    lemma SetMeansSynchronizedIff(before: Levels)
      requires Valid() && SetSoFar(|attens|, value, before)
      ensures AllRead(value) <==> OffsetsAgree(attens)
    {
      assert forall i :: 0 <= i < |attens| ==> attens[i].Accepts(value);
      SynchronizedIffOffsetsAgree();
    }
  }

  lemma SharersDisagree(first: Attenuator, second: Attenuator)
    requires first.SameSlot(second) && first.offset != second.offset
    ensures !OffsetsAgree([first, second])
  {
    var attens := [first, second];
    assert attens[0].SameSlot(attens[1]);
  }

  method GroupOfTwo(first: Attenuator, second: Attenuator) returns (group: AttenuatorGroup)
    requires first.Valid() && second.Valid()
    ensures fresh(group) && group.Valid() && group.attens == [first, second]
  {
    group := new AttenuatorGroup();
    group.Add(first);
    group.Add(second);
  }

  /** A group whose members accept v is set to v, and is then synchronized if and only if sharers of a slot agree. */
  method SetAndCheck(group: AttenuatorGroup, v: real) returns (result: SetResult, answer: Synchronized)
    requires group.Valid() && group.Accepted(|group.attens|, v)
    modifies group`value, group.Instruments()`levels
    ensures result == Done
    ensures answer == if OffsetsAgree(old(group.attens)) then Yes else No
  {
    var outcome, _ := group.SetAtten(v);
    result := outcome;
    answer := group.IsSynchronized();
  }

  /** For one: two members on one slot with different offsets are set successfully and are not synchronized. */
  method SharersWithDifferentOffsets() returns (result: SetResult, answer: Synchronized)
    ensures result == Done && answer == No
  {
    var instrument := new AttenuatorInstrument(1, 10.0);
    var first, second := Attenuator(instrument, 0, 0.0), Attenuator(instrument, 0, 1.0);
    var group := GroupOfTwo(first, second);
    SharersDisagree(first, second);
    result, answer := SetAndCheck(group, 5.0);
  }
}
