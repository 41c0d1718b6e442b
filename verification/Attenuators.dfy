/**
  Attenuators and groups of attenuators (controllers/attenuator.py) over instruments whose
  slots several attenuators may share. Attenuation is a real number; rounding is not modelled.
 */
module Attenuators {

  datatype SetResult = Done | ValueError | IndexError | InvalidOperation

  datatype Reading = Level(value: real) | Unreadable

  /** The instrument as the attenuators see it: one level for each slot, behind a connection. */
  class AttenuatorInstrument {
    const maxAtten: real
    const numAtten: nat
    var isOpen: bool
    var levels: seq<real>

    ghost predicate Valid()
      reads this
    {
      |levels| == numAtten
    }

    constructor (numAtten: nat, maxAtten: real)
      ensures Valid() && this.numAtten == numAtten && this.maxAtten == maxAtten && isOpen
    {
      this.numAtten, this.maxAtten := numAtten, maxAtten;
      isOpen, levels := true, seq(numAtten, _ => 0.0);
    }

    /** Out of strict mode the device itself limits the value. */
    method SetAtten(idx: nat, value: real, strict: bool) returns (result: SetResult)
      requires Valid()
      modifies this`levels
      ensures Valid()
      ensures result == InvalidOperation <==> !isOpen
      ensures result == IndexError <==> isOpen && idx >= numAtten
      ensures result == ValueError <==> isOpen && idx < numAtten && strict && value > maxAtten
      ensures result == Done ==> levels == old(levels)[idx := levels[idx]]
      ensures result == Done && strict ==> levels[idx] == value
      ensures result == Done && !strict && maxAtten >= 0.0 ==> IsNearest(levels[idx], value, maxAtten)
      ensures result != Done ==> levels == old(levels)
    {
      if !isOpen {
        return InvalidOperation;
      }
      if idx >= numAtten {
        return IndexError;
      }
      if value > maxAtten && strict {
        return ValueError;
      }
      levels := levels[idx := Limited(value, maxAtten, strict)];
      result := Done;
    }

    method GetAtten(idx: nat) returns (reading: Reading)
      requires Valid()
      ensures reading == if isOpen && idx < numAtten then Level(levels[idx]) else Unreadable
    {
      if !isOpen || idx >= numAtten {
        return Unreadable;
      }
      reading := Level(levels[idx]);
    }
  }

  /** The level between 0 and the maximum that is wanted, or the end of the range on the side where it would be. */
  ghost predicate IsNearest(level: real, wanted: real, maxAtten: real) {
    && 0.0 <= level <= maxAtten
    && (0.0 <= wanted <= maxAtten ==> level == wanted)
    && (wanted > maxAtten ==> level == maxAtten)
    && (wanted < 0.0 ==> level == 0.0)
  }

  /** No level in range is nearer to the wanted one, and none is as near. */
  lemma NearestIsUnique(level: real, wanted: real, maxAtten: real)
    requires maxAtten >= 0.0
    ensures IsNearest(level, wanted, maxAtten) <==>
            && 0.0 <= level <= maxAtten
            && forall other :: 0.0 <= other <= maxAtten && other != level ==>
                                 Distance(level, wanted) < Distance(other, wanted)
  {
    var nearest := if wanted > maxAtten then maxAtten else if wanted < 0.0 then 0.0 else wanted;
    if level != nearest && 0.0 <= level <= maxAtten {
      assert Distance(nearest, wanted) < Distance(level, wanted);
    }
  }

  function Distance(a: real, b: real): real {
    if a < b then b - a else a - b
  }

  function Limited(value: real, maxAtten: real, strict: bool): real {
    if strict then value else if value > maxAtten then maxAtten else if value < 0.0 then 0.0 else value
  }

  /** An attenuator: a slot of an instrument, and an offset that never changes. */
  datatype Attenuator = Attenuator(instrument: AttenuatorInstrument, idx: nat, offset: real) {
    ghost predicate Valid()
      reads instrument
    {
      instrument.Valid() && idx < instrument.numAtten
    }

    predicate SameSlot(other: Attenuator) {
      instrument == other.instrument && idx == other.idx
    }

    /** Whether setting value succeeds. */
    predicate Accepts(value: real)
      reads instrument`isOpen
    {
      instrument.isOpen && value + offset <= instrument.maxAtten
    }

    ghost function SlotLevel(): real
      requires Valid()
      reads instrument
    {
      instrument.levels[idx]
    }

    method SetAtten(value: real, strict: bool) returns (result: SetResult)
      requires Valid()
      modifies instrument`levels
      ensures Valid()
      ensures result == if strict && value + offset > instrument.maxAtten then ValueError
                        else if !instrument.isOpen then InvalidOperation else Done
      ensures strict ==> (result == Done <==> Accepts(value))
      ensures result == Done ==> instrument.levels == old(instrument.levels)[idx := instrument.levels[idx]]
      ensures result == Done && strict ==> instrument.levels[idx] == value + offset
      ensures result == Done && !strict && instrument.maxAtten >= 0.0 ==>
                var level, wanted, maxAtten := instrument.levels[idx], value + offset, instrument.maxAtten;
                && 0.0 <= level <= maxAtten
                && (0.0 <= wanted <= maxAtten ==> level == wanted)
                && (wanted > maxAtten ==> level == maxAtten)
                && (wanted < 0.0 ==> level == 0.0)
      ensures result != Done ==> instrument.levels == old(instrument.levels)
    {
      if value + offset > instrument.maxAtten && strict {
        return ValueError;
      }
      result := instrument.SetAtten(idx, value + offset, strict);
    }

    /** The level of the slot without the offset. */
    method GetAtten() returns (reading: Reading)
      requires Valid()
      ensures reading == if instrument.isOpen then Level(SlotLevel() - offset) else Unreadable
    {
      var raw := instrument.GetAtten(idx);
      reading := if raw.Level? then Level(raw.value - offset) else Unreadable;
    }
  }

  /** The offset of the last of the first n members that share a's slot, if there is one. */
  function LastOffset(attens: seq<Attenuator>, n: nat, a: Attenuator): (offset: real)
    requires n <= |attens|
    decreases n
  {
    if n == 0 then a.offset
    else if attens[n - 1].SameSlot(a) then attens[n - 1].offset
    else LastOffset(attens, n - 1, a)
  }

  ghost predicate Named(attens: seq<Attenuator>, n: nat, instrument: AttenuatorInstrument, idx: nat)
    requires n <= |attens|
  {
    exists j :: 0 <= j < n && attens[j].instrument == instrument && attens[j].idx == idx
  }

  /** Members that share a slot share an offset. */
  predicate OffsetsAgree(attens: seq<Attenuator>) {
    forall i, j :: 0 <= i < j < |attens| && attens[i].SameSlot(attens[j]) ==> attens[i].offset == attens[j].offset
  }

  lemma {:induction false} LastOffsetIsAMember(attens: seq<Attenuator>, n: nat, j: nat)
    requires j < n <= |attens|
    ensures exists k :: (j <= k < n && attens[k].SameSlot(attens[j])
                         && LastOffset(attens, n, attens[j]) == attens[k].offset)
    decreases n
  {
    if attens[n - 1].SameSlot(attens[j]) {
      assert j <= n - 1 < n;
    } else {
      LastOffsetIsAMember(attens, n - 1, j);
    }
  }

  lemma {:induction false} LastOffsetOfSlot(attens: seq<Attenuator>, n: nat, a: Attenuator, b: Attenuator)
    requires n <= |attens| && a.SameSlot(b)
    requires exists k :: 0 <= k < n && attens[k].SameSlot(a)
    ensures LastOffset(attens, n, a) == LastOffset(attens, n, b)
    decreases n
  {
    if attens[n - 1].SameSlot(a) {
    } else {
      LastOffsetOfSlot(attens, n - 1, a, b);
    }
  }

  /** Every member finds its own offset in its slot exactly when sharers agree. */
  lemma LastWritesAgree(attens: seq<Attenuator>)
    ensures (forall j :: 0 <= j < |attens| ==> LastOffset(attens, |attens|, attens[j]) == attens[j].offset)
            <==> OffsetsAgree(attens)
  {
    var n := |attens|;
    if OffsetsAgree(attens) {
      forall j | 0 <= j < n
        ensures LastOffset(attens, n, attens[j]) == attens[j].offset
      {
        LastOffsetIsAMember(attens, n, j);
      }
    }
    if forall j :: 0 <= j < n ==> LastOffset(attens, n, attens[j]) == attens[j].offset {
      forall i, j | 0 <= i < j < n && attens[i].SameSlot(attens[j])
        ensures attens[i].offset == attens[j].offset
      {
        assert attens[i].SameSlot(attens[i]);
        LastOffsetOfSlot(attens, n, attens[i], attens[j]);
        assert LastOffset(attens, n, attens[i]) == attens[i].offset;
        assert LastOffset(attens, n, attens[j]) == attens[j].offset;
      }
    }
  }
}
