/**
  What the calls that handlers make on the bus come to, in terms of the calls themselves: every
  run of calls and every post is a trace of registries, one for each call or delivery.
 */
module HandlerCalls {
  import opened Wrappers
  import opened Events
  import opened BusRegistry
  import opened RegistryLaws
  import opened Posting
  import opened PostingLaws

  // ---------- the meaning of one call ----------

  /** One registration of s is gone, if there was one, and its id is forgotten; nothing else has changed. */
  ghost predicate OneGone(before: Registry, after: Registry, s: Subscription) {
    && (forall x :: Count(after.live, x) ==
                    if x == s && Count(before.live, s) > 0 then Count(before.live, s) - 1 else Count(before.live, x))
    && (forall x :: x in after.known <==> x in before.known && x != s)
  }

  /** What a call on the bus does to its registry, and which deliveries it causes. */
  ghost predicate Called(before: Registry, action: Action, after: Registry, log: seq<Delivered>) {
    match action
    case DoRegister(s) =>
      && after.live == before.live + [Registration(s, before.clock)] && after.clock > before.clock
      && after.known == before.known + {s} && log == []
    case DoUnregister(ByObject(s)) => OneGone(before, after, s) && log == []
    case DoUnregister(ById(IdOf(s))) =>
      (if s in before.known then OneGone(before, after, s) else after == before) && log == []
    case DoUnregister(ById(Stray(_))) => after == before && log == []
    case DoUnregister(NotAnId) => after == before && log == []
    case DoUnregisterAll(None) =>
      && (forall s :: Count(after.live, s) ==
                      if s in before.known && Count(before.live, s) > 0 then Count(before.live, s) - 1
                      else Count(before.live, s))
      && after.known == {} && log == []
    case DoUnregisterAll(Some(t)) =>
      && (forall s :: Count(after.live, s) ==
                      if s.eventType == t && s in before.known && Count(before.live, s) > 0
                      then Count(before.live, s) - 1 else Count(before.live, s))
      && (forall s :: s in after.known <==> s in before.known && s.eventType != t) && log == []
    case DoPost(event, ignoreErrors, behaviours) =>
      var posted := PostRun(before, event, ignoreErrors, behaviours);
      after == posted.registry && log == posted.log
  }

  lemma UnregisterMeansOneGone(reg: Registry, s: Subscription)
    ensures OneGone(reg, reg.Unregister(s), s)
  {
    forall x
      ensures Count(reg.Unregister(s).live, x) ==
              if x == s && Count(reg.live, s) > 0 then Count(reg.live, s) - 1 else Count(reg.live, x)
    {
      CountWithoutFirst(reg.live, {s}, x);
    }
  }

  lemma UnregisterAllMeans(reg: Registry, fromEvent: Option<EventType>, s: Subscription)
    ensures var after := reg.UnregisterAll(fromEvent);
            && Count(after.live, s) ==
               (if (fromEvent == None || s.eventType == fromEvent.value) && s in reg.known && Count(reg.live, s) > 0
                then Count(reg.live, s) - 1 else Count(reg.live, s))
            && (s in after.known <==> s in reg.known && !(fromEvent == None || s.eventType == fromEvent.value))
  {
    CountWithoutFirst(reg.live, (set x | x in reg.known && Concerns(fromEvent, x)), s);
  }

  lemma CallHasItsMeaning(reg: Registry, action: Action)
    ensures Called(reg, action, ActOnce(reg, action).registry, ActOnce(reg, action).log)
  {
    match action
    case DoRegister(s) =>
    case DoUnregister(ByObject(s)) => UnregisterMeansOneGone(reg, s);
    case DoUnregister(ById(IdOf(s))) => UnregisterMeansOneGone(reg, s);
    case DoUnregister(_) =>
    case DoUnregisterAll(fromEvent) =>
      forall s
        ensures Count(reg.UnregisterAll(fromEvent).live, s) ==
                (if (fromEvent == None || s.eventType == fromEvent.value) && s in reg.known && Count(reg.live, s) > 0
                 then Count(reg.live, s) - 1 else Count(reg.live, s))
        ensures s in reg.UnregisterAll(fromEvent).known <==>
                s in reg.known && !(fromEvent == None || s.eventType == fromEvent.value)
      {
        UnregisterAllMeans(reg, fromEvent, s);
      }
    case DoPost(event, ignoreErrors, behaviours) =>
  }

  // ---------- a run of calls ----------

  function Flat(logs: seq<seq<Delivered>>): seq<Delivered> {
    if logs == [] then [] else logs[0] + Flat(logs[1..])
  }

  /** regs are the registries between the calls, logs what each of them delivers. */
  ghost predicate IsTrace(actions: seq<Action>, regs: seq<Registry>, logs: seq<seq<Delivered>>) {
    && |regs| == |actions| + 1 && |logs| == |actions|
    && forall i :: 0 <= i < |actions| ==> Called(regs[i], actions[i], regs[i + 1], logs[i])
  }

  /** Every run of calls makes all of them, one after the other. */
  lemma {:induction false} RunIsTrace(reg: Registry, actions: seq<Action>)
    returns (regs: seq<Registry>, logs: seq<seq<Delivered>>)
    ensures IsTrace(actions, regs, logs)
    ensures regs[0] == reg && regs[|actions|] == ActRun(reg, actions).registry
    ensures ActRun(reg, actions).log == Flat(logs)
    decreases actions
  {
    if actions == [] {
      regs, logs := [reg], [];
    } else {
      var first := ActOnce(reg, actions[0]);
      CallHasItsMeaning(reg, actions[0]);
      var regs1, logs1 := RunIsTrace(first.registry, actions[1..]);
      regs, logs := [reg] + regs1, [first.log] + logs1;
      forall i | 0 <= i < |actions|
        ensures Called(regs[i], actions[i], regs[i + 1], logs[i])
      {
        if i > 0 {
          assert actions[i] == actions[1..][i - 1];
        }
      }
      assert logs[1..] == logs1;
    }
  }

  lemma {:induction false} RunOfConcat(reg: Registry, a: seq<Action>, b: seq<Action>)
    ensures var first := ActRun(reg, a);
            var rest := ActRun(first.registry, b);
            ActRun(reg, a + b) == Acted(rest.registry, first.log + rest.log)
    decreases a
  {
    if a == [] {
      assert a + b == b;
    } else {
      assert (a + b)[0] == a[0] && (a + b)[1..] == a[1..] + b;
      RunOfConcat(ActOnce(reg, a[0]).registry, a[1..], b);
    }
  }

  /** The last call of a run is made on what the calls before it have left. */
  lemma LastCall(reg: Registry, actions: seq<Action>, last: Action) returns (log: seq<Delivered>)
    ensures var before, after := ActRun(reg, actions), ActRun(reg, actions + [last]);
            Called(before.registry, last, after.registry, log) && after.log == before.log + log
  {
    var before := ActRun(reg, actions);
    RunOfConcat(reg, actions, [last]);
    CallHasItsMeaning(before.registry, last);
    log := ActOnce(before.registry, last).log;
    assert [last][1..] == [] && log + [] == log;
  }

  /** A handler that registers s has it on the bus once more, with a known id, where the next event finds it. */
  lemma RegisterInHandler(reg: Registry, actions: seq<Action>, s: Subscription, next: EventObject)
    ensures var before, after := ActRun(reg, actions), ActRun(reg, actions + [DoRegister(s)]);
            && Count(after.registry.live, s) == Count(before.registry.live, s) + 1
            && (forall x :: x != s ==> Count(after.registry.live, x) == Count(before.registry.live, x))
            && s in after.registry.known && after.log == before.log
            && (s.eventType in next.mro ==> s in Snapshot(after.registry, next))
  {
    var before, after := ActRun(reg, actions), ActRun(reg, actions + [DoRegister(s)]);
    var log := LastCall(reg, actions, DoRegister(s));
    assert before.log + [] == before.log;
    forall x
      ensures Count(after.registry.live, x) == Count(before.registry.live, x) + if x == s then 1 else 0
    {
      CountSnoc(before.registry.live, Registration(s, before.registry.clock), x);
    }
    CountSubs(after.registry.live, s);
    NotDeliveredUnlessLive(after.registry, next.mro, s);
  }

  /** A handler that unregisters everything empties an agreed bus, or empties it of one type. */
  lemma UnregisterAllInHandler(reg: Registry, actions: seq<Action>, t: EventType)
    requires ActRun(reg, actions).registry.Agreed()
    ensures var after := ActRun(reg, actions + [DoUnregisterAll(None)]).registry;
            after.live == [] && after.known == {}
    ensures var before := ActRun(reg, actions).registry;
            var after := ActRun(reg, actions + [DoUnregisterAll(Some(t))]).registry;
            forall s :: (after.Has(s) <==> before.Has(s) && s.eventType != t)
                        && (s in after.known <==> before.Has(s) && s.eventType != t)
  {
    var before := ActRun(reg, actions).registry;
    NoneTwiceMeansCount(before.live);
    var log := LastCall(reg, actions, DoUnregisterAll(None));
    var after := ActRun(reg, actions + [DoUnregisterAll(None)]).registry;
    if after.live != [] {
      CountSubs(before.live, after.live[0].sub);
      CountSubs(after.live, after.live[0].sub);
    }
    var log' := LastCall(reg, actions, DoUnregisterAll(Some(t)));
    var after' := ActRun(reg, actions + [DoUnregisterAll(Some(t))]).registry;
    forall s
      ensures after'.Has(s) <==> before.Has(s) && s.eventType != t
    {
      CountSubs(before.live, s);
      CountSubs(after'.live, s);
    }
  }

  // ---------- a post ----------

  /** The log of a post: each delivery, and right behind it what its handler posted. */
  function Interleaved(visited: seq<Subscription>, event: EventObject, nested: seq<seq<Delivered>>): seq<Delivered>
    requires |visited| == |nested|
  {
    if visited == [] then []
    else [Delivered(visited[0], event)] + nested[0] + Interleaved(visited[1..], event, nested[1..])
  }

  /**
    One delivery: unless the filter rejects the event, the handler makes its calls, and it makes
    them whether or not it raises in the end.
   */
  ghost predicate Took(s: Subscription, behaviours: seq<Behaviour>, k: nat, before: Registry, after: Registry,
                       nested: seq<Delivered>) {
    if k < |behaviours| && (s.filtered ==> behaviours[k].accepts) then
      ActRun(before, behaviours[k].actions) == Acted(after, nested)
    else
      after == before && nested == []
  }

  /** Whether delivery k raises: only a handler that runs does. */
  predicate Raises(snapshot: seq<Subscription>, behaviours: seq<Behaviour>, k: nat) {
    && k < |snapshot| && k < |behaviours|
    && (snapshot[k].filtered ==> behaviours[k].accepts) && behaviours[k].raises
  }

  lemma {:induction false} DeliveriesAreTrace(reg: Registry, snapshot: seq<Subscription>, event: EventObject,
                                              ignoreErrors: bool, behaviours: seq<Behaviour>, k: nat)
    returns (regs: seq<Registry>, nested: seq<seq<Delivered>>)
    requires k <= |snapshot|
    ensures var outcome := DeliverFrom(reg, snapshot, event, ignoreErrors, behaviours, k);
            var n := |outcome.visited|;
            && k + n <= |snapshot| && outcome.visited == snapshot[k..k + n]
            && |regs| == n + 1 && |nested| == n && regs[0] == reg && regs[n] == outcome.registry
            && outcome.log == Interleaved(outcome.visited, event, nested)
            && (forall i :: 0 <= i < n ==> Took(snapshot[k + i], behaviours, k + i, regs[i], regs[i + 1], nested[i]))
    decreases |snapshot| - k
  {
    if k == |snapshot| {
      regs, nested := [reg], [];
    } else {
      var acted := ActedAt(reg, snapshot[k], behaviours, k);
      var outcome := DeliverFrom(reg, snapshot, event, ignoreErrors, behaviours, k);
      assert Took(snapshot[k], behaviours, k, reg, acted.registry, acted.log);
      if RaisesAt(snapshot, behaviours, k) && !ignoreErrors {
        regs, nested := [reg, acted.registry], [acted.log];
        assert outcome.visited[1..] == [] && nested[1..] == [];
      } else {
        var rest := DeliverFrom(acted.registry, snapshot, event, ignoreErrors, behaviours, k + 1);
        var regs1, nested1 := DeliveriesAreTrace(acted.registry, snapshot, event, ignoreErrors, behaviours, k + 1);
        regs, nested := [reg] + regs1, [acted.log] + nested1;
        assert outcome.visited[1..] == rest.visited && nested[1..] == nested1;
        assert snapshot[k..k + 1 + |rest.visited|] == [snapshot[k]] + snapshot[k + 1..k + 1 + |rest.visited|];
        forall i | 1 <= i < |outcome.visited|
          ensures Took(snapshot[k + i], behaviours, k + i, regs[i], regs[i + 1], nested[i])
        {
          assert Took(snapshot[k + 1 + (i - 1)], behaviours, k + 1 + (i - 1), regs1[i - 1], regs1[i], nested1[i - 1]);
        }
      }
    }
  }

  /**
    Every post: the promised snapshot is visited up to and including the first delivery that
    raises, or all of it when errors are ignored; each handler that is not kept out by its filter
    makes its calls on what the deliveries before it have left; and the log has each delivery with
    what its handler posted right behind it.
   */
  lemma PostIsTrace(reg: Registry, event: EventObject, ignoreErrors: bool, behaviours: seq<Behaviour>)
    returns (regs: seq<Registry>, nested: seq<seq<Delivered>>)
    requires reg.Valid() && Distinct(event.mro)
    ensures var outcome, snapshot := PostRun(reg, event, ignoreErrors, behaviours), Snapshot(reg, event);
            var n := |outcome.visited|;
            && IsPromisedDelivery(reg.live, event.mro, Delivery(reg.live, event.mro))
            && snapshot == Subs(Delivery(reg.live, event.mro)) && n <= |snapshot| && outcome.visited == snapshot[..n]
            && |regs| == n + 1 && |nested| == n && regs[0] == reg && regs[n] == outcome.registry
            && outcome.log == Interleaved(outcome.visited, event, nested)
            && (forall k :: 0 <= k < n ==> Took(snapshot[k], behaviours, k, regs[k], regs[k + 1], nested[k]))
            && (outcome.raised <==> !ignoreErrors && exists k :: 0 <= k < |snapshot| && Raises(snapshot, behaviours, k))
            && (outcome.raised ==> n > 0 && Raises(snapshot, behaviours, n - 1))
            && (!outcome.raised ==> n == |snapshot|)
            && (!ignoreErrors ==> forall k :: 0 <= k < n - 1 ==> !Raises(snapshot, behaviours, k))
  {
    var snapshot := Snapshot(reg, event);
    regs, nested := DeliveriesAreTrace(reg, snapshot, event, ignoreErrors, behaviours, 0);
    DeliverFromVisits(reg, snapshot, event, ignoreErrors, behaviours, 0);
    VisitsUpToFirstRaise(reg, snapshot, event, ignoreErrors, behaviours);
    DeliveryIsPromised(reg.live, event.mro);
    assert forall k :: 0 <= k < |snapshot| ==> (Raises(snapshot, behaviours, k) <==> RaisesAt(snapshot, behaviours, k));
  }

  // ---------- what that means for nested posts ----------

  /** The place of delivery k in the log. */
  function PlaceInLog(nested: seq<seq<Delivered>>, k: nat): nat
    requires k <= |nested|
  {
    if k == 0 then 0 else PlaceInLog(nested, k - 1) + 1 + |nested[k - 1]|
  }

  lemma {:induction false} InterleavedBehind(visited: seq<Subscription>, event: EventObject,
                                             nested: seq<seq<Delivered>>, k: nat)
    requires |visited| == |nested| && k < |visited|
    ensures var log, at := Interleaved(visited, event, nested), PlaceInLog(nested, k);
            && at + 1 + |nested[k]| <= |log|
            && log[at] == Delivered(visited[k], event)
            && log[at + 1..at + 1 + |nested[k]|] == nested[k]
  {
    var rest := Interleaved(visited[1..], event, nested[1..]);
    var log := Interleaved(visited, event, nested);
    assert log == [Delivered(visited[0], event)] + nested[0] + rest;
    if k == 0 {
      assert log[1..1 + |nested[0]|] == nested[0];
    } else {
      InterleavedBehind(visited[1..], event, nested[1..], k - 1);
      PlaceBehindFirst(nested, k);
      var inner, offset := PlaceInLog(nested[1..], k - 1), 1 + |nested[0]|;
      assert log[offset..offset + |rest|] == rest;
      assert log[offset + inner] == rest[inner];
      SliceOfSlice(log, offset, rest, inner + 1, |nested[k]|);
      assert offset + (inner + 1) == PlaceInLog(nested, k) + 1;
    }
  }

  lemma {:induction false} PlaceBehindFirst(nested: seq<seq<Delivered>>, k: nat)
    requires 1 <= k <= |nested|
    ensures PlaceInLog(nested, k) == 1 + |nested[0]| + PlaceInLog(nested[1..], k - 1)
  {
    if k == 1 {
    } else {
      PlaceBehindFirst(nested, k - 1);
    }
  }

  /** Delivery k stands in the log with all that its handler's calls deliver right behind it. */
  lemma DeliveryInLog(reg: Registry, event: EventObject, ignoreErrors: bool, behaviours: seq<Behaviour>, k: nat)
    returns (at: nat, now: Registry)
    requires reg.Valid() && Distinct(event.mro) && k < |PostRun(reg, event, ignoreErrors, behaviours).visited|
    requires k < |Snapshot(reg, event)| && k < |behaviours|
    requires Snapshot(reg, event)[k].filtered ==> behaviours[k].accepts
    ensures var log := PostRun(reg, event, ignoreErrors, behaviours).log;
            var nested := ActRun(now, behaviours[k].actions).log;
            && now.Valid() && at + 1 + |nested| <= |log|
            && log[at] == Delivered(Snapshot(reg, event)[k], event)
            && log[at + 1..at + 1 + |nested|] == nested
  {
    var regs, nested := PostIsTrace(reg, event, ignoreErrors, behaviours);
    now, at := regs[k], PlaceInLog(nested, k);
    InterleavedBehind(PostRun(reg, event, ignoreErrors, behaviours).visited, event, nested, k);
    TraceIsValid(reg, Snapshot(reg, event), behaviours, regs, nested, k);
    assert Took(Snapshot(reg, event)[k], behaviours, k, regs[k], regs[k + 1], nested[k]);
  }

  /**
    A handler that posts: behind its own delivery and whatever its earlier calls delivered, the log
    has that of the nested post, which visits the snapshot promised for the nested event on the bus
    as it is at that moment.
   */
  lemma NestedPostIsDelivered(reg: Registry, event: EventObject, ignoreErrors: bool, behaviours: seq<Behaviour>,
                              k: nat, earlier: seq<Action>, inner: Action, later: seq<Action>)
    returns (at: nat, from: nat, now: Registry)
    requires reg.Valid() && Distinct(event.mro) && k < |PostRun(reg, event, ignoreErrors, behaviours).visited|
    requires k < |Snapshot(reg, event)| && k < |behaviours|
    requires Snapshot(reg, event)[k].filtered ==> behaviours[k].accepts
    requires inner.DoPost? && Distinct(inner.event.mro) && behaviours[k].actions == earlier + [inner] + later
    ensures var log := PostRun(reg, event, ignoreErrors, behaviours).log;
            && at < from && (earlier == [] ==> from == at + 1) && at < |log|
            && log[at] == Delivered(Snapshot(reg, event)[k], event)
            && HoldsPost(log, from, now, inner)
  {
    var start, before;
    at, start := DeliveryInLog(reg, event, ignoreErrors, behaviours, k);
    before, now := CallInRun(start, earlier, inner, later);
    from := at + 1 + |before|;
    PostIsHeld(PostRun(reg, event, ignoreErrors, behaviours).log, at + 1, ActRun(start, behaviours[k].actions).log,
               |before|, now, inner);
  }

  /** From that place on the log has the whole log of the post, made on the bus as it was then. */
  ghost predicate HoldsPost(log: seq<Delivered>, from: nat, now: Registry, inner: Action)
    requires inner.DoPost?
  {
    var posted := PostRun(now, inner.event, inner.ignoreErrors, inner.behaviours);
    var promised := Delivery(now.live, inner.event.mro);
    && from + |posted.log| <= |log| && log[from..from + |posted.log|] == posted.log
    && IsPromisedDelivery(now.live, inner.event.mro, promised)
    && posted.visited <= Subs(promised) && (inner.ignoreErrors ==> posted.visited == Subs(promised))
  }

  lemma PostIsHeld(log: seq<Delivered>, at: nat, part: seq<Delivered>, i: nat, now: Registry, inner: Action)
    requires inner.DoPost? && now.Valid() && Distinct(inner.event.mro)
    requires at + |part| <= |log| && log[at..at + |part|] == part
    requires var posted := PostRun(now, inner.event, inner.ignoreErrors, inner.behaviours).log;
             i + |posted| <= |part| && part[i..i + |posted|] == posted
    ensures HoldsPost(log, at + i, now, inner)
  {
    SliceOfSlice(log, at, part, i, |PostRun(now, inner.event, inner.ignoreErrors, inner.behaviours).log|);
    PostVisitsSnapshot(now, inner.event, inner.ignoreErrors, inner.behaviours);
  }

  lemma SliceOfSlice(log: seq<Delivered>, at: nat, part: seq<Delivered>, i: nat, n: nat)
    requires at + |part| <= |log| && log[at..at + |part|] == part && i + n <= |part|
    ensures log[at + i..at + i + n] == part[i..i + n]
  {
    var inLog, inPart := log[at + i..at + i + n], part[i..i + n];
    forall j | 0 <= j < n
      ensures inLog[j] == inPart[j]
    {
      assert log[at..at + |part|][i + j] == log[at + i + j];
    }
  }

  /** One post among the calls of a handler, on the bus that the earlier calls have left. */
  lemma CallInRun(reg: Registry, earlier: seq<Action>, inner: Action, later: seq<Action>)
    returns (before: seq<Delivered>, now: Registry)
    requires reg.Valid() && inner.DoPost?
    ensures now.Valid() && (earlier == [] ==> before == [])
    ensures var posted := PostRun(now, inner.event, inner.ignoreErrors, inner.behaviours);
            var log := ActRun(reg, earlier + [inner] + later).log;
            |before| + |posted.log| <= |log| && log[|before|..|before| + |posted.log|] == posted.log
  {
    before, now := ActRun(reg, earlier).log, ActRun(reg, earlier).registry;
    ActRunKeepsValid(reg, earlier);
    var posted := PostRun(now, inner.event, inner.ignoreErrors, inner.behaviours);
    RunOfConcat(reg, earlier, [inner] + later);
    assert earlier + [inner] + later == earlier + ([inner] + later) && ([inner] + later)[1..] == later;
    assert ActRun(now, [inner] + later).log == posted.log + ActRun(posted.registry, later).log;
  }

  lemma {:induction false} TraceIsValid(reg: Registry, snapshot: seq<Subscription>, behaviours: seq<Behaviour>,
                                        regs: seq<Registry>, nested: seq<seq<Delivered>>, k: nat)
    requires reg.Valid() && |regs| == |nested| + 1 <= |snapshot| + 1 && regs[0] == reg && k < |regs|
    requires forall i :: 0 <= i < |nested| ==> Took(snapshot[i], behaviours, i, regs[i], regs[i + 1], nested[i])
    ensures regs[k].Valid()
  {
    if k == 0 {
    } else {
      TraceIsValid(reg, snapshot, behaviours, regs, nested, k - 1);
      assert Took(snapshot[k - 1], behaviours, k - 1, regs[k - 1], regs[k], nested[k - 1]);
      if k - 1 < |behaviours| {
        ActRunKeepsValid(regs[k - 1], behaviours[k - 1].actions);
      }
    }
  }

  /** A delivery that the filter rejects changes nothing, posts nothing and does not raise. */
  lemma RejectedDeliveryDoesNothing(reg: Registry, event: EventObject, ignoreErrors: bool, behaviour: Behaviour)
    requires reg.Valid() && Distinct(event.mro) && |Snapshot(reg, event)| == 1
    requires Snapshot(reg, event)[0].filtered && !behaviour.accepts
    ensures PostRun(reg, event, ignoreErrors, [behaviour]) ==
            Outcome(reg, Snapshot(reg, event), false, [Delivered(Snapshot(reg, event)[0], event)])
  {
    var regs, nested := PostIsTrace(reg, event, ignoreErrors, [behaviour]);
    var snapshot := Snapshot(reg, event);
    assert !Raises(snapshot, [behaviour], 0);
    assert Took(snapshot[0], [behaviour], 0, regs[0], regs[1], nested[0]);
    assert snapshot[..1] == snapshot && snapshot == [snapshot[0]];
    assert snapshot[1..] == [] && nested[1..] == [];
  }

  /** And one that is accepted or not filtered makes its calls, even when it raises behind them. */
  lemma AcceptedDeliveryMakesItsCalls(reg: Registry, event: EventObject, ignoreErrors: bool, behaviour: Behaviour)
    requires reg.Valid() && Distinct(event.mro) && |Snapshot(reg, event)| == 1
    requires Snapshot(reg, event)[0].filtered ==> behaviour.accepts
    ensures var outcome, acted := PostRun(reg, event, ignoreErrors, [behaviour]), ActRun(reg, behaviour.actions);
            && outcome.registry == acted.registry && outcome.visited == Snapshot(reg, event)
            && outcome.log == [Delivered(Snapshot(reg, event)[0], event)] + acted.log
            && (outcome.raised <==> behaviour.raises && !ignoreErrors)
  {
    var regs, nested := PostIsTrace(reg, event, ignoreErrors, [behaviour]);
    var snapshot := Snapshot(reg, event);
    assert Raises(snapshot, [behaviour], 0) <==> behaviour.raises;
    assert Took(snapshot[0], [behaviour], 0, regs[0], regs[1], nested[0]);
    assert snapshot[..1] == snapshot;
    assert snapshot[1..] == [] && nested[1..] == [];
  }

  // ---------- registrations made at any depth ----------

  /** The run comes to a call that registers s, at some depth of nesting. */
  ghost predicate ActionRegisters(reg: Registry, action: Action, s: Subscription)
    decreases action, 3, 0
  {
    match action
    case DoRegister(x) => x == s
    case DoPost(event, ignoreErrors, behaviours) =>
      DeliveriesRegister(reg, Snapshot(reg, event), event, ignoreErrors, behaviours, 0, s)
    case _ => false
  }

  ghost predicate ActionsRegister(reg: Registry, actions: seq<Action>, s: Subscription)
    decreases actions, 0, 0
  {
    exists i :: 0 <= i < |actions| && ActionRegisters(ActRun(reg, actions[..i]).registry, actions[i], s)
  }

  ghost predicate DeliveriesRegister(reg: Registry, snapshot: seq<Subscription>, event: EventObject, ignoreErrors: bool,
                                     behaviours: seq<Behaviour>, k: nat, s: Subscription)
    decreases behaviours, 1, |snapshot| - k
  {
    k < |snapshot| && k < |behaviours| &&
    var runs := snapshot[k].filtered ==> behaviours[k].accepts;
    || (runs && ActionsRegister(reg, behaviours[k].actions, s))
    || (!(runs && behaviours[k].raises && !ignoreErrors)
        && DeliveriesRegister(if runs then ActRun(reg, behaviours[k].actions).registry else reg, snapshot, event,
                              ignoreErrors, behaviours, k + 1, s))
  }

  const KEEPS := Leave(true, false)

  lemma {:induction false} ActionRegistersStays(reg: Registry, action: Action, s: Subscription)
    requires ActionRegisters(reg, action, s) && ActionRespects(action, s, KEEPS)
    ensures Count(ActOnce(reg, action).registry.live, s) >= 1 && s in ActOnce(reg, action).registry.known
    decreases action, 3, 0
  {
    match action
    case DoRegister(x) => CountSnoc(reg.live, Registration(s, reg.clock), s);
    case DoPost(event, ignoreErrors, behaviours) =>
      DeliveriesRegisterStays(reg, Snapshot(reg, event), event, ignoreErrors, behaviours, 0, s);
  }

  lemma {:induction false} ActionsRegisterStays(reg: Registry, actions: seq<Action>, s: Subscription)
    requires ActionsRegister(reg, actions, s) && ActionsRespect(actions, s, KEEPS)
    ensures Count(ActRun(reg, actions).registry.live, s) >= 1 && s in ActRun(reg, actions).registry.known
    decreases actions, 0, 0
  {
    var i :| 0 <= i < |actions| && ActionRegisters(ActRun(reg, actions[..i]).registry, actions[i], s);
    var before := ActRun(reg, actions[..i]).registry;
    ActionRegistersStays(before, actions[i], s);
    ActRunLeaves(ActOnce(before, actions[i]).registry, actions[i + 1..], s, KEEPS);
    RunOfConcat(reg, actions[..i], actions[i..]);
    assert actions == actions[..i] + actions[i..] && actions[i..][1..] == actions[i + 1..];
  }

  lemma {:induction false} DeliveriesRegisterStays(reg: Registry, snapshot: seq<Subscription>, event: EventObject,
                                                   ignoreErrors: bool, behaviours: seq<Behaviour>, k: nat,
                                                   s: Subscription)
    requires DeliveriesRegister(reg, snapshot, event, ignoreErrors, behaviours, k, s)
    requires AllRespect(behaviours, s, KEEPS)
    ensures var after := DeliverFrom(reg, snapshot, event, ignoreErrors, behaviours, k).registry;
            Count(after.live, s) >= 1 && s in after.known
    decreases behaviours, 1, |snapshot| - k
  {
    var acted := ActedAt(reg, snapshot[k], behaviours, k);
    if Handles(snapshot[k], behaviours[k]) && ActionsRegister(reg, behaviours[k].actions, s) {
      ActionsRegisterStays(reg, behaviours[k].actions, s);
      DeliverFromLeaves(acted.registry, snapshot, event, ignoreErrors, behaviours, k + 1, s, KEEPS);
    } else {
      DeliveriesRegisterStays(acted.registry, snapshot, event, ignoreErrors, behaviours, k + 1, s);
    }
  }

  /**
    What any handler registers during a post, at whatever depth, is on the bus when the post ends
    and is delivered to by the next event of its type, unless some handler unregisters it.
   */
  lemma RegistrationsOutliveThePost(reg: Registry, event: EventObject, ignoreErrors: bool, behaviours: seq<Behaviour>,
                                    s: Subscription, next: EventObject)
    requires DeliveriesRegister(reg, Snapshot(reg, event), event, ignoreErrors, behaviours, 0, s)
    requires AllRespect(behaviours, s, KEEPS) && s.eventType in next.mro
    ensures var after := PostRun(reg, event, ignoreErrors, behaviours).registry;
            after.Has(s) && s in after.known && s in Snapshot(after, next)
  {
    var after := PostRun(reg, event, ignoreErrors, behaviours).registry;
    DeliveriesRegisterStays(reg, Snapshot(reg, event), event, ignoreErrors, behaviours, 0, s);
    CountSubs(after.live, s);
    NotDeliveredUnlessLive(after, next.mro, s);
  }
}
