/** The event bus of event_bus.py: per-type lists kept in order and a map of registration ids. */
module EventBus {
  import opened Wrappers
  import opened Events
  import opened StableSorting
  import opened BusRegistry
  import opened RegistryLaws
  import opened Posting
  import opened SubscriptionHandles

  type Lists = map<EventType, seq<Subscription>>
  type Ids = map<RegistrationId, Subscription>

  /** Each list holds the live subscriptions of its type, sorted by order and then by registration time. */
  ghost predicate ListsMatch(lists: Lists, live: seq<Registration>) {
    && (forall t :: t in lists ==> lists[t] == ListFor(live, t))
    && (forall t :: t !in lists ==> OfType(live, t) == [])
  }

  ghost predicate IdsMatch(ids: Ids, known: set<Subscription>) {
    && (forall s :: s in known ==> IdOf(s) in ids && ids[IdOf(s)] == s)
    && (forall id :: id in ids ==> id.IdOf? && id.subscription in known)
  }

  function ListsWith(lists: Lists, s: Subscription): Lists {
    var t := s.eventType;
    if t in lists then lists[t := Sort(OrderOf, lists[t] + [s])] else lists[t := [s]]
  }

  function ListsWithout(lists: Lists, s: Subscription): Lists {
    var t := s.eventType;
    if t in lists && s in lists[t] then lists[t := RemoveFirst(lists[t], s)] else lists
  }

  lemma ListsAfterRegister(lists: Lists, live: seq<Registration>, r: Registration)
    requires ListsMatch(lists, live)
    ensures ListsMatch(ListsWith(lists, r.sub), live + [r])
  {
    var after := ListsWith(lists, r.sub);
    forall t
      ensures t in after ==> after[t] == ListFor(live + [r], t)
      ensures t !in after ==> OfType(live + [r], t) == []
    {
      ListAfterRegister(live, r, t);
      OfTypeSnoc(live, r, t);
      if t == r.sub.eventType && t !in lists {
        assert ListFor(live, t) == [];
        SortSnoc(OrderOf, [], r.sub);
      }
    }
  }

  lemma ListsAfterUnregister(lists: Lists, live: seq<Registration>, s: Subscription)
    requires ListsMatch(lists, live)
    ensures ListsMatch(ListsWithout(lists, s), WithoutFirst(live, {s}))
  {
    var after := ListsWithout(lists, s);
    forall t
      ensures t in after ==> after[t] == ListFor(WithoutFirst(live, {s}), t)
      ensures t !in after ==> OfType(WithoutFirst(live, {s}), t) == []
    {
      ListAfterUnregister(live, s, t);
      OfTypeWithoutFirst(live, s, t);
      if t in lists && s !in lists[t] {
        RemoveFirstAbsent(lists[t], s);
      }
    }
  }

  /** What is in the two tables of a bus on which nothing was registered twice at once. */
  lemma ListsAndIdsAgree(lists: Lists, ids: Ids, reg: Registry)
    requires ListsMatch(lists, reg.live) && IdsMatch(ids, reg.known) && reg.Agreed()
    ensures forall t :: t in lists ==> SortedBy(OrderOf, lists[t]) && forall s :: s in lists[t] ==> s.eventType == t
    ensures forall s: Subscription :: IdOf(s) in ids <==> s.eventType in lists && s in lists[s.eventType]
    ensures forall id :: id in ids ==> id == IdOf(ids[id])
  {
    forall t | t in lists
      ensures SortedBy(OrderOf, lists[t]) && forall s :: s in lists[t] ==> s.eventType == t
    {
      var run := OfType(reg.live, t);
      SortIsSorted(OrderOf, Subs(run));
      SortElements(OrderOf, Subs(run));
      forall s | s in lists[t]
        ensures s.eventType == t
      {
        SameElements(lists[t], Subs(run), s);
        InSubs(run, s);
        var r :| r in run && r.sub == s;
        OfTypeElements(reg.live, t, r);
      }
    }
    forall s: Subscription
      ensures IdOf(s) in ids <==> s.eventType in lists && s in lists[s.eventType]
    {
      InListIffLive(reg, s);
      if s.eventType !in lists {
        assert ListFor(reg.live, s.eventType) == [];
      }
    }
  }

  lemma CollectedAfterOneMoreType(lists: Lists, live: seq<Registration>, mro: seq<EventType>, k: nat)
    requires ListsMatch(lists, live) && k < |mro|
    ensures Subs(Runs(live, mro[..k + 1])) ==
            Subs(Runs(live, mro[..k])) + if mro[k] in lists then lists[mro[k]] else []
  {
    RunsProject(live, mro, k);
  }

  class EventBus {
    var subscriptions: Lists
    var registrationIds: Ids
    ghost var registry: Registry

    ghost predicate Valid()
      reads this
    {
      && registry.Valid()
      && ListsMatch(subscriptions, registry.live)
      && IdsMatch(registrationIds, registry.known)
    }

    constructor ()
      ensures Valid() && registry == EMPTY
    {
      subscriptions, registrationIds := map[], map[];
      registry := EMPTY;
    }

    method RegisterSubscription(s: Subscription) returns (id: RegistrationId)
      requires Valid()
      modifies this
      ensures Valid() && registry == old(registry).Register(s)
      ensures id == IdOf(s)
    {
      ListsAfterRegister(subscriptions, registry.live, Registration(s, registry.clock));
      RegisterKeepsValid(registry, s);
      if s.eventType in subscriptions {
        var subscriptionList := subscriptions[s.eventType] + [s];
        subscriptions := subscriptions[s.eventType := Sort(OrderOf, subscriptionList)];
      } else {
        subscriptions := subscriptions[s.eventType := [s]];
      }
      id := IdOf(s);
      registrationIds := registrationIds[id := s];
      registry := registry.Register(s);
    }

    method RegisterSubscriptions(subs: seq<Subscription>) returns (ids: seq<RegistrationId>)
      requires Valid()
      modifies this
      ensures Valid() && registry == RegisterEach(old(registry), subs)
      ensures ids == seq(|subs|, i requires 0 <= i < |subs| => IdOf(subs[i]))
    {
      ids := [];
      for i := 0 to |subs|
        invariant Valid() && RegisterEach(registry, subs[i..]) == RegisterEach(old(registry), subs)
        invariant ids == seq(i, j requires 0 <= j < i => IdOf(subs[j]))
      {
        var id := RegisterSubscription(subs[i]);
        ids := ids + [id];
        assert subs[i..][1..] == subs[i + 1..];
      }
    }

    /** The common end of unregister: forget the id, then drop one entry from the list. */
    method Drop(s: Subscription)
      requires Valid()
      modifies this
      ensures Valid() && registry == old(registry).Unregister(s)
    {
      ListsAfterUnregister(subscriptions, registry.live, s);
      RemovalKeepsValid(registry, {s});
      registrationIds := registrationIds - {IdOf(s)};
      if s.eventType in subscriptions && s in subscriptions[s.eventType] {
        subscriptions := subscriptions[s.eventType := RemoveFirst(subscriptions[s.eventType], s)];
      }
      registry := registry.Unregister(s);
    }

    method Unregister(token: Token) returns (result: UnregisterResult)
      requires Valid()
      modifies this
      ensures Valid() && (registry, result) == old(registry).UnregisterToken(token)
      ensures token.ById? && token.id.Stray? ==> registry == old(registry) && result == NotFound
      ensures token.ById? && token.id.IdOf? && token.id.subscription !in old(registry).known ==>
                registry == old(registry) && result == NotFound
      ensures token == NotAnId ==> registry == old(registry) && result == ValueError
    {
      match token {
        case ByObject(s) =>
          Drop(s);
          result := Unregistered;
        case ById(id) =>
          if id in registrationIds {
            Drop(registrationIds[id]);
            result := Unregistered;
          } else {
            result := NotFound;
          }
        case NotAnId =>
          result := ValueError;
      }
    }

    /** Unregistering by handle: only handles of the exact class are understood. */
    method UnregisterHandle(handle: SubscriptionHandle, ids: ObjectIds) returns (result: UnregisterResult)
      requires Valid()
      modifies this, handle`subscription, ids
      ensures Valid()
      ensures handle.kind != PlainHandle ==> result == ValueError && registry == old(registry)
      ensures handle.kind == PlainHandle ==>
                && handle.subscription.Some?
                && (registry, result) == old(registry).UnregisterToken(ByObject(handle.subscription.value))
                && (old(handle.subscription).Some? ==>
                    (handle.subscription == old(handle.subscription) && ids.next == old(ids.next)))
    {
      if handle.kind != PlainHandle {
        return ValueError;
      }
      var s := handle.GetSubscription(ids);
      Drop(s);
      result := Unregistered;
    }

    /** unregister_all without a list: the ids are visited in any order. */
    method UnregisterAll(fromEvent: Option<EventType>)
      requires Valid()
      modifies this
      ensures Valid() && registry == old(registry).UnregisterAll(fromEvent)
    {
      var fromList := registrationIds.Values;
      assert forall s :: s in fromList <==> s in registry.known;
      WithoutNone(registry.live);
      ghost var gone: set<Subscription> := {};
      while fromList != {}
        invariant Valid()
        invariant gone !! fromList
        invariant forall s :: (s in old(registry).known && Concerns(fromEvent, s)) <==>
                              (s in gone || (s in fromList && Concerns(fromEvent, s)))
        invariant registry == Registry(WithoutFirst(old(registry).live, gone),
                                       old(registry).known - gone, old(registry).clock)
        decreases fromList
      {
        var s :| s in fromList;
        fromList := fromList - {s};
        if Concerns(fromEvent, s) {
          OneMoreGone(old(registry).live, gone, s);
          Drop(s);
          gone := gone + {s};
        }
      }
      assert gone == set s | s in old(registry).known && Concerns(fromEvent, s);
    }

    /** The subscriptions listening for any of the types of mro, in order of delivery. */
    method Listening(mro: seq<EventType>) returns (listening: seq<Subscription>)
      requires Valid()
      ensures listening == Subs(Delivery(registry.live, mro))
    {
      listening := [];
      for i := 0 to |mro|
        invariant listening == Subs(Runs(registry.live, mro[..i]))
      {
        CollectedAfterOneMoreType(subscriptions, registry.live, mro, i);
        if mro[i] in subscriptions {
          listening := listening + subscriptions[mro[i]];
        }
      }
      assert mro[..|mro|] == mro;
      SortProjects(Runs(registry.live, mro));
      listening := Sort(OrderOf, listening);
    }

    /**
      Posts an event. behaviours says how the handlers reached behave, nested posts included;
      log lists every delivery made meanwhile.
     */
    method Post(event: EventObject, ignoreErrors: bool, behaviours: seq<Behaviour>)
      returns (visited: seq<Subscription>, raised: bool, log: seq<Delivered>)
      requires Valid()
      modifies this
      ensures Valid()
      ensures Outcome(registry, visited, raised, log) == PostRun(old(registry), event, ignoreErrors, behaviours)
      decreases behaviours, 2, 0
    {
      var listening := Listening(event.mro);
      ghost var outcome := PostRun(registry, event, ignoreErrors, behaviours);
      visited, log := [], [];
      for k := 0 to |listening|
        invariant Valid()
        invariant outcome == Behind(visited, log, DeliverFrom(registry, listening, event, ignoreErrors, behaviours, k))
      {
        OneMoreDelivery(visited, log, registry, listening, event, ignoreErrors, behaviours, k);
        var nested := Deliver(listening[k], behaviours, k);
        visited, log := visited + [listening[k]], log + [Delivered(listening[k], event)] + nested;
        if RaisesAt(listening, behaviours, k) {
          if ignoreErrors {
            continue;
          }
          return visited, true, log;
        }
      }
      raised := false;
    }

    method Deliver(s: Subscription, behaviours: seq<Behaviour>, k: nat) returns (log: seq<Delivered>)
      requires Valid()
      modifies this
      ensures Valid() && Acted(registry, log) == ActedAt(old(registry), s, behaviours, k)
      decreases behaviours, 0, 0
    {
      if k < |behaviours| && Handles(s, behaviours[k]) {
        log := Act(behaviours[k].actions);
      } else {
        log := [];
      }
    }

    /** The calls a handler makes on the bus. */
    method Act(actions: seq<Action>) returns (log: seq<Delivered>)
      requires Valid()
      modifies this
      ensures Valid() && Acted(registry, log) == ActRun(old(registry), actions)
      decreases actions, 0, 0
    {
      if actions == [] {
        return [];
      }
      match actions[0] {
        case DoRegister(s) =>
          var _ := RegisterSubscription(s);
          log := [];
        case DoUnregister(token) =>
          var _ := Unregister(token);
          log := [];
        case DoUnregisterAll(fromEvent) =>
          UnregisterAll(fromEvent);
          log := [];
        case DoPost(event, ignoreErrors, behaviours) =>
          var _, _, nested := Post(event, ignoreErrors, behaviours);
          log := nested;
      }
      var rest := Act(actions[1..]);
      log := log + rest;
    }
  }

  function RegisterEach(reg: Registry, subs: seq<Subscription>): Registry
    decreases subs
  {
    if subs == [] then reg else RegisterEach(reg.Register(subs[0]), subs[1..])
  }

  lemma {:induction false} OneMoreGone(live: seq<Registration>, gone: set<Subscription>, s: Subscription)
    requires s !in gone
    ensures WithoutFirst(WithoutFirst(live, gone), {s}) == WithoutFirst(live, gone + {s})
    decreases live
  {
    if live == [] {
    } else {
      var x := live[0].sub;
      if x == s {
        assert gone + {s} - {s} == gone && {s} - {s} == {};
        WithoutNone(WithoutFirst(live[1..], gone));
      } else if x in gone {
        assert gone + {s} - {x} == (gone - {x}) + {s};
        OneMoreGone(live[1..], gone - {x}, s);
      } else {
        OneMoreGone(live[1..], gone, s);
      }
    }
  }
}
