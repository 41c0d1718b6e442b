/** Logger proxies seen from the bus: they join it once and leave it for good. */
module ProxiesOnBus {
  import opened Events
  import opened BusRegistry
  import opened RegistryLaws
  import opened Posting
  import opened PostingLaws
  import opened EventBus
  import opened LoggerProxies

  // ---------- joining ----------

  lemma {:induction false} RegisterEachAddsOne(reg: Registry, subs: seq<Subscription>, s: Subscription)
    requires forall i, j :: 0 <= i < j < |subs| ==> subs[i] != subs[j]
    ensures var after := RegisterEach(reg, subs);
            && Count(after.live, s) == Count(reg.live, s) + (if s in subs then 1 else 0)
            && (s in after.known <==> s in reg.known || s in subs)
    decreases subs
  {
    if subs == [] {
    } else {
      RegisterEachAddsOne(reg.Register(subs[0]), subs[1..], s);
      CountSnoc(reg.live, Registration(subs[0], reg.clock), s);
      assert s in subs <==> s == subs[0] || s in subs[1..];
    }
  }

  /** A new proxy has each of its subscriptions on the bus once, and touches no other. */
  lemma NewProxyIsOnBus(reg: Registry, kind: ProxyKind, next: nat, s: Subscription)
    requires reg.Valid() && TagsBelow(reg, next)
    ensures var subs := ProxySubscriptions(AttrsOf(kind), next);
            var after := RegisterEach(reg, subs);
            && (s in subs ==> Count(after.live, s) == 1 && s in after.known)
            && (s !in subs ==> Count(after.live, s) == Count(reg.live, s) && (s in after.known <==> s in reg.known))
  {
    var subs := ProxySubscriptions(AttrsOf(kind), next);
    assert forall i :: 0 <= i < |subs| ==> subs[i].tag == next + i;
    RegisterEachAddsOne(reg, subs, s);
    CountSubs(reg.live, s);
  }

  // ---------- leaving ----------

  /** The calls of the handler for the end of the test class. */
  function ClassEndActions(subs: seq<Subscription>): seq<Action> {
    if subs == [] then [] else [DoUnregister(ByObject(subs[0]))] + ClassEndActions(subs[1..])
  }

  lemma {:induction false} ClassEndActionsUnregisterEach(reg: Registry, subs: seq<Subscription>)
    ensures ActRun(reg, ClassEndActions(subs)).registry == UnregisterEach(reg, subs)
    decreases subs
  {
    if subs == [] {
    } else {
      ClassEndActionsUnregisterEach(reg.Unregister(subs[0]), subs[1..]);
      assert ClassEndActions(subs)[1..] == ClassEndActions(subs[1..]);
    }
  }

  lemma {:induction false} UnregisterEachRemoves(reg: Registry, subs: seq<Subscription>, s: Subscription)
    ensures var after := UnregisterEach(reg, subs);
            && Count(after.live, s) <= Count(reg.live, s)
            && (s in after.known ==> s in reg.known)
            && (s in subs && Count(reg.live, s) <= 1 ==> Count(after.live, s) == 0 && s !in after.known)
            && (s !in subs ==> Count(after.live, s) == Count(reg.live, s) && (s in after.known <==> s in reg.known))
    decreases subs
  {
    if subs == [] {
    } else {
      UnregisterEachRemoves(reg.Unregister(subs[0]), subs[1..], s);
      CountWithoutFirst(reg.live, {subs[0]}, s);
      assert s in subs <==> s == subs[0] || s in subs[1..];
    }
  }

  /** From delivery k on, where the proxy's own handler runs, s is gone. */
  lemma {:induction false} DeliveryRemoves(reg: Registry, snapshot: seq<Subscription>, event: EventObject,
                                           ignoreErrors: bool, behaviours: seq<Behaviour>, k: nat, at: nat,
                                           subs: seq<Subscription>, s: Subscription)
    requires k <= at < |snapshot| && at < |behaviours| && !snapshot[at].filtered
    requires behaviours[at].actions == ClassEndActions(subs) && s in subs
    requires AllRespect(behaviours, s, Leave(false, true))
    requires Count(reg.live, s) <= 1
    requires at < Reach(snapshot, ignoreErrors, behaviours, k)
    ensures var after := DeliverFrom(reg, snapshot, event, ignoreErrors, behaviours, k).registry;
            Count(after.live, s) == 0 && s !in after.known
    decreases at - k
  {
    var acted := ActedAt(reg, snapshot[k], behaviours, k);
    if Handles(snapshot[k], behaviours[k]) {
      ActRunLeaves(reg, behaviours[k].actions, s, Leave(false, true));
    }
    if k < at {
      DeliveryRemoves(acted.registry, snapshot, event, ignoreErrors, behaviours, k + 1, at, subs, s);
    } else {
      ClassEndActionsUnregisterEach(reg, subs);
      UnregisterEachRemoves(reg, subs, s);
      DeliverFromLeaves(acted.registry, snapshot, event, ignoreErrors, behaviours, k + 1, s, Leave(false, true));
    }
  }

  /**
    The post of the event that ends the test class, whatever the other handlers do short of
    registering the proxy's subscriptions again: if it reaches the proxy, then after it none of
    them is on the bus, by list or by id, so no later event is delivered to the proxy.
   */
  lemma ProxyLeavesBus(reg: Registry, event: EventObject, ignoreErrors: bool, behaviours: seq<Behaviour>,
                       subs: seq<Subscription>, at: nat, s: Subscription, laterMro: seq<EventType>)
    requires at < |Snapshot(reg, event)| && at < |behaviours|
    requires Snapshot(reg, event)[at] in subs && !Snapshot(reg, event)[at].filtered
    requires behaviours[at].actions == ClassEndActions(subs)
    requires AllRespect(behaviours, s, Leave(false, true))
    requires s in subs && Count(reg.live, s) <= 1
    requires at < |PostRun(reg, event, ignoreErrors, behaviours).visited|
    ensures var after := PostRun(reg, event, ignoreErrors, behaviours).registry;
            && !after.Has(s) && s !in after.known
            && s !in Subs(Delivery(after.live, laterMro))
  {
    var snapshot := Snapshot(reg, event);
    DeliverFromVisits(reg, snapshot, event, ignoreErrors, behaviours, 0);
    DeliveryRemoves(reg, snapshot, event, ignoreErrors, behaviours, 0, at, subs, s);
    var after := PostRun(reg, event, ignoreErrors, behaviours).registry;
    CountSubs(after.live, s);
    NotDeliveredUnlessLive(after, laterMro, s);
  }

  /** And it stays off the bus through every later run that does not register it. */
  lemma ProxyStaysOffBus(reg: Registry, actions: seq<Action>, s: Subscription, mro: seq<EventType>)
    requires !reg.Has(s) && s !in reg.known
    requires ActionsRespect(actions, s, Leave(false, true))
    ensures var after := ActRun(reg, actions).registry;
            !after.Has(s) && s !in after.known && s !in Subs(Delivery(after.live, mro))
  {
    CountSubs(reg.live, s);
    ActRunLeaves(reg, actions, s, Leave(false, true));
    var after := ActRun(reg, actions).registry;
    CountSubs(after.live, s);
    NotDeliveredUnlessLive(after, mro, s);
  }
}
