/** The listen_for context manager of event_bus.py. */
module ListenFor {
  import opened Wrappers
  import opened Events
  import opened BusRegistry
  import opened RegistryLaws
  import opened Posting
  import opened PostingLaws
  import opened SubscriptionHandles
  import opened EventBus

  class ListenFor {
    const eventType: EventType
    const order: int
    const filtered: bool
    var registrationId: Option<RegistrationId>

    constructor (eventType: EventType, order: int, filtered: bool)
      ensures this.eventType == eventType && this.order == order && this.filtered == filtered
      ensures registrationId == None
    {
      this.eventType, this.order, this.filtered := eventType, order, filtered;
      registrationId := None;
    }

    /** Registers a new subscription. */
    method Enter(bus: EventBus, ids: ObjectIds)
      requires bus.Valid()
      modifies this, bus, ids
      ensures bus.Valid()
      ensures var s := Subscription(old(ids.next), eventType, order, filtered);
              registrationId == Some(IdOf(s)) && bus.registry == old(bus.registry).Register(s)
    {
      var tag := ids.Fresh();
      var id := bus.RegisterSubscription(Subscription(tag, eventType, order, filtered));
      registrationId := Some(id);
    }

    /** Called however the with block was left. */
    method Exit(bus: EventBus)
      requires bus.Valid()
      modifies bus
      ensures bus.Valid()
      ensures bus.registry ==
              old(bus.registry).UnregisterToken(if registrationId.Some? then ById(registrationId.value) else NotAnId).0
    {
      var _ := bus.Unregister(if registrationId.Some? then ById(registrationId.value) else NotAnId);
    }
  }

  /** The registry after a with block whose body makes the calls of body. */
  function AfterWith(reg: Registry, s: Subscription, body: seq<Action>): Registry {
    ActRun(reg.Register(s), body).registry.UnregisterToken(ById(IdOf(s))).0
  }

  /**
    Inside the block the listener hears every event of its type; after it, whatever the body
    did with other subscriptions, none: it is on the bus neither by list nor by id.
   */
  lemma ListensOnlyInside(reg: Registry, s: Subscription, body: seq<Action>, mro: seq<EventType>)
    requires reg.Valid() && !reg.Has(s)
    requires ActionsRespect(body, s, HANDS_OFF)
    ensures s in Subs(Delivery(ActRun(reg.Register(s), body).registry.live, mro)) <==> s.eventType in mro
    ensures var after := AfterWith(reg, s, body);
            && after.Valid() && !after.Has(s) && s !in after.known
            && s !in Subs(Delivery(after.live, mro))
  {
    var inside := reg.Register(s);
    CountSubs(reg.live, s);
    CountSnoc(reg.live, Registration(s, reg.clock), s);
    RegisterKeepsValid(reg, s);
    ActRunLeaves(inside, body, s, HANDS_OFF);
    ActRunKeepsValid(inside, body);
    var before := ActRun(inside, body).registry;
    CountSubs(before.live, s);
    NotDeliveredUnlessLive(before, mro, s);
    UnregisterTokenKeepsValid(before, ById(IdOf(s)));
    CountWithoutFirst(before.live, {s}, s);
    var after := AfterWith(reg, s, body);
    CountSubs(after.live, s);
    NotDeliveredUnlessLive(after, mro, s);
  }
}
