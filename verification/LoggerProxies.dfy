/**
  The two logger proxies of metrics/logger.py: how they get onto the bus through cached
  per-instance handles, and how they take themselves off it.
 */
module LoggerProxies {
  import opened Wrappers
  import opened Events
  import opened BusRegistry
  import opened SubscriptionHandles
  import opened EventBus
  import opened SubscriptionBundles
  import opened LoggerLifecycle

  datatype ProxyKind = PerTestCase | PerTestClass

  /** The decorated methods. */
  datatype Attr = OnTestCaseBegin | OnTestCaseEnd | OnTestClassBegin | OnTestClassEnd

  /** The decorated methods of a proxy class, in the order of its class body. */
  function AttrsOf(kind: ProxyKind): seq<Attr> {
    match kind
    case PerTestCase => [OnTestCaseBegin, OnTestCaseEnd, OnTestClassEnd]
    case PerTestClass => [OnTestClassBegin, OnTestClassEnd]
  }

  function EventOf(a: Attr): EventType {
    match a
    case OnTestCaseBegin => TestCaseBeginEvent
    case OnTestCaseEnd => TestCaseEndEvent
    case OnTestClassBegin => TestClassBeginEvent
    case OnTestClassEnd => TestClassEndEvent
  }

  /** The subscription made for an attribute: default order, no filter. */
  function ProxySubscription(a: Attr, tag: nat): Subscription {
    Subscription(tag, EventOf(a), 0, false)
  }

  function ProxySubscriptions(attrs: seq<Attr>, firstTag: nat): seq<Subscription> {
    seq(|attrs|, i requires 0 <= i < |attrs| => ProxySubscription(attrs[i], firstTag + i))
  }

  /** No object made so far has a tag that ids has yet to hand out. */
  ghost predicate TagsBelow(reg: Registry, next: nat) {
    forall s :: reg.Has(s) ==> s.tag < next
  }

  class LoggerProxy {
    const kind: ProxyKind
    const bus: EventBus
    /** The instance dictionary; it is searched before the class, whose handles only define lookup. */
    var attrs: map<Attr, SubscriptionHandle>
    var life: Life

    ghost predicate Valid()
      reads this, attrs.Values
    {
      && (forall a :: a in attrs <==> a in AttrsOf(kind))
      && (forall a :: a in attrs ==>
            && attrs[a].kind == PlainHandle
            && attrs[a].subscription.Some? && attrs[a].subscription.value.eventType == EventOf(a))
    }

    /** The first i names are cached, with subscriptions tagged from first on. */
    ghost predicate CachedUpTo(names: seq<Attr>, i: nat, first: nat)
      requires i <= |names|
      reads this, attrs.Values
    {
      && (forall a :: a in attrs <==> a in names[..i])
      && (forall j :: 0 <= j < i ==>
            && names[j] in attrs && attrs[names[j]].kind == PlainHandle
            && attrs[names[j]].subscription == Some(ProxySubscription(names[j], first + j)))
    }

    /** The handle cached for a is a plain one, and s is its subscription. */
    ghost predicate Caches(a: Attr, s: Subscription)
      reads this, attrs.Values
    {
      a in attrs && attrs[a].kind == PlainHandle && attrs[a].subscription == Some(s)
    }

    /** Registers one subscription for each decorated method, in order, through handles that stay cached. */
    constructor (kind: ProxyKind, bus: EventBus, ids: ObjectIds)
      requires bus.Valid()
      modifies bus, ids
      ensures Valid() && this.kind == kind && this.bus == bus && life == NO_LOGGER_YET
      ensures forall a :: a in attrs ==> fresh(attrs[a])
      ensures CachedUpTo(AttrsOf(kind), |AttrsOf(kind)|, old(ids.next))
      ensures bus.Valid() && ids.next == old(ids.next) + |AttrsOf(kind)|
      ensures bus.registry == RegisterEach(old(bus.registry), ProxySubscriptions(AttrsOf(kind), old(ids.next)))
    {
      this.kind, this.bus, life, attrs := kind, bus, NO_LOGGER_YET, map[];
      new;
      var bundle := CreateFromInstance(ids);
      RegisterNew(bundle);
      assert AttrsOf(kind)[..|AttrsOf(kind)|] == AttrsOf(kind);
    }

    /** create_from_instance: an unregistered bundle of the subscriptions of the decorated methods. */
    method CreateFromInstance(ids: ObjectIds) returns (bundle: SubscriptionBundle)
      requires bus.Valid() && attrs == map[]
      modifies this`attrs, bus, ids
      ensures bus.Valid() && bus.registry == old(bus.registry)
      ensures fresh(bundle) && bundle.bus == bus && !bundle.registered
      ensures bundle.members == ProxySubscriptions(AttrsOf(kind), old(ids.next))
      ensures CachedUpTo(AttrsOf(kind), |AttrsOf(kind)|, old(ids.next))
      ensures forall a :: a in attrs ==> fresh(attrs[a])
      ensures ids.next == old(ids.next) + |AttrsOf(kind)|
    {
      var names := AttrsOf(kind);
      bundle := new SubscriptionBundle(bus);
      ghost var first, subs := ids.next, ProxySubscriptions(names, ids.next);
      for i := 0 to |names|
        invariant ids.next == first + i && bus.Valid() && bus.registry == old(bus.registry)
        invariant CachedUpTo(names, i, first)
        invariant forall a :: a in attrs ==> fresh(attrs[a])
        invariant fresh(bundle) && bundle.bus == bus && !bundle.registered
        invariant bundle.members == subs[..i] && forall s :: s in bundle.ids <==> s in subs[..i]
      {
        AddNext(bundle, i, first, ids);
      }
      assert subs[..|names|] == subs;
    }

    /** The body of the loop: the i-th decorated method. */
    method AddNext(bundle: SubscriptionBundle, i: nat, ghost first: nat, ids: ObjectIds)
      requires i < |AttrsOf(kind)| && ids.next == first + i && CachedUpTo(AttrsOf(kind), i, first)
      requires bundle.bus.Valid() && !bundle.registered
      requires var subs := ProxySubscriptions(AttrsOf(kind), first);
               bundle.members == subs[..i] && forall s :: s in bundle.ids <==> s in subs[..i]
      modifies this`attrs, ids, bundle, bundle.bus
      ensures ids.next == first + i + 1 && CachedUpTo(AttrsOf(kind), i + 1, first)
      ensures forall a :: a in attrs && a !in old(attrs) ==> fresh(attrs[a])
      ensures forall a :: a in old(attrs) ==> a in attrs && attrs[a] == old(attrs)[a]
      ensures bundle.bus.Valid() && bundle.bus.registry == old(bundle.bus.registry) && !bundle.registered
      ensures var subs := ProxySubscriptions(AttrsOf(kind), first);
              bundle.members == subs[..i + 1] && forall s :: s in bundle.ids <==> s in subs[..i + 1]
    {
      AttrsAreDistinct(kind, i);
      var s := CacheNext(AttrsOf(kind), i, first, ids);
      TagsAreDistinct(AttrsOf(kind), first, i);
      AddToUnregistered(bundle, s);
    }

    method CacheNext(names: seq<Attr>, i: nat, ghost first: nat, ids: ObjectIds) returns (s: Subscription)
      requires i < |names| && names[i] !in names[..i] && ids.next == first + i
      requires CachedUpTo(names, i, first)
      modifies this`attrs, ids
      ensures CachedUpTo(names, i + 1, first)
      ensures s == ProxySubscription(names[i], first + i) && ids.next == first + i + 1
      ensures names[i] in attrs && fresh(attrs[names[i]]) && attrs == old(attrs)[names[i] := attrs[names[i]]]
    {
      var handle := LookUp(names[i]);
      s := handle.GetSubscription(ids);
      assert names[..i + 1] == names[..i] + [names[i]];
    }

    /**
      Looking an attribute up on the proxy while it is being constructed. The first lookup runs
      the descriptor of the class handle, which stores a plain handle in the instance dictionary;
      every later lookup finds that same handle.
     */
    method LookUp(a: Attr) returns (handle: SubscriptionHandle)
      modifies this`attrs
      ensures attrs == old(attrs)[a := handle]
      ensures a in old(attrs) ==> handle == old(attrs)[a]
      ensures a !in old(attrs) ==>
                fresh(handle) && handle.kind == PlainHandle && handle.subscription == None
                && handle.eventType == EventOf(a) && handle.order == 0 && !handle.filtered
    {
      if a in attrs {
        return attrs[a];
      }
      handle := new SubscriptionHandle(PlainHandle, EventOf(a), 0, false);
      attrs := attrs[a := handle];
    }

    /** Makes a new logger and starts it; either may raise, and then the handler raises. */
    method SetupProxy(outcome: SetupOutcome) returns (raised: bool)
      modifies this`life
      ensures life == old(life).Setup(outcome)
      ensures raised <==> outcome != Works
    {
      if outcome == ConstructorRaises {
        return true;
      }
      life := life.(logger := Some(life.made), made := life.made + 1);
      life := life.(started := life.started + [life.logger.value]);
      raised := outcome == StartRaises;
    }

    /** The logger's own end method. */
    method CallEnd(endRaises: bool) returns (raised: bool)
      requires life.logger.Some?
      modifies this`life
      ensures life == old(life).EndCalled() && raised == endRaises
    {
      life := life.(ended := life.ended + [life.logger.value]);
      raised := endRaises;
    }

    /** Ends the logger, if there is one, and drops it; an exception from end is reported and goes no further. */
    method TeardownProxy(endRaises: bool) returns (raised: bool)
      modifies this`life
      ensures life == old(life).Teardown(endRaises) && !raised
    {
      // try
      raised := false;
      if life.logger.Some? {
        raised := CallEnd(endRaises);
      }
      // except
      if raised {
        life := life.EndReported();
        raised := false;
      }
      // finally
      life := life.Dropped();
    }

    /** subs are the subscriptions behind the cached handles. */
    ghost predicate Owns(subs: seq<Subscription>)
      reads this, attrs.Values
    {
      && |subs| == |AttrsOf(kind)|
      && forall i :: 0 <= i < |subs| ==>
           && AttrsOf(kind)[i] in attrs && attrs[AttrsOf(kind)[i]].kind == PlainHandle
           && attrs[AttrsOf(kind)[i]].subscription == Some(subs[i])
    }

    /** event_bus.unregister on the i-th decorated method: the lookup finds the cached handle. */
    method UnregisterAttr(i: nat, ids: ObjectIds, ghost subs: seq<Subscription>)
      requires Valid() && bus.Valid() && Owns(subs) && i < |AttrsOf(kind)|
      modifies bus, attrs.Values, ids
      ensures Valid() && bus.Valid() && Owns(subs)
      ensures bus.registry == old(bus.registry).Unregister(subs[i])
    {
      var handle := attrs[AttrsOf(kind)[i]];
      var _ := bus.UnregisterHandle(handle, ids);
    }

    /** The handler for the end of the test class: the proxy takes itself off the bus. */
    method OnTestClassEndEvent(endRaises: bool, ids: ObjectIds, ghost subs: seq<Subscription>)
      requires Valid() && bus.Valid() && Owns(subs)
      modifies this, bus, attrs.Values, ids
      ensures Valid() && bus.Valid() && Owns(subs)
      ensures life == if kind == PerTestClass then old(life).Teardown(endRaises) else old(life)
      ensures bus.registry == UnregisterEach(old(bus.registry), subs)
    {
      if kind == PerTestClass {
        var raised := TeardownProxy(endRaises);
        // the handler goes on
        assert !raised;
      }
      LeaveBus(ids, subs);
    }

    /** The decorated methods: what each does when the bus delivers its event. */
    method Handle(a: Attr, outcome: SetupOutcome, endRaises: bool, ids: ObjectIds, ghost subs: seq<Subscription>)
      returns (raised: bool)
      requires Valid() && bus.Valid() && Owns(subs) && a in AttrsOf(kind)
      modifies this, bus, attrs.Values, ids
      ensures Valid() && bus.Valid() && Owns(subs)
      ensures a == OnTestCaseBegin || a == OnTestClassBegin ==>
                life == old(life).Setup(outcome) && (raised <==> outcome != Works)
      ensures a == OnTestCaseEnd ==> life == old(life).Teardown(endRaises) && !raised
      ensures a == OnTestClassEnd ==> !raised && bus.registry == UnregisterEach(old(bus.registry), subs)
      ensures a == OnTestClassEnd ==>
                life == if kind == PerTestClass then old(life).Teardown(endRaises) else old(life)
      ensures a != OnTestClassEnd ==> bus.registry == old(bus.registry)
    {
      raised := false;
      match a {
        case OnTestCaseBegin => raised := SetupProxy(outcome);
        case OnTestClassBegin => raised := SetupProxy(outcome);
        case OnTestCaseEnd => raised := TeardownProxy(endRaises);
        case OnTestClassEnd => OnTestClassEndEvent(endRaises, ids, subs);
      }
    }

    /** event_bus.unregister on each of the decorated methods. */
    method LeaveBus(ids: ObjectIds, ghost subs: seq<Subscription>)
      requires Valid() && bus.Valid() && Owns(subs)
      modifies bus, attrs.Values, ids
      ensures Valid() && bus.Valid() && Owns(subs)
      ensures bus.registry == UnregisterEach(old(bus.registry), subs)
    {
      ghost var start := bus.registry;
      for i := 0 to |AttrsOf(kind)|
        invariant Valid() && bus.Valid() && Owns(subs)
        invariant UnregisterEach(bus.registry, subs[i..]) == UnregisterEach(start, subs)
      {
        UnregisterAttr(i, ids, subs);
        assert subs[i..][0] == subs[i] && subs[i..][1..] == subs[i + 1..];
      }
    }
  }

  function UnregisterEach(reg: Registry, subs: seq<Subscription>): Registry
    decreases subs
  {
    if subs == [] then reg else UnregisterEach(reg.Unregister(subs[0]), subs[1..])
  }

  method RegisterNew(bundle: SubscriptionBundle)
    requires bundle.bus.Valid() && !bundle.registered
    modifies bundle, bundle.bus
    ensures bundle.bus.Valid()
    ensures bundle.bus.registry == RegisterEach(old(bundle.bus.registry), old(bundle.members))
  {
    RegisterAllRegistersEach(bundle.StateOf());
    bundle.Register();
  }

  method AddToUnregistered(bundle: SubscriptionBundle, s: Subscription)
    requires bundle.bus.Valid() && !bundle.registered && s !in bundle.ids
    modifies bundle, bundle.bus
    ensures bundle.bus.Valid() && bundle.bus.registry == old(bundle.bus.registry)
    ensures !bundle.registered && bundle.members == old(bundle.members) + [s]
        && bundle.ids == old(bundle.ids)[s := None]
  {
    bundle.AddSubscription(s);
  }

  lemma AttrsAreDistinct(kind: ProxyKind, i: nat)
    requires i < |AttrsOf(kind)|
    ensures AttrsOf(kind)[i] !in AttrsOf(kind)[..i]
  {
  }

  lemma TagsAreDistinct(names: seq<Attr>, first: nat, i: nat)
    requires i < |names|
    ensures ProxySubscriptions(names, first)[i] == ProxySubscription(names[i], first + i)
    ensures ProxySubscription(names[i], first + i) !in ProxySubscriptions(names, first)[..i]
    ensures ProxySubscriptions(names, first)[..i + 1] ==
        ProxySubscriptions(names, first)[..i] + [ProxySubscription(names[i], first + i)]
  {
  }

  lemma {:induction false} RegisterFromRegistersEach(st: State, k: nat)
    requires k <= |st.bundle.members|
    ensures RegisterFrom(st, k).registry == RegisterEach(st.registry, st.bundle.members[k..])
    decreases |st.bundle.members| - k
  {
    if k >= |st.bundle.members| {
    } else {
      var s := st.bundle.members[k];
      var bundle := Bundle(st.bundle.members, st.bundle.ids[s := Some(IdOf(s))], st.bundle.registered);
      RegisterFromRegistersEach(State(bundle, st.registry.Register(s)), k + 1);
      assert st.bundle.members[k..][1..] == st.bundle.members[k + 1..];
    }
  }

  lemma RegisterAllRegistersEach(st: State)
    requires !st.bundle.registered
    ensures RegisterAll(st).registry == RegisterEach(st.registry, st.bundle.members)
  {
    RegisterFromRegistersEach(State(st.bundle.(registered := true), st.registry), 0);
    assert st.bundle.members[0..] == st.bundle.members;
  }
}
