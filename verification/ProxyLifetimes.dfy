/**
  The two kinds of logger proxy from construction on: which events reach which of their methods,
  and what that makes of their loggers over whole test runs.
 */
module ProxyLifetimes {
  import opened Wrappers
  import opened Events
  import opened BusRegistry
  import opened RegistryLaws
  import opened Posting
  import opened PostingLaws
  import opened SubscriptionHandles
  import opened EventBus
  import opened LoggerLifecycle
  import opened LoggerProxies
  import opened ProxiesOnBus
  import opened ContextRuns
  import opened ProxyRuns

  // ---------- construction ----------

  /** What a per-case proxy has on the bus when the next free tag is n. */
  function CaseProxySubs(n: nat): seq<Subscription> {
    [Subscription(n, TestCaseBeginEvent, 0, false),
     Subscription(n + 1, TestCaseEndEvent, 0, false),
     Subscription(n + 2, TestClassEndEvent, 0, false)]
  }

  function ClassProxySubs(n: nat): seq<Subscription> {
    [Subscription(n, TestClassBeginEvent, 0, false), Subscription(n + 1, TestClassEndEvent, 0, false)]
  }

  lemma SubscriptionsOfKind(n: nat)
    ensures ProxySubscriptions(AttrsOf(PerTestCase), n) == CaseProxySubs(n)
    ensures ProxySubscriptions(AttrsOf(PerTestClass), n) == ClassProxySubs(n)
  {
  }

  /** TestCaseLoggerProxy: begin and end of a case and the end of the class each reach their own method. */
  method NewTestCaseProxy(bus: EventBus, ids: ObjectIds) returns (proxy: LoggerProxy)
    requires bus.Valid()
    modifies bus, ids
    ensures fresh(proxy) && proxy.Valid() && proxy.kind == PerTestCase && proxy.bus == bus
    ensures bus.Valid() && proxy.life == NO_LOGGER_YET && ids.next == old(ids.next) + 3
    ensures proxy.attrs.Keys == {OnTestCaseBegin, OnTestCaseEnd, OnTestClassEnd}
    ensures proxy.Caches(OnTestCaseBegin, Subscription(old(ids.next), TestCaseBeginEvent, 0, false))
    ensures proxy.Caches(OnTestCaseEnd, Subscription(old(ids.next) + 1, TestCaseEndEvent, 0, false))
    ensures proxy.Caches(OnTestClassEnd, Subscription(old(ids.next) + 2, TestClassEndEvent, 0, false))
    ensures bus.registry == RegisterEach(old(bus.registry), CaseProxySubs(old(ids.next)))
  {
    SubscriptionsOfKind(ids.next);
    proxy := new LoggerProxy(PerTestCase, bus, ids);
    assert AttrsOf(PerTestCase)[0] in proxy.attrs && AttrsOf(PerTestCase)[1] in proxy.attrs;
    assert AttrsOf(PerTestCase)[2] in proxy.attrs;
  }

  /** TestClassLoggerProxy: begin and end of the class each reach their own method. */
  method NewTestClassProxy(bus: EventBus, ids: ObjectIds) returns (proxy: LoggerProxy)
    requires bus.Valid()
    modifies bus, ids
    ensures fresh(proxy) && proxy.Valid() && proxy.kind == PerTestClass && proxy.bus == bus
    ensures bus.Valid() && proxy.life == NO_LOGGER_YET && ids.next == old(ids.next) + 2
    ensures proxy.attrs.Keys == {OnTestClassBegin, OnTestClassEnd}
    ensures proxy.Caches(OnTestClassBegin, Subscription(old(ids.next), TestClassBeginEvent, 0, false))
    ensures proxy.Caches(OnTestClassEnd, Subscription(old(ids.next) + 1, TestClassEndEvent, 0, false))
    ensures bus.registry == RegisterEach(old(bus.registry), ClassProxySubs(old(ids.next)))
  {
    SubscriptionsOfKind(ids.next);
    proxy := new LoggerProxy(PerTestClass, bus, ids);
    assert AttrsOf(PerTestClass)[0] in proxy.attrs && AttrsOf(PerTestClass)[1] in proxy.attrs;
  }

  // ---------- which events reach which method ----------

  /** The event is delivered to s, once. */
  ghost predicate ReachedOnce(reg: Registry, event: EventObject, s: Subscription) {
    var snapshot := Snapshot(reg, event);
    exists at :: 0 <= at < |snapshot| && snapshot[at] == s && s !in snapshot[..at] && s !in snapshot[at + 1..]
  }

  /** Of subs, the event is delivered to the i-th alone. */
  ghost predicate ReachesOnly(reg: Registry, event: EventObject, subs: seq<Subscription>, i: nat)
    requires i < |subs|
  {
    && ReachedOnce(reg, event, subs[i])
    && forall j :: 0 <= j < |subs| && j != i ==> subs[j] !in Snapshot(reg, event)
  }

  lemma ReachedWhenListed(reg: Registry, event: EventObject, s: Subscription)
    requires reg.Valid() && Distinct(event.mro) && Count(reg.live, s) == 1 && s.eventType in event.mro
    ensures ReachedOnce(reg, event, s)
  {
    var snapshot := Snapshot(reg, event);
    CountSubs(reg.live, s);
    NotDeliveredUnlessLive(reg, event.mro, s);
    var at :| 0 <= at < |snapshot| && snapshot[at] == s;
    forall j | 0 <= j < |snapshot| && j != at
      ensures snapshot[j] != s
    {
      PlacesAround(reg, event, s, at, j);
    }
  }

  lemma ListedReachesOnly(reg: Registry, event: EventObject, subs: seq<Subscription>, i: nat)
    requires reg.Valid() && Distinct(event.mro) && i < |subs|
    requires Count(reg.live, subs[i]) == 1 && subs[i].eventType in event.mro
    requires forall j :: 0 <= j < |subs| && j != i ==> subs[j].eventType !in event.mro
    ensures ReachesOnly(reg, event, subs, i)
  {
    ReachedWhenListed(reg, event, subs[i]);
    forall j | 0 <= j < |subs| && j != i
      ensures subs[j] !in Snapshot(reg, event)
    {
      NotDeliveredUnlessLive(reg, event.mro, subs[j]);
    }
  }

  ghost predicate EachOnce(reg: Registry, subs: seq<Subscription>) {
    reg.Valid() && forall s :: s in subs ==> Count(reg.live, s) == 1
  }

  lemma {:induction false} RegisterEachKeepsValid(reg: Registry, subs: seq<Subscription>)
    requires reg.Valid()
    ensures RegisterEach(reg, subs).Valid()
    decreases subs
  {
    if subs == [] {
    } else {
      RegisterKeepsValid(reg, subs[0]);
      RegisterEachKeepsValid(reg.Register(subs[0]), subs[1..]);
    }
  }

  /** The registry that a constructor leaves: each subscription of the proxy is on it once. */
  lemma Joined(reg: Registry, kind: ProxyKind, n: nat)
    requires reg.Valid() && TagsBelow(reg, n)
    ensures var subs := if kind == PerTestCase then CaseProxySubs(n) else ClassProxySubs(n);
            EachOnce(RegisterEach(reg, subs), subs)
  {
    SubscriptionsOfKind(n);
    var subs := ProxySubscriptions(AttrsOf(kind), n);
    RegisterEachKeepsValid(reg, subs);
    forall s | s in subs
      ensures Count(RegisterEach(reg, subs).live, s) == 1
    {
      NewProxyIsOnBus(reg, kind, n, s);
    }
  }

  lemma OnlyOneListens(after: Registry, subs: seq<Subscription>, event: EventObject, i: nat)
    requires EachOnce(after, subs) && i < |subs| && Distinct(event.mro) && subs[i].eventType in event.mro
    requires forall j :: 0 <= j < |subs| && j != i ==> subs[j].eventType !in event.mro
    ensures ReachesOnly(after, event, subs, i)
  {
    assert subs[i] in subs;
    ListedReachesOnly(after, event, subs, i);
  }

  /** The begin of a case reaches, of a new per-case proxy, the method for it alone. */
  lemma CaseBeginReachesCaseProxy(reg: Registry, n: nat, event: EventObject)
    requires reg.Valid() && TagsBelow(reg, n)
    requires event.mro == [TestCaseBeginEvent, TestCaseEvent, TestEvent, Event, ObjectType]
    ensures ReachesOnly(RegisterEach(reg, CaseProxySubs(n)), event, CaseProxySubs(n), 0)
  {
    Joined(reg, PerTestCase, n);
    OnlyOneListens(RegisterEach(reg, CaseProxySubs(n)), CaseProxySubs(n), event, 0);
  }

  lemma CaseEndReachesCaseProxy(reg: Registry, n: nat, event: EventObject)
    requires reg.Valid() && TagsBelow(reg, n)
    requires event.mro == [TestCaseEndEvent, TestCaseSignalEvent, TestCaseEvent, TestEvent, Event, ObjectType]
    ensures ReachesOnly(RegisterEach(reg, CaseProxySubs(n)), event, CaseProxySubs(n), 1)
  {
    Joined(reg, PerTestCase, n);
    OnlyOneListens(RegisterEach(reg, CaseProxySubs(n)), CaseProxySubs(n), event, 1);
  }

  lemma ClassEndReachesCaseProxy(reg: Registry, n: nat, event: EventObject)
    requires reg.Valid() && TagsBelow(reg, n)
    requires event.mro == [TestClassEndEvent, TestClassEvent, TestEvent, Event, ObjectType]
    ensures ReachesOnly(RegisterEach(reg, CaseProxySubs(n)), event, CaseProxySubs(n), 2)
  {
    Joined(reg, PerTestCase, n);
    OnlyOneListens(RegisterEach(reg, CaseProxySubs(n)), CaseProxySubs(n), event, 2);
  }

  lemma ClassBeginReachesClassProxy(reg: Registry, n: nat, event: EventObject)
    requires reg.Valid() && TagsBelow(reg, n)
    requires event.mro == [TestClassBeginEvent, TestClassEvent, TestEvent, Event, ObjectType]
    ensures ReachesOnly(RegisterEach(reg, ClassProxySubs(n)), event, ClassProxySubs(n), 0)
  {
    Joined(reg, PerTestClass, n);
    OnlyOneListens(RegisterEach(reg, ClassProxySubs(n)), ClassProxySubs(n), event, 0);
  }

  lemma ClassEndReachesClassProxy(reg: Registry, n: nat, event: EventObject)
    requires reg.Valid() && TagsBelow(reg, n)
    requires event.mro == [TestClassEndEvent, TestClassEvent, TestEvent, Event, ObjectType]
    ensures ReachesOnly(RegisterEach(reg, ClassProxySubs(n)), event, ClassProxySubs(n), 1)
  {
    Joined(reg, PerTestClass, n);
    OnlyOneListens(RegisterEach(reg, ClassProxySubs(n)), ClassProxySubs(n), event, 1);
  }

  // ---------- whole runs ----------

  /** The runner posts begins and ends of these types only. */
  ghost predicate PostsOnly(steps: seq<Step>, begin: seq<EventType>, end: seq<EventType>) {
    forall i :: 0 <= i < |steps| ==>
      && (steps[i].BeginPost? ==> steps[i].event.mro == begin)
      && (steps[i].EndPost? ==> steps[i].event.mro == end)
  }

  /** What is asked of the handlers of a step, whatever its event. */
  ghost predicate ProperHandlers(p: Proxy, steps: seq<Step>) {
    && (forall i :: 0 <= i < |steps| ==>
          match steps[i]
          case Calls(actions) => QuietActions(p, actions)
          case _ => ProperBehaviours(p, steps[i].ignoreErrors, steps[i].behaviours))
    && (forall i :: 0 <= i < |steps| - 1 ==> SparesProxy(p, steps[i]))
  }

  function CaseProxy(n: nat, setup: EventObject -> SetupOutcome, endRaises: EventObject -> bool): Proxy {
    Proxy(Subscription(n, TestCaseBeginEvent, 0, false), Subscription(n + 1, TestCaseEndEvent, 0, false),
          setup, endRaises)
  }

  function ClassProxy(n: nat, setup: EventObject -> SetupOutcome, endRaises: EventObject -> bool): Proxy {
    Proxy(Subscription(n, TestClassBeginEvent, 0, false), Subscription(n + 1, TestClassEndEvent, 0, false),
          setup, endRaises)
  }

  lemma CaseProxyJoins(reg: Registry, n: nat, p: Proxy)
    requires reg.Valid() && TagsBelow(reg, n)
    requires p.onBegin == CaseProxySubs(n)[0] && p.onEnd == CaseProxySubs(n)[1]
    ensures OnBus(p, RegisterEach(reg, CaseProxySubs(n)))
  {
    Joined(reg, PerTestCase, n);
  }

  lemma ClassProxyJoins(reg: Registry, n: nat, p: Proxy)
    requires reg.Valid() && TagsBelow(reg, n)
    requires p.onBegin == ClassProxySubs(n)[0] && p.onEnd == ClassProxySubs(n)[1]
    ensures OnBus(p, RegisterEach(reg, ClassProxySubs(n)))
  {
    Joined(reg, PerTestClass, n);
  }

  lemma RunIsProper(p: Proxy, steps: seq<Step>, begin: seq<EventType>, end: seq<EventType>)
    requires PostsOnly(steps, begin, end) && ProperHandlers(p, steps) && Distinct(begin) && Distinct(end)
    requires p.onBegin.eventType in begin && p.onEnd.eventType !in begin
    requires p.onEnd.eventType in end && p.onBegin.eventType !in end
    ensures ProperRun(p, steps)
  {
    forall i | 0 <= i < |steps|
      ensures Proper(p, steps[i])
    {
    }
  }

  lemma CaseRun(p: Proxy, joined: Registry, steps: seq<Step>)
    requires OnBus(p, joined) && !p.onBegin.filtered && !p.onEnd.filtered
    requires p.onBegin.eventType == TestCaseBeginEvent && p.onEnd.eventType == TestCaseEndEvent
    requires TakeTurns(steps, false) && ProperHandlers(p, steps) && PostsOnly(steps, CASE_BEGIN_MRO, CASE_END_MRO)
    ensures var life := After(NO_LOGGER_YET, HeardInRun(p, joined, steps));
            && life.started == life.ended && life.logger == None && Sound(life)
            && |life.started| == RoundsWithLogger(p, steps)
  {
    RunIsProper(p, steps, CASE_BEGIN_MRO, CASE_END_MRO);
    EachRoundHasItsLogger(p, joined, steps);
  }

  /** A run from begin to end of one class, after which the proxy is off the bus. */
  ghost predicate IsClassRun(p: Proxy, joined: Registry, steps: seq<Step>, last: Step, all: seq<Step>) {
    && OnBus(p, joined) && p.Valid() && all == steps + [last] && TakeTurns(all, false) && ProperRun(p, all)
    && last.EndPost? && ProxyLeaves(p, RegistryAfter(joined, steps), last)
    && forall i :: 0 <= i < |steps| ==> !steps[i].EndPost?
  }

  lemma ClassRun(p: Proxy, joined: Registry, steps: seq<Step>, last: Step, all: seq<Step>, laterMro: seq<EventType>)
    requires IsClassRun(p, joined, steps, last, all)
    ensures var life := After(NO_LOGGER_YET, HeardInRun(p, joined, all));
            && life.started == life.ended && life.logger == None
            && |life.started| == RoundsWithLogger(p, all) <= 1
    ensures OffBus(RegistryAfter(joined, all), [p.onBegin, p.onEnd], laterMro)
  {
    PerClassProxyLivesOneRound(p, joined, steps, last, laterMro);
  }

  lemma PostsMakeClassRun(p: Proxy, joined: Registry, steps: seq<Step>, last: Step, all: seq<Step>)
    requires OnBus(p, joined) && p.Valid() && all == steps + [last]
    requires p.onBegin.eventType == TestClassBeginEvent && p.onEnd.eventType == TestClassEndEvent
    requires TakeTurns(all, false) && ProperHandlers(p, all) && PostsOnly(all, CLASS_BEGIN_MRO, CLASS_END_MRO)
    requires last.EndPost? && ProxyLeaves(p, RegistryAfter(joined, steps), last)
    requires forall i :: 0 <= i < |steps| ==> !steps[i].EndPost?
    ensures IsClassRun(p, joined, steps, last, all)
  {
    RunIsProper(p, all, CLASS_BEGIN_MRO, CLASS_END_MRO);
  }

  /** Neither by list nor by id, so that nothing is delivered. */
  ghost predicate OffBus(reg: Registry, subs: seq<Subscription>, laterMro: seq<EventType>) {
    forall s :: s in subs ==> !reg.Has(s) && s !in reg.known && s !in Subs(Delivery(reg.live, laterMro))
  }

  /** From its construction on, a per-case proxy gives each test case that the runner posts a logger of its own. */
  lemma EachTestCaseHasItsLogger(reg: Registry, n: nat, setup: EventObject -> SetupOutcome,
                                 endRaises: EventObject -> bool, steps: seq<Step>)
    requires reg.Valid() && TagsBelow(reg, n)
    requires TakeTurns(steps, false) && ProperHandlers(CaseProxy(n, setup, endRaises), steps)
    requires PostsOnly(steps, CASE_BEGIN_MRO, CASE_END_MRO)
    ensures var p := CaseProxy(n, setup, endRaises);
            var life := After(NO_LOGGER_YET, HeardInRun(p, RegisterEach(reg, CaseProxySubs(n)), steps));
            && life.started == life.ended && life.logger == None && Sound(life)
            && |life.started| == RoundsWithLogger(p, steps)
  {
    var p := CaseProxy(n, setup, endRaises);
    CaseProxyJoins(reg, n, p);
    CaseRun(p, RegisterEach(reg, CaseProxySubs(n)), steps);
  }

  /** From its construction to the end of its class, a per-class proxy has one logger, and then it is off the bus. */
  lemma TestClassProxyLivesItsClass(reg: Registry, n: nat, setup: EventObject -> SetupOutcome,
                                    endRaises: EventObject -> bool, steps: seq<Step>, last: Step,
                                    laterMro: seq<EventType>)
    requires reg.Valid() && TagsBelow(reg, n)
    requires TakeTurns(steps + [last], false) && ProperHandlers(ClassProxy(n, setup, endRaises), steps + [last])
    requires PostsOnly(steps + [last], CLASS_BEGIN_MRO, CLASS_END_MRO)
    requires last.EndPost? && forall i :: 0 <= i < |steps| ==> !steps[i].EndPost?
    requires ProxyLeaves(ClassProxy(n, setup, endRaises),
                         RegistryAfter(RegisterEach(reg, ClassProxySubs(n)), steps), last)
    ensures var p, joined := ClassProxy(n, setup, endRaises), RegisterEach(reg, ClassProxySubs(n));
            var life := After(NO_LOGGER_YET, HeardInRun(p, joined, steps + [last]));
            && life.started == life.ended && life.logger == None
            && |life.started| == RoundsWithLogger(p, steps + [last]) <= 1
    ensures OffBus(RegistryAfter(RegisterEach(reg, ClassProxySubs(n)), steps + [last]), ClassProxySubs(n), laterMro)
  {
    var p := ClassProxy(n, setup, endRaises);
    ClassProxyJoins(reg, n, p);
    PostsMakeClassRun(p, RegisterEach(reg, ClassProxySubs(n)), steps, last, steps + [last]);
    assert ClassProxySubs(n) == [p.onBegin, p.onEnd];
    ClassRun(p, RegisterEach(reg, ClassProxySubs(n)), steps, last, steps + [last], laterMro);
  }

  /** The end of the class takes all three subscriptions of a per-case proxy off the bus. */
  lemma TestCaseProxyLeavesAtClassEnd(reg: Registry, n: nat, event: EventObject, ignoreErrors: bool,
                                      behaviours: seq<Behaviour>, laterMro: seq<EventType>)
    requires reg.Valid() && (forall s :: s in CaseProxySubs(n) ==> Count(reg.live, s) == 1)
    requires event.mro == [TestClassEndEvent, TestClassEvent, TestEvent, Event, ObjectType]
    requires ignoreErrors || forall i :: 0 <= i < |behaviours| ==> !behaviours[i].raises
    requires forall s :: s in CaseProxySubs(n) ==> AllRespect(behaviours, s, Leave(false, true))
    requires forall at :: 0 <= at < |Snapshot(reg, event)| && Snapshot(reg, event)[at] == CaseProxySubs(n)[2] ==>
                            at < |behaviours| && behaviours[at].actions == ClassEndActions(CaseProxySubs(n))
    ensures OffBus(PostRun(reg, event, ignoreErrors, behaviours).registry, CaseProxySubs(n), laterMro)
  {
    var subs, snapshot := CaseProxySubs(n), Snapshot(reg, event);
    ReachedWhenListed(reg, event, subs[2]);
    var at :| 0 <= at < |snapshot| && snapshot[at] == subs[2];
    VisitsUpToFirstRaise(reg, snapshot, event, ignoreErrors, behaviours);
    forall s | s in subs
      ensures var after := PostRun(reg, event, ignoreErrors, behaviours).registry;
              !after.Has(s) && s !in after.known && s !in Subs(Delivery(after.live, laterMro))
    {
      ProxyLeavesBus(reg, event, ignoreErrors, behaviours, subs, at, s, laterMro);
    }
  }
}
