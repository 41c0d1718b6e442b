/** Which context handlers find on top of the stack, within one post and over whole runs. */
module ContextRuns {
  import opened Events
  import opened BusRegistry
  import opened RegistryLaws
  import opened Posting
  import opened Contexts

  // ---------- places in a snapshot ----------

  /** s is delivered to after c whenever both listen: larger order, or less specific type. */
  predicate ComesAfter(mro: seq<EventType>, c: Subscription, s: Subscription) {
    || c.order < s.order
    || (c.order == s.order && Specificity(mro, c.eventType) < Specificity(mro, s.eventType))
  }

  lemma {:induction false} TwoRegistrations(live: seq<Registration>, a: Registration, b: Registration)
    requires a in live && b in live && a != b && a.sub == b.sub
    ensures Count(live, a.sub) >= 2
  {
    var rest := live[1..];
    if a in rest && b in rest {
      TwoRegistrations(rest, a, b);
    } else if a in rest {
      InSubs(rest, a.sub);
      CountSubs(rest, a.sub);
    } else {
      InSubs(rest, b.sub);
      CountSubs(rest, b.sub);
    }
  }

  lemma PlacesAround(reg: Registry, event: EventObject, c: Subscription, at: nat, j: nat)
    requires reg.Valid() && Distinct(event.mro) && Count(reg.live, c) == 1
    requires at < |Snapshot(reg, event)| && Snapshot(reg, event)[at] == c && j < |Snapshot(reg, event)|
    ensures var s := Snapshot(reg, event)[j];
            && (j != at ==> s != c)
            && (j <= at ==> !ComesAfter(event.mro, c, s))
            && (j >= at ==> !ComesAfter(event.mro, s, c))
  {
    var delivery := Delivery(reg.live, event.mro);
    SubsAt(delivery);
    DeliveryIsPromised(reg.live, event.mro);
    assert delivery[at] in delivery && delivery[j] in delivery;
    if j != at {
      assert j < at ==> Precedes(event.mro, delivery[j], delivery[at]);
      assert at < j ==> Precedes(event.mro, delivery[at], delivery[j]);
      if delivery[j].sub == c {
        TwoRegistrations(reg.live, delivery[j], delivery[at]);
      }
    }
  }

  // ---------- who hears that the context has changed ----------

  /** The change of the class context is announced to the listeners of these types, and to no others. */
  lemma ClassChangeIsAnnounced(reg: Registry, s: Subscription)
    ensures s in Snapshot(reg, NEW_CLASS_CONTEXT) <==>
            && reg.Has(s)
            && s.eventType in [NewTestClassContextEvent, NewContextEvent, Event, ObjectType]
  {
    NotDeliveredUnlessLive(reg, NEW_CLASS_CONTEXT.mro, s);
  }

  lemma CaseChangeIsAnnounced(reg: Registry, s: Subscription)
    ensures s in Snapshot(reg, NEW_CASE_CONTEXT) <==>
            && reg.Has(s)
            && s.eventType in [NewTestCaseContextEvent, NewContextEvent, Event, ObjectType]
  {
    NotDeliveredUnlessLive(reg, NEW_CASE_CONTEXT.mro, s);
  }

  // ---------- one post ----------

  /** The stack that the handlers at place j and later find, when the keeper c stands at place at. */
  function StackAt(k: Keepers, stack: Stack, event: EventObject, c: Subscription, at: nat, j: nat): Stack {
    if j <= at then stack else k.Update(stack, Delivered(c, event))
  }

  /** What is seen at log[i], whose delivery is of the event itself or nested in one. */
  ghost predicate SeenWell(k: Keepers, stack: Stack, event: EventObject,
                           snapshot: seq<Subscription>, at: nat, from: nat,
                           log: seq<Delivered>, i: nat)
    requires at < |snapshot| && i < |log|
  {
    var seen := k.After(StackAt(k, stack, event, snapshot[at], at, from), log[..i]);
    && (seen == stack || seen == k.Update(stack, Delivered(snapshot[at], event)))
    && (log[i].event == event ==>
          exists j :: from <= j < |snapshot| && log[i].sub == snapshot[j]
                      && seen == StackAt(k, stack, event, snapshot[at], at, j))
  }

  lemma {:induction false} DeliveriesSeeWell(k: Keepers, reg: Registry, snapshot: seq<Subscription>, event: EventObject,
                                             ignoreErrors: bool, behaviours: seq<Behaviour>, from: nat,
                                             at: nat, stack: Stack)
    requires k.Valid() && at < |snapshot| && k.Keeps(snapshot[at]) && from <= |snapshot|
    requires forall j :: 0 <= j < |snapshot| && j != at ==> !k.Keeps(snapshot[j])
    requires NeutralBehaviours(behaviours) && !Neutral(event)
    ensures var outcome := DeliverFrom(reg, snapshot, event, ignoreErrors, behaviours, from);
            && (forall i :: 0 <= i < |outcome.log| ==> SeenWell(k, stack, event, snapshot, at, from, outcome.log, i))
            && k.After(StackAt(k, stack, event, snapshot[at], at, from), outcome.log) ==
               StackAt(k, stack, event, snapshot[at], at, from + |outcome.visited|)
    decreases |snapshot| - from
  {
    if from == |snapshot| {
      return;
    }
    var acted := ActedAt(reg, snapshot[from], behaviours, from);
    if from < |behaviours| && Handles(snapshot[from], behaviours[from]) {
      ActRunIsNeutral(k, reg, behaviours[from].actions);
    }
    var d := Delivered(snapshot[from], event);
    OneTurn(k, snapshot, event, from, at, stack);
    var rest: seq<Delivered> := [];
    if !(RaisesAt(snapshot, behaviours, from) && !ignoreErrors) {
      DeliveriesSeeWell(k, acted.registry, snapshot, event, ignoreErrors, behaviours, from + 1, at, stack);
      rest := DeliverFrom(acted.registry, snapshot, event, ignoreErrors, behaviours, from + 1).log;
    }
    FirstDeliveryThenRest(k, stack, event, snapshot, at, from, from + 1, acted.log, rest);
    assert DeliverFrom(reg, snapshot, event, ignoreErrors, behaviours, from).log == [d] + acted.log + rest;
  }

  /** Only the keeper's turn changes the stack. */
  lemma OneTurn(k: Keepers, snapshot: seq<Subscription>, event: EventObject, from: nat, at: nat, stack: Stack)
    requires at < |snapshot| && from < |snapshot|
    requires forall j :: 0 <= j < |snapshot| && j != at ==> !k.Keeps(snapshot[j])
    ensures k.Update(StackAt(k, stack, event, snapshot[at], at, from), Delivered(snapshot[from], event)) ==
            StackAt(k, stack, event, snapshot[at], at, from + 1)
  {
  }

  /** The log of one delivery, what its handler posted, and the deliveries after it. */
  lemma FirstDeliveryThenRest(k: Keepers, stack: Stack, event: EventObject,
                              snapshot: seq<Subscription>, at: nat, from: nat, next: nat,
                              nested: seq<Delivered>, rest: seq<Delivered>)
    requires Turn(k, stack, event, snapshot, at, from, next, nested)
    requires forall i :: 0 <= i < |rest| ==> SeenWell(k, stack, event, snapshot, at, next, rest, i)
    ensures var log := [Delivered(snapshot[from], event)] + nested + rest;
            && (forall i :: 0 <= i < |log| ==> SeenWell(k, stack, event, snapshot, at, from, log, i))
            && k.After(StackAt(k, stack, event, snapshot[at], at, from), log) ==
               k.After(StackAt(k, stack, event, snapshot[at], at, next), rest)
  {
    var d := Delivered(snapshot[from], event);
    var log := [d] + nested + rest;
    AfterFirstAndNested(k, StackAt(k, stack, event, snapshot[at], at, from), d, nested, rest);
    forall i | 0 <= i < |log|
      ensures SeenWell(k, stack, event, snapshot, at, from, log, i)
    {
      SeenAt(k, stack, event, snapshot, at, from, next, nested, rest, i);
    }
  }

  lemma SeenAt(k: Keepers, stack: Stack, event: EventObject, snapshot: seq<Subscription>, at: nat, from: nat, next: nat,
               nested: seq<Delivered>, rest: seq<Delivered>, i: nat)
    requires Turn(k, stack, event, snapshot, at, from, next, nested) && i < 1 + |nested| + |rest|
    requires forall i :: 0 <= i < |rest| ==> SeenWell(k, stack, event, snapshot, at, next, rest, i)
    ensures SeenWell(k, stack, event, snapshot, at, from, [Delivered(snapshot[from], event)] + nested + rest, i)
  {
    if i == 0 {
      SeenFirst(k, stack, event, snapshot, at, from, [Delivered(snapshot[from], event)] + nested + rest);
    } else if i <= |nested| {
      SeenNested(k, stack, event, snapshot, at, from, next, nested, rest, i);
    } else {
      SeenLater(k, stack, event, snapshot, at, from, next, nested, rest, i - 1 - |nested|);
    }
  }

  /** One delivery: it takes the stack from one turn to the next, and its handler posts neutral events. */
  ghost predicate Turn(k: Keepers, stack: Stack, event: EventObject,
                       snapshot: seq<Subscription>, at: nat, from: nat, next: nat,
                       nested: seq<Delivered>)
  {
    && next == from + 1 && at < |snapshot| && from < |snapshot|
    && k.Valid() && NeutralLog(k, nested) && !Neutral(event)
    && k.Update(StackAt(k, stack, event, snapshot[at], at, from), Delivered(snapshot[from], event)) ==
       StackAt(k, stack, event, snapshot[at], at, next)
  }

  lemma SeenFirst(k: Keepers, stack: Stack, event: EventObject, snapshot: seq<Subscription>, at: nat, from: nat,
                  log: seq<Delivered>)
    requires at < |snapshot| && from < |snapshot| && log != [] && log[0] == Delivered(snapshot[from], event)
    ensures SeenWell(k, stack, event, snapshot, at, from, log, 0)
  {
    assert log[..0] == [];
  }

  lemma SeenNested(k: Keepers, stack: Stack, event: EventObject,
                   snapshot: seq<Subscription>, at: nat, from: nat, next: nat,
                   nested: seq<Delivered>, rest: seq<Delivered>, i: nat)
    requires Turn(k, stack, event, snapshot, at, from, next, nested) && 1 <= i <= |nested|
    ensures SeenWell(k, stack, event, snapshot, at, from, [Delivered(snapshot[from], event)] + nested + rest, i)
  {
    var d := Delivered(snapshot[from], event);
    PrefixInNested(d, nested, rest, i);
    AfterFirstAndNested(k, StackAt(k, stack, event, snapshot[at], at, from), d, nested[..i - 1], []);
  }

  lemma PrefixInNested(d: Delivered, nested: seq<Delivered>, rest: seq<Delivered>, i: nat)
    requires 1 <= i <= |nested|
    ensures ([d] + nested + rest)[..i] == [d] + nested[..i - 1] + [] && ([d] + nested + rest)[i] == nested[i - 1]
  {
  }

  lemma PrefixInRest(d: Delivered, nested: seq<Delivered>, rest: seq<Delivered>, m: nat)
    requires m < |rest|
    ensures var i := 1 + |nested| + m;
            ([d] + nested + rest)[..i] == [d] + nested + rest[..m] && ([d] + nested + rest)[i] == rest[m]
  {
  }

  /** A delivery of the rest is seen in the whole log as in the rest. */
  lemma SeenLater(k: Keepers, stack: Stack, event: EventObject,
                  snapshot: seq<Subscription>, at: nat, from: nat, next: nat,
                  nested: seq<Delivered>, rest: seq<Delivered>, m: nat)
    requires Turn(k, stack, event, snapshot, at, from, next, nested) && m < |rest|
    requires SeenWell(k, stack, event, snapshot, at, next, rest, m)
    ensures SeenWell(k, stack, event, snapshot, at, from,
        [Delivered(snapshot[from], event)] + nested + rest, 1 + |nested| + m)
  {
    var d := Delivered(snapshot[from], event);
    PrefixInRest(d, nested, rest, m);
    AfterFirstAndNested(k, StackAt(k, stack, event, snapshot[at], at, from), d, nested, rest[..m]);
  }

  lemma AfterFirstAndNested(k: Keepers, stack: Stack, d: Delivered, nested: seq<Delivered>, rest: seq<Delivered>)
    requires NeutralLog(k, nested)
    ensures k.After(stack, [d] + nested + rest) == k.After(k.Update(stack, d), rest)
  {
    assert ([d] + nested + rest)[1..] == nested + rest;
    AfterConcat(k, k.Update(stack, d), nested, rest);
    AfterNeutral(k, k.Update(stack, d), nested);
  }

  /** The keeper that listens for an event, when exactly one does. */
  predicate IsKeeperFor(k: Keepers, event: EventObject, c: Subscription) {
    && (event.IsInstance(TestClassEvent) <==> c == k.onClass)
    && (event.IsInstance(TestCaseBeginEvent) <==> c == k.onCaseBegin)
    && (event.IsInstance(TestCaseEndEvent) <==> c == k.onCaseEnd)
    && k.Keeps(c)
  }

  lemma PlaceOfKeeper(k: Keepers, reg: Registry, event: EventObject, c: Subscription) returns (at: nat)
    requires k.Valid() && reg.Valid() && Distinct(event.mro)
    requires IsKeeperFor(k, event, c) && Count(reg.live, c) == 1
    ensures at < |Snapshot(reg, event)| && Snapshot(reg, event)[at] == c
    ensures forall j :: 0 <= j < |Snapshot(reg, event)| && j != at ==> !k.Keeps(Snapshot(reg, event)[j])
  {
    var snapshot := Snapshot(reg, event);
    CountSubs(reg.live, c);
    NotDeliveredUnlessLive(reg, event.mro, c);
    at :| 0 <= at < |snapshot| && snapshot[at] == c;
    forall j | 0 <= j < |snapshot| && j != at
      ensures !k.Keeps(snapshot[j])
    {
      PlacesAround(reg, event, c, at, j);
      NotDeliveredUnlessLive(reg, event.mro, snapshot[j]);
    }
  }

  /**
    One post of a test event. Every handler, nested ones included, finds the stack as it was or
    as the keeper leaves it; a handler of the event itself that is ordered behind the keeper finds
    it updated, one ordered before finds it as it was. Afterwards it is updated.
   */
  lemma PostSeesWell(k: Keepers, reg: Registry, event: EventObject, ignoreErrors: bool, behaviours: seq<Behaviour>,
                     c: Subscription, stack: Stack)
    requires k.Valid() && reg.Valid() && Distinct(event.mro)
    requires IsKeeperFor(k, event, c) && Count(reg.live, c) == 1 && NeutralBehaviours(behaviours)
    ensures var outcome, updated := PostRun(reg, event, ignoreErrors, behaviours), k.Update(stack, Delivered(c, event));
            && (forall i :: 0 <= i < |outcome.log| ==> SeenInPost(k, stack, updated, event, c, outcome.log, i))
            && (!outcome.raised ==> k.After(stack, outcome.log) == updated)
  {
    var snapshot := Snapshot(reg, event);
    var at := PlaceOfKeeper(k, reg, event, c);
    DeliveriesSeeWell(k, reg, snapshot, event, ignoreErrors, behaviours, 0, at, stack);
    VisitsUpToFirstRaise(reg, snapshot, event, ignoreErrors, behaviours);
    var log := PostRun(reg, event, ignoreErrors, behaviours).log;
    forall i | 0 <= i < |log|
      ensures SeenInPost(k, stack, k.Update(stack, Delivered(c, event)), event, c, log, i)
    {
      SeenWellInPost(k, reg, event, c, at, stack, log, i);
    }
  }

  lemma SeenWellInPost(k: Keepers, reg: Registry, event: EventObject, c: Subscription, at: nat, stack: Stack,
                       log: seq<Delivered>, i: nat)
    requires reg.Valid() && Distinct(event.mro) && Count(reg.live, c) == 1
    requires at < |Snapshot(reg, event)| && Snapshot(reg, event)[at] == c && i < |log|
    requires SeenWell(k, stack, event, Snapshot(reg, event), at, 0, log, i)
    ensures SeenInPost(k, stack, k.Update(stack, Delivered(c, event)), event, c, log, i)
  {
    var snapshot := Snapshot(reg, event);
    if log[i].event == event {
      var j :| 0 <= j < |snapshot| && log[i].sub == snapshot[j]
               && k.After(stack, log[..i]) == StackAt(k, stack, event, c, at, j);
      PlacesAround(reg, event, c, at, j);
    }
  }

  ghost predicate SeenInPost(k: Keepers, stack: Stack, updated: Stack, event: EventObject, c: Subscription,
                             log: seq<Delivered>, i: nat)
    requires i < |log|
  {
    var seen := k.After(stack, log[..i]);
    && (seen == stack || seen == updated)
    && (log[i].event == event && ComesAfter(event.mro, c, log[i].sub) ==> seen == updated)
    && (log[i].event == event && ComesAfter(event.mro, log[i].sub, c) ==> seen == stack)
  }

  /** Handlers of a test case's begin above order -100 find that case on top. */
  lemma CaseBeginHandlersSeeCase(k: Keepers, reg: Registry, event: EventObject, ignoreErrors: bool,
                                 behaviours: seq<Behaviour>, stack: Stack, i: nat)
    requires k.Valid() && reg.Valid() && Distinct(event.mro)
    requires IsKeeperFor(k, event, k.onCaseBegin) && Count(reg.live, k.onCaseBegin) == 1
        && NeutralBehaviours(behaviours)
    requires var log := PostRun(reg, event, ignoreErrors, behaviours).log;
             i < |log| && log[i].event == event && log[i].sub.order > -100
    ensures var log := PostRun(reg, event, ignoreErrors, behaviours).log;
            k.After(stack, log[..i]) == stack + [CaseContext(event.testClass, event.testCase)]
  {
    PostSeesWell(k, reg, event, ignoreErrors, behaviours, k.onCaseBegin, stack);
    var log := PostRun(reg, event, ignoreErrors, behaviours).log;
    assert SeenInPost(k, stack, k.Update(stack, Delivered(k.onCaseBegin, event)), event, k.onCaseBegin, log, i);
  }

  /** Handlers of a test case's end below order 100 find the stack as it was before the end. */
  lemma CaseEndHandlersSeeStackBefore(k: Keepers, reg: Registry, event: EventObject, ignoreErrors: bool,
                                      behaviours: seq<Behaviour>, stack: Stack, i: nat)
    requires k.Valid() && reg.Valid() && Distinct(event.mro)
    requires IsKeeperFor(k, event, k.onCaseEnd) && Count(reg.live, k.onCaseEnd) == 1 && NeutralBehaviours(behaviours)
    requires var log := PostRun(reg, event, ignoreErrors, behaviours).log;
             i < |log| && log[i].event == event && log[i].sub.order < 100
    ensures k.After(stack, PostRun(reg, event, ignoreErrors, behaviours).log[..i]) == stack
  {
    PostSeesWell(k, reg, event, ignoreErrors, behaviours, k.onCaseEnd, stack);
    var log := PostRun(reg, event, ignoreErrors, behaviours).log;
    assert SeenInPost(k, stack, k.Update(stack, Delivered(k.onCaseEnd, event)), event, k.onCaseEnd, log, i);
  }

  /** Handlers of a class's begin above order 0 find the class, those of its end below order 0 still do. */
  lemma ClassHandlersSeeClass(k: Keepers, reg: Registry, event: EventObject, ignoreErrors: bool,
                              behaviours: seq<Behaviour>, stack: Stack, i: nat)
    requires k.Valid() && reg.Valid() && Distinct(event.mro)
    requires IsKeeperFor(k, event, k.onClass) && Count(reg.live, k.onClass) == 1 && NeutralBehaviours(behaviours)
    requires var log := PostRun(reg, event, ignoreErrors, behaviours).log;
             i < |log| && log[i].event == event && log[i].sub.order != 0
    ensures var log := PostRun(reg, event, ignoreErrors, behaviours).log;
            k.After(stack, log[..i]) == if log[i].sub.order > 0 then ClassUpdate(stack, event) else stack
  {
    PostSeesWell(k, reg, event, ignoreErrors, behaviours, k.onClass, stack);
    var log := PostRun(reg, event, ignoreErrors, behaviours).log;
    assert SeenInPost(k, stack, k.Update(stack, Delivered(k.onClass, event)), event, k.onClass, log, i);
  }

  /**
    At order 0 there is a catch: the keeper listens for the base type at order 0, so a handler of
    the begin event itself at that default order runs first and does not find the class.
   */
  lemma DefaultClassBeginHandlersDoNotSeeClass(k: Keepers, reg: Registry, event: EventObject, ignoreErrors: bool,
                                               behaviours: seq<Behaviour>, stack: Stack, i: nat)
    requires k.Valid() && reg.Valid()
    requires event.mro == [TestClassBeginEvent, TestClassEvent, TestEvent, Event, ObjectType]
    requires Count(reg.live, k.onClass) == 1 && NeutralBehaviours(behaviours)
    requires var log := PostRun(reg, event, ignoreErrors, behaviours).log;
             i < |log| && log[i].event == event && log[i].sub.eventType == TestClassBeginEvent
    ensures var log := PostRun(reg, event, ignoreErrors, behaviours).log;
            k.After(stack, log[..i]) ==
            if log[i].sub.order <= 0 then stack else stack + [ClassContext(event.testClass)]
  {
    var log := PostRun(reg, event, ignoreErrors, behaviours).log;
    ClassBeginBeforeBase(event.mro);
    if log[i].sub.order == 0 {
      PostSeesWell(k, reg, event, ignoreErrors, behaviours, k.onClass, stack);
      assert SeenInPost(k, stack, k.Update(stack, Delivered(k.onClass, event)), event, k.onClass, log, i);
    } else {
      ClassHandlersSeeClass(k, reg, event, ignoreErrors, behaviours, stack, i);
    }
  }

  lemma ClassBeginBeforeBase(mro: seq<EventType>)
    requires mro == [TestClassBeginEvent, TestClassEvent, TestEvent, Event, ObjectType]
    ensures Specificity(mro, TestClassBeginEvent) < Specificity(mro, TestClassEvent)
    ensures Distinct(mro)
  {
    assert mro[1..][0] == TestClassEvent;
  }
}
