/** The stack of test contexts of context.py and the handlers that keep it. */
module Contexts {
  import opened Wrappers
  import opened Events
  import opened BusRegistry
  import opened RegistryLaws
  import opened Posting
  import opened EventBus

  datatype Context = RootContext | ClassContext(testClass: nat) | CaseContext(testClass: nat, testCase: nat)

  type Stack = seq<Context>

  const INITIAL: Stack := [RootContext]

  function Popped(stack: Stack): Stack {
    if stack == [] then stack else stack[..|stack| - 1]
  }

  function ClassUpdate(stack: Stack, event: EventObject): Stack {
    var pushed := if event.IsInstance(TestClassBeginEvent) then stack + [ClassContext(event.testClass)] else stack;
    if event.IsInstance(TestClassEndEvent) then Popped(pushed) else pushed
  }

  function CaseUpdate(stack: Stack, event: EventObject): Stack {
    var pushed := if event.IsInstance(TestCaseBeginEvent)
        then stack + [CaseContext(event.testClass, event.testCase)] else stack;
    if event.IsInstance(TestCaseEndEvent) then Popped(pushed) else pushed
  }

  const NEW_CLASS_CONTEXT := EventObject([NewTestClassContextEvent, NewContextEvent, Event, ObjectType], 0, 0)
  const NEW_CASE_CONTEXT := EventObject([NewTestCaseContextEvent, NewContextEvent, Event, ObjectType], 0, 0)

  /** The module's list of contexts and the functions that keep and read it. */
  class ContextStack {
    var contexts: Stack

    constructor ()
      ensures contexts == INITIAL
    {
      contexts := INITIAL;
    }

    /** _update_test_class_context, followed by the announcement on the bus. */
    method UpdateTestClassContext(event: EventObject, bus: EventBus, behaviours: seq<Behaviour>) returns (raised: bool)
      requires bus.Valid()
      modifies this, bus
      ensures bus.Valid() && contexts == ClassUpdate(old(contexts), event)
      ensures var posted := PostRun(old(bus.registry), NEW_CLASS_CONTEXT, false, behaviours);
              bus.registry == posted.registry && raised == posted.raised
    {
      if event.IsInstance(TestClassBeginEvent) {
        contexts := contexts + [ClassContext(event.testClass)];
      }
      if event.IsInstance(TestClassEndEvent) {
        if contexts != [] {
          contexts := contexts[..|contexts| - 1];
        }
      }
      var _, r, _ := bus.Post(NEW_CLASS_CONTEXT, false, behaviours);
      raised := r;
    }

    method UpdateTestCaseContext(event: EventObject, bus: EventBus, behaviours: seq<Behaviour>) returns (raised: bool)
      requires bus.Valid()
      modifies this, bus
      ensures bus.Valid() && contexts == CaseUpdate(old(contexts), event)
      ensures var posted := PostRun(old(bus.registry), NEW_CASE_CONTEXT, false, behaviours);
              bus.registry == posted.registry && raised == posted.raised
    {
      if event.IsInstance(TestCaseBeginEvent) {
        contexts := contexts + [CaseContext(event.testClass, event.testCase)];
      }
      if event.IsInstance(TestCaseEndEvent) {
        if contexts != [] {
          contexts := contexts[..|contexts| - 1];
        }
      }
      var _, r, _ := bus.Post(NEW_CASE_CONTEXT, false, behaviours);
      raised := r;
    }

    /** get_current_context: the context at the smaller of depth and the current level;
        None is the IndexError of an empty stack. */
    method GetCurrentContext(depth: Option<nat>) returns (context: Option<Context>)
      ensures contexts == [] ==> context == None
      ensures contexts != [] && depth == None ==> context == Some(contexts[|contexts| - 1])
      ensures contexts != [] && depth.Some? && depth.value < |contexts| ==> context == Some(contexts[depth.value])
      ensures contexts != [] && depth.Some? && depth.value >= |contexts| ==> context == Some(contexts[|contexts| - 1])
    {
      if contexts == [] {
        return None;
      }
      if depth == None {
        return Some(contexts[|contexts| - 1]);
      }
      var level := |contexts| - 1;
      context := Some(contexts[if depth.value <= level then depth.value else level]);
    }
  }

  // ---------- the stack as seen by the handlers of a post ----------

  /** The three subscriptions that context.py makes when it is imported. */
  datatype Keepers = Keepers(onClass: Subscription, onCaseBegin: Subscription, onCaseEnd: Subscription) {
    predicate Valid() {
      && onClass.eventType == TestClassEvent && onClass.order == 0 && !onClass.filtered
      && onCaseBegin.eventType == TestCaseBeginEvent && onCaseBegin.order == -100 && !onCaseBegin.filtered
      && onCaseEnd.eventType == TestCaseEndEvent && onCaseEnd.order == 100 && !onCaseEnd.filtered
    }

    predicate Keeps(s: Subscription) {
      s == onClass || s == onCaseBegin || s == onCaseEnd
    }

    /** What a delivery does to the stack before its handler does anything else. */
    function Update(stack: Stack, d: Delivered): Stack {
      if d.sub == onClass then ClassUpdate(stack, d.event)
      else if d.sub == onCaseBegin || d.sub == onCaseEnd then CaseUpdate(stack, d.event)
      else stack
    }

    function After(stack: Stack, log: seq<Delivered>): Stack
      decreases log
    {
      if log == [] then stack else After(Update(stack, log[0]), log[1..])
    }
  }

  /** An event that no keeper listens for. */
  predicate Neutral(event: EventObject) {
    !event.IsInstance(TestClassEvent) && !event.IsInstance(TestCaseBeginEvent) && !event.IsInstance(TestCaseEndEvent)
  }

  /** Handlers post only neutral events. */
  predicate NeutralAction(action: Action)
    decreases action, 1
  {
    action.DoPost? ==> Neutral(action.event) && NeutralBehaviours(action.behaviours)
  }

  predicate NeutralActions(actions: seq<Action>)
    decreases actions, 0
  {
    forall i :: 0 <= i < |actions| ==> NeutralAction(actions[i])
  }

  predicate NeutralBehaviours(behaviours: seq<Behaviour>)
    decreases behaviours, 0
  {
    forall i :: 0 <= i < |behaviours| ==> NeutralActions(behaviours[i].actions)
  }

  /** A log without deliveries to the keepers, and of neutral events only. */
  predicate NeutralLog(k: Keepers, log: seq<Delivered>) {
    forall i :: 0 <= i < |log| ==> !k.Keeps(log[i].sub) && Neutral(log[i].event)
  }

  lemma {:induction false} ActOnceIsNeutral(k: Keepers, reg: Registry, action: Action)
    requires k.Valid() && NeutralAction(action)
    ensures NeutralLog(k, ActOnce(reg, action).log)
    decreases action, 3, 0
  {
    match action
    case DoPost(event, ignoreErrors, behaviours) =>
      forall i | 0 <= i < |Snapshot(reg, event)|
        ensures !k.Keeps(Snapshot(reg, event)[i])
      {
        NotDeliveredUnlessLive(reg, event.mro, Snapshot(reg, event)[i]);
      }
      DeliverFromIsNeutral(k, reg, Snapshot(reg, event), event, ignoreErrors, behaviours, 0);
    case _ =>
  }

  lemma {:induction false} ActRunIsNeutral(k: Keepers, reg: Registry, actions: seq<Action>)
    requires k.Valid() && NeutralActions(actions)
    ensures NeutralLog(k, ActRun(reg, actions).log)
    decreases actions, 0, 0
  {
    if actions == [] {
    } else {
      ActOnceIsNeutral(k, reg, actions[0]);
      ActRunIsNeutral(k, ActOnce(reg, actions[0]).registry, actions[1..]);
    }
  }

  lemma {:induction false} DeliverFromIsNeutral(k: Keepers, reg: Registry,
                                                snapshot: seq<Subscription>, event: EventObject,
                                                ignoreErrors: bool, behaviours: seq<Behaviour>, at: nat)
    requires k.Valid() && Neutral(event) && NeutralBehaviours(behaviours)
    requires forall i :: 0 <= i < |snapshot| ==> !k.Keeps(snapshot[i])
    ensures NeutralLog(k, DeliverFrom(reg, snapshot, event, ignoreErrors, behaviours, at).log)
    decreases behaviours, 1, |snapshot| - at
  {
    if at >= |snapshot| {
    } else {
      var acted := ActedAt(reg, snapshot[at], behaviours, at);
      if at < |behaviours| && Handles(snapshot[at], behaviours[at]) {
        ActRunIsNeutral(k, reg, behaviours[at].actions);
      }
      DeliverFromIsNeutral(k, acted.registry, snapshot, event, ignoreErrors, behaviours, at + 1);
    }
  }

  lemma {:induction false} AfterConcat(k: Keepers, stack: Stack, a: seq<Delivered>, b: seq<Delivered>)
    ensures k.After(stack, a + b) == k.After(k.After(stack, a), b)
    decreases a
  {
    if a == [] {
      assert a + b == b;
    } else {
      assert (a + b)[1..] == a[1..] + b;
      AfterConcat(k, k.Update(stack, a[0]), a[1..], b);
    }
  }

  lemma {:induction false} AfterNeutral(k: Keepers, stack: Stack, log: seq<Delivered>)
    requires NeutralLog(k, log)
    ensures k.After(stack, log) == stack
    decreases log
  {
    if log == [] {
    } else {
      AfterNeutral(k, stack, log[1..]);
    }
  }
}
