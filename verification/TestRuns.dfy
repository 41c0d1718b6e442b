/** Whole test runs: the stack of contexts over every sequence of posts and calls. */
module TestRuns {
  import opened Events
  import opened BusRegistry
  import opened RegistryLaws
  import opened Posting
  import opened PostingLaws
  import opened Contexts
  import opened ContextRuns

  /** The test runner posts an event, or anybody else uses the bus. */
  datatype Step =
    | TestPost(event: EventObject, ignoreErrors: bool, behaviours: seq<Behaviour>)
    | Calls(actions: seq<Action>)

  datatype State = State(registry: Registry, stack: Stack)

  function LogOf(st: State, step: Step): seq<Delivered> {
    match step
    case TestPost(event, ignoreErrors, behaviours) => PostRun(st.registry, event, ignoreErrors, behaviours).log
    case Calls(actions) => ActRun(st.registry, actions).log
  }

  function Next(k: Keepers, st: State, step: Step): State {
    var registry := match step
      case TestPost(event, ignoreErrors, behaviours) => PostRun(st.registry, event, ignoreErrors, behaviours).registry
      case Calls(actions) => ActRun(st.registry, actions).registry;
    State(registry, k.After(st.stack, LogOf(st, step)))
  }

  // ---------- the runs considered ----------

  /** A test event: the keepers listen for exactly one of its types. */
  ghost predicate IsTestEvent(k: Keepers, event: EventObject) {
    Distinct(event.mro)
    && (IsKeeperFor(k, event, k.onClass) || IsKeeperFor(k, event, k.onCaseBegin)
        || IsKeeperFor(k, event, k.onCaseEnd))
  }

  ghost predicate SparesKeepers(k: Keepers, behaviours: seq<Behaviour>) {
    && AllRespect(behaviours, k.onClass, HANDS_OFF)
    && AllRespect(behaviours, k.onCaseBegin, HANDS_OFF)
    && AllRespect(behaviours, k.onCaseEnd, HANDS_OFF)
  }

  /**
    Nobody else posts test events or takes the keepers off the bus, and no handler of a test
    event raises unless errors are ignored.
   */
  ghost predicate Proper(k: Keepers, step: Step) {
    match step
    case TestPost(event, ignoreErrors, behaviours) =>
      && IsTestEvent(k, event) && NeutralBehaviours(behaviours) && SparesKeepers(k, behaviours)
      && (ignoreErrors || forall i :: 0 <= i < |behaviours| ==> !behaviours[i].raises)
    case Calls(actions) =>
      && NeutralActions(actions)
      && ActionsRespect(actions, k.onClass, HANDS_OFF)
      && ActionsRespect(actions, k.onCaseBegin, HANDS_OFF)
      && ActionsRespect(actions, k.onCaseEnd, HANDS_OFF)
  }

  ghost predicate KeepersLive(k: Keepers, reg: Registry) {
    Count(reg.live, k.onClass) == 1 && Count(reg.live, k.onCaseBegin) == 1 && Count(reg.live, k.onCaseEnd) == 1
  }

  ghost predicate Good(k: Keepers, st: State) {
    k.Valid() && st.registry.Valid() && KeepersLive(k, st.registry)
  }

  // ---------- one step ----------

  /** What an event means for the stack, and nothing else does. */
  function EventUpdate(stack: Stack, event: EventObject): Stack {
    if event.IsInstance(TestClassEvent) then ClassUpdate(stack, event) else CaseUpdate(stack, event)
  }

  function StackAfter(stack: Stack, step: Step): Stack {
    if step.TestPost? then EventUpdate(stack, step.event) else stack
  }

  /** At every delivery of the step the stack is as before the step or as after it. */
  ghost predicate SeesOnly(k: Keepers, before: Stack, after: Stack, log: seq<Delivered>) {
    forall i {:trigger log[..i]} :: 0 <= i < |log| ==>
        k.After(before, log[..i]) == before || k.After(before, log[..i]) == after
  }

  lemma PostStep(k: Keepers, st: State, event: EventObject, ignoreErrors: bool, behaviours: seq<Behaviour>)
    requires Good(k, st) && Proper(k, TestPost(event, ignoreErrors, behaviours))
    ensures var step := TestPost(event, ignoreErrors, behaviours);
            var after := Next(k, st, step);
            && Good(k, after) && after.stack == StackAfter(st.stack, step)
            && SeesOnly(k, st.stack, after.stack, LogOf(st, step))
  {
    var c := if IsKeeperFor(k, event, k.onClass) then k.onClass
             else if IsKeeperFor(k, event, k.onCaseBegin) then k.onCaseBegin else k.onCaseEnd;
    var outcome := PostRun(st.registry, event, ignoreErrors, behaviours);
    PostSeesWell(k, st.registry, event, ignoreErrors, behaviours, c, st.stack);
    DeliverFromVisits(st.registry, Snapshot(st.registry, event), event, ignoreErrors, behaviours, 0);
    assert !outcome.raised;
    DeliverFromKeepsValid(st.registry, Snapshot(st.registry, event), event, ignoreErrors, behaviours, 0);
    PostLeaves(st.registry, event, ignoreErrors, behaviours, k.onClass, HANDS_OFF);
    PostLeaves(st.registry, event, ignoreErrors, behaviours, k.onCaseBegin, HANDS_OFF);
    PostLeaves(st.registry, event, ignoreErrors, behaviours, k.onCaseEnd, HANDS_OFF);
    var updated := k.Update(st.stack, Delivered(c, event));
    assert updated == EventUpdate(st.stack, event);
    forall i {:trigger outcome.log[..i]} | 0 <= i < |outcome.log|
      ensures k.After(st.stack, outcome.log[..i]) == st.stack || k.After(st.stack, outcome.log[..i]) == updated
    {
      assert SeenInPost(k, st.stack, updated, event, c, outcome.log, i);
    }
  }

  lemma CallsStep(k: Keepers, st: State, actions: seq<Action>)
    requires Good(k, st) && Proper(k, Calls(actions))
    ensures var after := Next(k, st, Calls(actions));
            && Good(k, after) && after.stack == st.stack
            && SeesOnly(k, st.stack, st.stack, LogOf(st, Calls(actions)))
  {
    ActRunKeepsValid(st.registry, actions);
    ActRunLeaves(st.registry, actions, k.onClass, HANDS_OFF);
    ActRunLeaves(st.registry, actions, k.onCaseBegin, HANDS_OFF);
    ActRunLeaves(st.registry, actions, k.onCaseEnd, HANDS_OFF);
    ActRunIsNeutral(k, st.registry, actions);
    var log := ActRun(st.registry, actions).log;
    AfterNeutral(k, st.stack, log);
    forall i {:trigger log[..i]} | 0 <= i < |log|
      ensures k.After(st.stack, log[..i]) == st.stack
    {
      AfterNeutral(k, st.stack, log[..i]);
    }
  }

  lemma AnyStep(k: Keepers, st: State, step: Step)
    requires Good(k, st) && Proper(k, step)
    ensures Good(k, Next(k, st, step)) && Next(k, st, step).stack == StackAfter(st.stack, step)
    ensures SeesOnly(k, st.stack, StackAfter(st.stack, step), LogOf(st, step))
  {
    match step
    case TestPost(event, ignoreErrors, behaviours) => PostStep(k, st, event, ignoreErrors, behaviours);
    case Calls(actions) => CallsStep(k, st, actions);
  }

  // ---------- whole runs ----------

  /** root, root and class, or root, class and a case of that class. */
  predicate Shaped(stack: Stack) {
    && 1 <= |stack| <= 3 && stack[0] == RootContext
    && (|stack| >= 2 ==> stack[1].ClassContext?)
    && (|stack| == 3 ==> stack[2].CaseContext? && stack[2].testClass == stack[1].testClass)
  }

  predicate OnTop(stack: Stack, context: Context) {
    stack != [] && stack[|stack| - 1] == context
  }

  predicate Begins(event: EventObject, t: EventType, end: EventType) {
    event.IsInstance(t) && !event.IsInstance(end)
  }

  /** Classes begin at the root and cases in their class; what ends is what is on top. */
  predicate Fits(stack: Stack, event: EventObject) {
    if event.IsInstance(TestClassEvent) then
      || (Begins(event, TestClassBeginEvent, TestClassEndEvent) && OnTop(stack, RootContext))
      || (Begins(event, TestClassEndEvent, TestClassBeginEvent) && OnTop(stack, ClassContext(event.testClass)))
    else
      || (Begins(event, TestCaseBeginEvent, TestCaseEndEvent) && OnTop(stack, ClassContext(event.testClass)))
      || (Begins(event, TestCaseEndEvent, TestCaseBeginEvent)
          && OnTop(stack, CaseContext(event.testClass, event.testCase)))
  }

  predicate WellBracketed(stack: Stack, steps: seq<Step>)
    decreases steps
  {
    steps == [] ||
    ((steps[0].TestPost? ==> Fits(stack, steps[0].event)) && WellBracketed(StackAfter(stack, steps[0]), steps[1..]))
  }

  /** Every stack that any handler finds during the step has one of the three shapes. */
  ghost predicate AllShaped(k: Keepers, stack: Stack, log: seq<Delivered>) {
    forall i {:trigger log[..i]} :: 0 <= i < |log| ==> Shaped(k.After(stack, log[..i]))
  }

  /** Whether a handler of the event runs when the class or case that the event names must be on top. */
  predicate MustSee(event: EventObject, order: int) {
    if event.IsInstance(TestClassEvent) then
      if event.IsInstance(TestClassBeginEvent) then order > 0 else order < 0
    else
      if event.IsInstance(TestCaseBeginEvent) then order > -100 else order < 100
  }

  function Named(event: EventObject): Context {
    if event.IsInstance(TestClassEvent) then ClassContext(event.testClass)
    else CaseContext(event.testClass, event.testCase)
  }

  /** The handlers of the step's own event find on top the class or case that it names. */
  ghost predicate AllSeeTheirs(k: Keepers, stack: Stack, event: EventObject, log: seq<Delivered>) {
    forall i {:trigger log[i]} :: 0 <= i < |log| && log[i].event == event && MustSee(event, log[i].sub.order) ==>
                                    OnTop(k.After(stack, log[..i]), Named(event))
  }

  /** What holds at every delivery of a run, nested ones included. */
  ghost predicate AlwaysInContext(k: Keepers, st: State, steps: seq<Step>)
    decreases steps
  {
    && Shaped(st.stack)
    && (steps == [] ||
        (&& AllShaped(k, st.stack, LogOf(st, steps[0]))
         && (steps[0].TestPost? ==> AllSeeTheirs(k, st.stack, steps[0].event, LogOf(st, steps[0])))
         && AlwaysInContext(k, Next(k, st, steps[0]), steps[1..])))
  }

  /** What importing context.py leaves on an empty bus. */
  function Imported(k: Keepers): State {
    State(EMPTY.Register(k.onClass).Register(k.onCaseBegin).Register(k.onCaseEnd), INITIAL)
  }

  lemma ImportedIsGood(k: Keepers)
    requires k.Valid()
    ensures Good(k, Imported(k)) && Imported(k).stack == [RootContext]
  {
    var one := EMPTY.Register(k.onClass);
    var two := one.Register(k.onCaseBegin);
    RegisterKeepsValid(EMPTY, k.onClass);
    RegisterKeepsValid(one, k.onCaseBegin);
    RegisterKeepsValid(two, k.onCaseEnd);
    forall s | k.Keeps(s)
      ensures Count(two.Register(k.onCaseEnd).live, s) == 1
    {
      CountSnoc(EMPTY.live, Registration(k.onClass, EMPTY.clock), s);
      CountSnoc(one.live, Registration(k.onCaseBegin, one.clock), s);
      CountSnoc(two.live, Registration(k.onCaseEnd, two.clock), s);
    }
  }

  lemma OwnHandlersSeeTheirs(k: Keepers, st: State, step: Step)
    requires Good(k, st) && step.TestPost? && Proper(k, step) && Fits(st.stack, step.event)
    ensures AllSeeTheirs(k, st.stack, step.event, LogOf(st, step))
  {
    var TestPost(event, ignoreErrors, behaviours) := step;
    var log := LogOf(st, step);
    forall i {:trigger log[i]} | 0 <= i < |log| && log[i].event == event && MustSee(event, log[i].sub.order)
      ensures OnTop(k.After(st.stack, log[..i]), Named(event))
    {
      if IsKeeperFor(k, event, k.onClass) {
        ClassHandlersSeeClass(k, st.registry, event, ignoreErrors, behaviours, st.stack, i);
      } else if IsKeeperFor(k, event, k.onCaseBegin) {
        CaseBeginHandlersSeeCase(k, st.registry, event, ignoreErrors, behaviours, st.stack, i);
      } else {
        CaseEndHandlersSeeStackBefore(k, st.registry, event, ignoreErrors, behaviours, st.stack, i);
      }
    }
  }

  lemma FittingKeepsShape(stack: Stack, event: EventObject)
    requires Shaped(stack) && Fits(stack, event)
    ensures Shaped(EventUpdate(stack, event))
  {
    if event.IsInstance(TestClassEndEvent) || event.IsInstance(TestCaseEndEvent) {
      assert Popped(stack) == stack[..|stack| - 1];
    }
  }

  lemma StepStaysInContext(k: Keepers, st: State, step: Step)
    requires Good(k, st) && Shaped(st.stack) && Proper(k, step) && (step.TestPost? ==> Fits(st.stack, step.event))
    ensures Good(k, Next(k, st, step)) && Next(k, st, step).stack == StackAfter(st.stack, step)
    ensures Shaped(Next(k, st, step).stack) && AllShaped(k, st.stack, LogOf(st, step))
    ensures step.TestPost? ==> AllSeeTheirs(k, st.stack, step.event, LogOf(st, step))
  {
    AnyStep(k, st, step);
    if step.TestPost? {
      FittingKeepsShape(st.stack, step.event);
      OwnHandlersSeeTheirs(k, st, step);
    }
  }

  /**
    Over every well-bracketed run the stack is root, root and class, or root, class and case, at
    every delivery. Whoever handles the begin of a case above order -100 or its end below order 100
    finds that very case on top, and likewise for classes above and below order 0.
   */
  lemma {:induction false} WellBracketedRunsStayInContext(k: Keepers, st: State, steps: seq<Step>)
    requires Good(k, st) && Shaped(st.stack) && WellBracketed(st.stack, steps)
    requires forall i :: 0 <= i < |steps| ==> Proper(k, steps[i])
    ensures AlwaysInContext(k, st, steps)
    decreases steps
  {
    if steps == [] {
    } else {
      StepStaysInContext(k, st, steps[0]);
      WellBracketedRunsStayInContext(k, Next(k, st, steps[0]), steps[1..]);
    }
  }

  // ---------- runs that are not well bracketed ----------

  /** The root is at the bottom before and after every event. */
  predicate RootStays(stack: Stack, events: seq<EventObject>)
    decreases events
  {
    stack != [] && stack[0] == RootContext
    && (events == [] || RootStays(EventUpdate(stack, events[0]), events[1..]))
  }

  /** No event ends more than was begun before it. */
  predicate NeverBelowRoot(depth: int, events: seq<EventObject>)
    decreases events
  {
    depth >= 0 && (events == [] || NeverBelowRoot(depth + DepthChange(events[0]), events[1..]))
  }

  function DepthChange(event: EventObject): int {
    var (begin, end) := if event.IsInstance(TestClassEvent) then (TestClassBeginEvent, TestClassEndEvent)
                        else (TestCaseBeginEvent, TestCaseEndEvent);
    (if event.IsInstance(begin) then 1 else 0) - (if event.IsInstance(end) then 1 else 0)
  }

  /** For any sequence of events the root context is popped exactly when some prefix ends more than it begins. */
  lemma {:induction false} RootStaysIffNeverBelow(stack: Stack, events: seq<EventObject>)
    requires stack != [] && stack[0] == RootContext
    ensures RootStays(stack, events) <==> NeverBelowRoot(|stack| - 1, events)
    decreases events
  {
    if events == [] {
    } else {
      var next := EventUpdate(stack, events[0]);
      assert |next| - 1 == |stack| - 1 + DepthChange(events[0]);
      if next != [] {
        RootStaysIffNeverBelow(next, events[1..]);
      }
    }
  }
}
