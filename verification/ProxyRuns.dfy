/**
  A logger proxy over whole test runs: from the posts of the test runner, through the order of
  delivery on the bus, to the loggers that are started and ended. A round is a test case for the
  per-case proxy and a test class for the per-class proxy.
 */
module ProxyRuns {
  import opened Wrappers
  import opened Events
  import opened BusRegistry
  import opened RegistryLaws
  import opened Posting
  import opened PostingLaws
  import opened ContextRuns
  import opened LoggerLifecycle
  import opened ProxiesOnBus

  /** The two subscriptions of the proxy that drive its logger, and how its logger class behaves. */
  datatype Proxy = Proxy(onBegin: Subscription, onEnd: Subscription,
                         setup: EventObject -> SetupOutcome, endRaises: EventObject -> bool) {
    predicate Valid() {
      onBegin.eventType != onEnd.eventType && !onBegin.filtered && !onEnd.filtered
    }

    /** What a delivery means to the proxy. */
    function Hear(d: Delivered): seq<ProxyEvent> {
      if d.sub == onBegin then [Begin(setup(d.event))]
      else if d.sub == onEnd then [End(endRaises(d.event))]
      else []
    }

    function HearAll(log: seq<Delivered>): seq<ProxyEvent> {
      if log == [] then [] else Hear(log[0]) + HearAll(log[1..])
    }

    /** Neither the begin nor the end of a round. */
    predicate Quiet(event: EventObject) {
      !event.IsInstance(onBegin.eventType) && !event.IsInstance(onEnd.eventType)
    }
  }

  /** Handlers post only quiet events. */
  predicate QuietAction(p: Proxy, action: Action)
    decreases action, 1
  {
    action.DoPost? ==> p.Quiet(action.event) && QuietBehaviours(p, action.behaviours)
  }

  predicate QuietActions(p: Proxy, actions: seq<Action>)
    decreases actions, 0
  {
    forall i :: 0 <= i < |actions| ==> QuietAction(p, actions[i])
  }

  predicate QuietBehaviours(p: Proxy, behaviours: seq<Behaviour>)
    decreases behaviours, 0
  {
    forall i :: 0 <= i < |behaviours| ==> QuietActions(p, behaviours[i].actions)
  }

  lemma {:induction false} HearAllConcat(p: Proxy, a: seq<Delivered>, b: seq<Delivered>)
    ensures p.HearAll(a + b) == p.HearAll(a) + p.HearAll(b)
  {
    if a == [] {
      assert a + b == b;
    } else {
      assert (a + b)[1..] == a[1..] + b;
      HearAllConcat(p, a[1..], b);
    }
  }

  // ---------- nested posts say nothing to the proxy ----------

  predicate Unheard(p: Proxy, log: seq<Delivered>) {
    forall i :: 0 <= i < |log| ==> log[i].sub != p.onBegin && log[i].sub != p.onEnd
  }

  lemma {:induction false} UnheardIsSilent(p: Proxy, log: seq<Delivered>)
    requires Unheard(p, log)
    ensures p.HearAll(log) == []
  {
    if log == [] {
    } else {
      UnheardIsSilent(p, log[1..]);
    }
  }

  lemma {:induction false} ActOnceIsUnheard(p: Proxy, reg: Registry, action: Action)
    requires QuietAction(p, action)
    ensures Unheard(p, ActOnce(reg, action).log)
    decreases action, 3, 0
  {
    match action
    case DoPost(event, ignoreErrors, behaviours) =>
      forall i | 0 <= i < |Snapshot(reg, event)|
        ensures Snapshot(reg, event)[i] != p.onBegin && Snapshot(reg, event)[i] != p.onEnd
      {
        NotDeliveredUnlessLive(reg, event.mro, Snapshot(reg, event)[i]);
      }
      DeliverFromIsUnheard(p, reg, Snapshot(reg, event), event, ignoreErrors, behaviours, 0);
    case _ =>
  }

  lemma {:induction false} ActRunIsUnheard(p: Proxy, reg: Registry, actions: seq<Action>)
    requires QuietActions(p, actions)
    ensures Unheard(p, ActRun(reg, actions).log)
    decreases actions, 0, 0
  {
    if actions == [] {
    } else {
      ActOnceIsUnheard(p, reg, actions[0]);
      ActRunIsUnheard(p, ActOnce(reg, actions[0]).registry, actions[1..]);
    }
  }

  lemma {:induction false} DeliverFromIsUnheard(p: Proxy, reg: Registry,
                                                snapshot: seq<Subscription>, event: EventObject,
                                                ignoreErrors: bool, behaviours: seq<Behaviour>, from: nat)
    requires QuietBehaviours(p, behaviours)
    requires forall i :: 0 <= i < |snapshot| ==> snapshot[i] != p.onBegin && snapshot[i] != p.onEnd
    ensures Unheard(p, DeliverFrom(reg, snapshot, event, ignoreErrors, behaviours, from).log)
    decreases behaviours, 1, |snapshot| - from
  {
    if from >= |snapshot| {
    } else {
      var acted := ActedAt(reg, snapshot[from], behaviours, from);
      if from < |behaviours| && Handles(snapshot[from], behaviours[from]) {
        ActRunIsUnheard(p, reg, behaviours[from].actions);
      }
      DeliverFromIsUnheard(p, acted.registry, snapshot, event, ignoreErrors, behaviours, from + 1);
    }
  }

  // ---------- one post ----------

  /** The proxy hears of a post once, when its place in the snapshot is reached. */
  lemma {:induction false} DeliveriesHeard(p: Proxy, reg: Registry, snapshot: seq<Subscription>, event: EventObject,
                                           ignoreErrors: bool, behaviours: seq<Behaviour>, from: nat, at: nat)
    requires QuietBehaviours(p, behaviours) && from <= |snapshot| && at < |snapshot|
    requires forall j :: 0 <= j < |snapshot| && j != at ==> snapshot[j] != p.onBegin && snapshot[j] != p.onEnd
    ensures var outcome := DeliverFrom(reg, snapshot, event, ignoreErrors, behaviours, from);
            p.HearAll(outcome.log) ==
            if from <= at < from + |outcome.visited| then p.Hear(Delivered(snapshot[at], event)) else []
    decreases |snapshot| - from
  {
    if from >= |snapshot| {
    } else {
      var acted, d := ActedAt(reg, snapshot[from], behaviours, from), Delivered(snapshot[from], event);
      if from < |behaviours| && Handles(snapshot[from], behaviours[from]) {
        ActRunIsUnheard(p, reg, behaviours[from].actions);
      }
      FirstHeard(p, d, acted.log);
      if !(RaisesAt(snapshot, behaviours, from) && !ignoreErrors) {
        DeliveriesHeard(p, acted.registry, snapshot, event, ignoreErrors, behaviours, from + 1, at);
        HearAllConcat(p, [d] + acted.log,
            DeliverFrom(acted.registry, snapshot, event, ignoreErrors, behaviours, from + 1).log);
      }
    }
  }

  lemma FirstHeard(p: Proxy, d: Delivered, nested: seq<Delivered>)
    requires Unheard(p, nested)
    ensures p.HearAll([d] + nested) == p.Hear(d)
  {
    assert ([d] + nested)[1..] == nested;
    UnheardIsSilent(p, nested);
  }

  // ---------- whole runs ----------

  /** The test runner posts the begin or the end of a round, or anybody else uses the bus. */
  datatype Step =
    | BeginPost(event: EventObject, ignoreErrors: bool, behaviours: seq<Behaviour>)
    | EndPost(event: EventObject, ignoreErrors: bool, behaviours: seq<Behaviour>)
    | Calls(actions: seq<Action>)

  predicate IsOnly(event: EventObject, t: EventType, other: EventType) {
    Distinct(event.mro) && event.IsInstance(t) && !event.IsInstance(other)
  }

  /** Handlers begin and end no rounds; none raises unless errors are ignored. */
  ghost predicate Proper(p: Proxy, step: Step) {
    match step
    case BeginPost(event, ignoreErrors, behaviours) =>
      IsOnly(event, p.onBegin.eventType, p.onEnd.eventType) && ProperBehaviours(p, ignoreErrors, behaviours)
    case EndPost(event, ignoreErrors, behaviours) =>
      IsOnly(event, p.onEnd.eventType, p.onBegin.eventType) && ProperBehaviours(p, ignoreErrors, behaviours)
    case Calls(actions) => QuietActions(p, actions)
  }

  ghost predicate ProperBehaviours(p: Proxy, ignoreErrors: bool, behaviours: seq<Behaviour>) {
    && QuietBehaviours(p, behaviours)
    && (ignoreErrors || forall i :: 0 <= i < |behaviours| ==> !behaviours[i].raises)
  }

  /** The step leaves the proxy on the bus. */
  ghost predicate SparesProxy(p: Proxy, step: Step) {
    match step
    case Calls(actions) =>
      ActionsRespect(actions, p.onBegin, HANDS_OFF) && ActionsRespect(actions, p.onEnd, HANDS_OFF)
    case _ =>
      AllRespect(step.behaviours, p.onBegin, HANDS_OFF) && AllRespect(step.behaviours, p.onEnd, HANDS_OFF)
  }

  ghost predicate OnBus(p: Proxy, reg: Registry) {
    reg.Valid() && Count(reg.live, p.onBegin) == 1 && Count(reg.live, p.onEnd) == 1
  }

  function Next(reg: Registry, step: Step): Acted {
    match step
    case Calls(actions) => ActRun(reg, actions)
    case _ =>
      var outcome := PostRun(reg, step.event, step.ignoreErrors, step.behaviours);
      Acted(outcome.registry, outcome.log)
  }

  /** What the step itself means to the proxy. */
  function Meaning(p: Proxy, step: Step): seq<ProxyEvent> {
    match step
    case BeginPost(event, _, _) => [Begin(p.setup(event))]
    case EndPost(event, _, _) => [End(p.endRaises(event))]
    case Calls(_) => []
  }

  /** The place of s among those who hear the event, and the proxy's other subscription is not there. */
  lemma PlaceOf(p: Proxy, reg: Registry, event: EventObject, s: Subscription, other: Subscription) returns (at: nat)
    requires p.Valid() && OnBus(p, reg) && Distinct(event.mro)
    requires (s, other) in {(p.onBegin, p.onEnd), (p.onEnd, p.onBegin)}
    requires s.eventType in event.mro && other.eventType !in event.mro
    ensures at < |Snapshot(reg, event)| && Snapshot(reg, event)[at] == s
    ensures forall j :: 0 <= j < |Snapshot(reg, event)| && j != at ==>
                          Snapshot(reg, event)[j] != p.onBegin && Snapshot(reg, event)[j] != p.onEnd
  {
    var snapshot := Snapshot(reg, event);
    CountSubs(reg.live, s);
    NotDeliveredUnlessLive(reg, event.mro, s);
    NotDeliveredUnlessLive(reg, event.mro, other);
    at :| 0 <= at < |snapshot| && snapshot[at] == s;
    forall j | 0 <= j < |snapshot| && j != at
      ensures snapshot[j] != p.onBegin && snapshot[j] != p.onEnd
    {
      PlacesAround(reg, event, s, at, j);
    }
  }

  lemma PostIsHeardOnce(p: Proxy, reg: Registry, event: EventObject, ignoreErrors: bool, behaviours: seq<Behaviour>,
                        s: Subscription, other: Subscription)
    requires p.Valid() && OnBus(p, reg) && ProperBehaviours(p, ignoreErrors, behaviours) && Distinct(event.mro)
    requires (s, other) in {(p.onBegin, p.onEnd), (p.onEnd, p.onBegin)}
    requires s.eventType in event.mro && other.eventType !in event.mro
    ensures p.HearAll(PostRun(reg, event, ignoreErrors, behaviours).log) == p.Hear(Delivered(s, event))
  {
    var snapshot := Snapshot(reg, event);
    var at := PlaceOf(p, reg, event, s, other);
    DeliveriesHeard(p, reg, snapshot, event, ignoreErrors, behaviours, 0, at);
    VisitsUpToFirstRaise(reg, snapshot, event, ignoreErrors, behaviours);
  }

  lemma StaysOnBus(p: Proxy, reg: Registry, step: Step)
    requires OnBus(p, reg) && SparesProxy(p, step)
    ensures OnBus(p, Next(reg, step).registry)
  {
    match step
    case Calls(actions) =>
      ActRunKeepsValid(reg, actions);
      ActRunLeaves(reg, actions, p.onBegin, HANDS_OFF);
      ActRunLeaves(reg, actions, p.onEnd, HANDS_OFF);
    case _ =>
      DeliverFromKeepsValid(reg, Snapshot(reg, step.event), step.event, step.ignoreErrors, step.behaviours, 0);
      PostLeaves(reg, step.event, step.ignoreErrors, step.behaviours, p.onBegin, HANDS_OFF);
      PostLeaves(reg, step.event, step.ignoreErrors, step.behaviours, p.onEnd, HANDS_OFF);
  }

  /** Each step reaches the proxy as what it means, however many other handlers do whatever they do. */
  lemma StepIsHeard(p: Proxy, reg: Registry, step: Step)
    requires p.Valid() && OnBus(p, reg) && Proper(p, step)
    ensures p.HearAll(Next(reg, step).log) == Meaning(p, step)
  {
    match step
    case BeginPost(event, ignoreErrors, behaviours) =>
      PostIsHeardOnce(p, reg, event, ignoreErrors, behaviours, p.onBegin, p.onEnd);
    case EndPost(event, ignoreErrors, behaviours) =>
      PostIsHeardOnce(p, reg, event, ignoreErrors, behaviours, p.onEnd, p.onBegin);
    case Calls(actions) =>
      ActRunIsUnheard(p, reg, actions);
      UnheardIsSilent(p, ActRun(reg, actions).log);
  }

  /** Everything the proxy hears during a run. */
  function HeardInRun(p: Proxy, reg: Registry, steps: seq<Step>): seq<ProxyEvent>
    decreases steps
  {
    if steps == [] then []
    else p.HearAll(Next(reg, steps[0]).log) + HeardInRun(p, Next(reg, steps[0]).registry, steps[1..])
  }

  function RegistryAfter(reg: Registry, steps: seq<Step>): Registry
    decreases steps
  {
    if steps == [] then reg else RegistryAfter(Next(reg, steps[0]).registry, steps[1..])
  }

  /** Begins and ends take turns, and the run stops between rounds. */
  predicate TakeTurns(steps: seq<Step>, inRound: bool) {
    if steps == [] then !inRound
    else
      match steps[0]
      case BeginPost(_, _, _) => !inRound && TakeTurns(steps[1..], true)
      case EndPost(_, _, _) => inRound && TakeTurns(steps[1..], false)
      case Calls(_) => TakeTurns(steps[1..], inRound)
  }

  /** Until the last step nobody takes the proxy off the bus. */
  ghost predicate ProperRun(p: Proxy, steps: seq<Step>) {
    && (forall i :: 0 <= i < |steps| ==> Proper(p, steps[i]))
    && (forall i :: 0 <= i < |steps| - 1 ==> SparesProxy(p, steps[i]))
  }

  /** The rounds for which the logger class could be instantiated. */
  function RoundsWithLogger(p: Proxy, steps: seq<Step>): nat {
    if steps == [] then 0
    else
      var here := if steps[0].BeginPost? && p.setup(steps[0].event) != ConstructorRaises then 1 else 0;
      here + RoundsWithLogger(p, steps[1..])
  }

  lemma {:induction false} TurnsAlternate(p: Proxy, reg: Registry, steps: seq<Step>, inRound: bool, open: bool)
    requires p.Valid() && (steps != [] ==> OnBus(p, reg)) && TakeTurns(steps, inRound) && (open ==> inRound)
    requires ProperRun(p, steps)
    ensures Alternates(HeardInRun(p, reg, steps), open)
    ensures Makings(HeardInRun(p, reg, steps)) == RoundsWithLogger(p, steps)
    decreases steps
  {
    if steps == [] {
    } else {
      StepIsHeard(p, reg, steps[0]);
      var next, rest := Next(reg, steps[0]).registry, steps[1..];
      if rest != [] {
        StaysOnBus(p, reg, steps[0]);
      }
      RunGoesOn(p, reg, steps);
      var heard, meaning := HeardInRun(p, next, rest), Meaning(p, steps[0]);
      if steps[0].Calls? {
        assert meaning + heard == heard;
        TurnsAlternate(p, next, rest, inRound, open);
      } else {
        assert (meaning + heard)[1..] == heard && (meaning + heard)[0] == meaning[0];
        TurnsAlternate(p, next, rest, !inRound,
                       steps[0].BeginPost? && (open || p.setup(steps[0].event) != ConstructorRaises));
      }
    }
  }

  lemma RunGoesOn(p: Proxy, reg: Registry, steps: seq<Step>)
    requires steps != [] && ProperRun(p, steps) && p.HearAll(Next(reg, steps[0]).log) == Meaning(p, steps[0])
    ensures ProperRun(p, steps[1..])
    ensures HeardInRun(p, reg, steps) == Meaning(p, steps[0]) + HeardInRun(p, Next(reg, steps[0]).registry, steps[1..])
  {
  }

  /**
    Over every run, a proxy that is on the bus once gives each round its own logger: every logger
    that was started was ended, exactly once and in order, and none is left between rounds.
   */
  lemma EachRoundHasItsLogger(p: Proxy, reg: Registry, steps: seq<Step>)
    requires p.Valid() && OnBus(p, reg) && TakeTurns(steps, false) && ProperRun(p, steps)
    ensures var life := After(NO_LOGGER_YET, HeardInRun(p, reg, steps));
            && life.started == life.ended && life.logger == None && Sound(life)
            && |life.started| == RoundsWithLogger(p, steps)
  {
    TurnsAlternate(p, reg, steps, false, false);
    EachLoggerEndedOnce(HeardInRun(p, reg, steps));
    EveryMakingIsANewLogger(NO_LOGGER_YET, HeardInRun(p, reg, steps));
  }

  // ---------- the per-class proxy, which leaves with the end of its round ----------

  /** The proxy's handler of the event unregisters its two subscriptions, and nobody registers them again. */
  ghost predicate ProxyLeaves(p: Proxy, reg: Registry, last: Step)
    requires last.EndPost?
  {
    && AllRespect(last.behaviours, p.onBegin, Leave(false, true))
    && AllRespect(last.behaviours, p.onEnd, Leave(false, true))
    && forall at :: 0 <= at < |Snapshot(reg, last.event)| && Snapshot(reg, last.event)[at] == p.onEnd ==>
                      at < |last.behaviours|
                      && last.behaviours[at].actions == ClassEndActions([p.onBegin, p.onEnd])
  }

  lemma {:induction false} OnBusUntilLast(p: Proxy, reg: Registry, steps: seq<Step>, last: Step)
    requires OnBus(p, reg) && ProperRun(p, steps + [last])
    ensures OnBus(p, RegistryAfter(reg, steps))
    ensures RegistryAfter(reg, steps + [last]) == Next(RegistryAfter(reg, steps), last).registry
    decreases steps
  {
    if steps == [] {
      assert [last][1..] == [];
    } else {
      var all := steps + [last];
      assert all[0] == steps[0] && all[1..] == steps[1..] + [last];
      assert ProperRun(p, all[1..]);
      StaysOnBus(p, reg, steps[0]);
      OnBusUntilLast(p, Next(reg, steps[0]).registry, steps[1..], last);
    }
  }

  /**
    A per-class proxy from its registration to the end of its class: one logger, started and
    ended once, or none if its class raises; and then neither subscription is on the bus, by list
    or by id, so that no event is delivered to it any more.
   */
  lemma PerClassProxyLivesOneRound(p: Proxy, reg: Registry, steps: seq<Step>, last: Step, laterMro: seq<EventType>)
    requires p.Valid() && OnBus(p, reg) && TakeTurns(steps + [last], false) && ProperRun(p, steps + [last])
    requires last.EndPost? && ProxyLeaves(p, RegistryAfter(reg, steps), last)
    requires forall i :: 0 <= i < |steps| ==> !steps[i].EndPost?
    ensures var life := After(NO_LOGGER_YET, HeardInRun(p, reg, steps + [last]));
            && life.started == life.ended && life.logger == None
            && |life.started| == RoundsWithLogger(p, steps + [last]) <= 1
    ensures var after := RegistryAfter(reg, steps + [last]);
            forall s :: s == p.onBegin || s == p.onEnd ==>
              !after.Has(s) && s !in after.known && s !in Subs(Delivery(after.live, laterMro))
  {
    EachRoundHasItsLogger(p, reg, steps + [last]);
    OneRound(p, steps, last, false);
    OnBusUntilLast(p, reg, steps, last);
    var before, event := RegistryAfter(reg, steps), last.event;
    assert Proper(p, (steps + [last])[|steps|]);
    var at := PlaceOf(p, before, event, p.onEnd, p.onBegin);
    VisitsUpToFirstRaise(before, Snapshot(before, event), event, last.ignoreErrors, last.behaviours);
    ProxyLeavesBus(before, event, last.ignoreErrors, last.behaviours, [p.onBegin, p.onEnd], at, p.onBegin, laterMro);
    ProxyLeavesBus(before, event, last.ignoreErrors, last.behaviours, [p.onBegin, p.onEnd], at, p.onEnd, laterMro);
  }

  lemma {:induction false} OneRound(p: Proxy, steps: seq<Step>, last: Step, inRound: bool)
    requires last.EndPost? && forall i :: 0 <= i < |steps| ==> !steps[i].EndPost?
    requires TakeTurns(steps + [last], inRound)
    ensures RoundsWithLogger(p, steps + [last]) <= if inRound then 0 else 1
  {
    var all := steps + [last];
    if steps == [] {
      assert all[1..] == [];
    } else {
      assert all[0] == steps[0] && all[1..] == steps[1..] + [last];
      OneRound(p, steps[1..], last, inRound || steps[0].BeginPost?);
    }
  }
}
