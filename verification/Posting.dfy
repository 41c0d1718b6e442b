/**
  Runs of post over the registry, re-entrancy included.

  A behaviour tree says what each handler does when it is reached: which calls it makes on the
  bus, whether it raises, and, for a nested post, how the handlers reached by that post behave.
  Every finite run of arbitrary handlers is described by some tree, so a statement about all
  trees is a statement about all handlers.
 */
module Posting {
  import opened Wrappers
  import opened Events
  import opened BusRegistry
  import opened RegistryLaws

  datatype Action =
    | DoRegister(sub: Subscription)
    | DoUnregister(token: Token)
    | DoUnregisterAll(fromEvent: Option<EventType>)
    | DoPost(event: EventObject, ignoreErrors: bool, behaviours: seq<Behaviour>)

  /**
    What one delivery does. accepts is the answer of the filter, asked only of filtered
    subscriptions; a delivery that the filter rejects neither acts nor raises.
   */
  datatype Behaviour = Behaviour(accepts: bool, actions: seq<Action>, raises: bool)

  datatype Delivered = Delivered(sub: Subscription, event: EventObject)

  /**
    visited are the deliveries of the post itself; log also has the nested ones, in order of their
    start. A delivery whose event the filter then rejects is one of them.
   */
  datatype Outcome = Outcome(registry: Registry, visited: seq<Subscription>, raised: bool, log: seq<Delivered>)

  predicate Handles(s: Subscription, b: Behaviour) {
    !s.filtered || b.accepts
  }

  predicate RaisesAt(snapshot: seq<Subscription>, behaviours: seq<Behaviour>, k: nat) {
    k < |snapshot| && k < |behaviours| && Handles(snapshot[k], behaviours[k]) && behaviours[k].raises
  }

  function Snapshot(reg: Registry, event: EventObject): seq<Subscription> {
    Subs(Delivery(reg.live, event.mro))
  }

  function PostRun(reg: Registry, event: EventObject, ignoreErrors: bool, behaviours: seq<Behaviour>): Outcome
    decreases behaviours, 2, 0
  {
    DeliverFrom(reg, Snapshot(reg, event), event, ignoreErrors, behaviours, 0)
  }

  /** Deliveries to snapshot[k..]; behaviours beyond the end of the list are those of handlers that do nothing. */
  function DeliverFrom(reg: Registry, snapshot: seq<Subscription>, event: EventObject, ignoreErrors: bool,
                       behaviours: seq<Behaviour>, k: nat): Outcome
    decreases behaviours, 1, |snapshot| - k
  {
    if k >= |snapshot| then
      Outcome(reg, [], false, [])
    else
      var acted := ActedAt(reg, snapshot[k], behaviours, k);
      var log := [Delivered(snapshot[k], event)] + acted.log;
      if RaisesAt(snapshot, behaviours, k) && !ignoreErrors then
        Outcome(acted.registry, [snapshot[k]], true, log)
      else
        var rest := DeliverFrom(acted.registry, snapshot, event, ignoreErrors, behaviours, k + 1);
        Outcome(rest.registry, [snapshot[k]] + rest.visited, rest.raised, log + rest.log)
  }

  datatype Acted = Acted(registry: Registry, log: seq<Delivered>)

  /** The k-th delivery: the filter, then the handler's calls. */
  function ActedAt(reg: Registry, s: Subscription, behaviours: seq<Behaviour>, k: nat): Acted
    decreases behaviours, 0, 0
  {
    if k < |behaviours| && Handles(s, behaviours[k]) then ActRun(reg, behaviours[k].actions) else Acted(reg, [])
  }

  function Behind(visited: seq<Subscription>, log: seq<Delivered>, rest: Outcome): Outcome {
    Outcome(rest.registry, visited + rest.visited, rest.raised, log + rest.log)
  }

  lemma OneMoreDelivery(visited: seq<Subscription>, log: seq<Delivered>, reg: Registry, snapshot: seq<Subscription>,
                        event: EventObject, ignoreErrors: bool, behaviours: seq<Behaviour>, k: nat)
    requires k < |snapshot|
    ensures var acted := ActedAt(reg, snapshot[k], behaviours, k);
            var visited', log' := visited + [snapshot[k]], log + [Delivered(snapshot[k], event)] + acted.log;
            Behind(visited, log, DeliverFrom(reg, snapshot, event, ignoreErrors, behaviours, k)) ==
            if RaisesAt(snapshot, behaviours, k) && !ignoreErrors
            then Outcome(acted.registry, visited', true, log')
            else Behind(visited', log', DeliverFrom(acted.registry, snapshot, event, ignoreErrors, behaviours, k + 1))
  {
  }

  function ActRun(reg: Registry, actions: seq<Action>): Acted
    decreases actions, 0, 0
  {
    if actions == [] then
      Acted(reg, [])
    else
      var first := ActOnce(reg, actions[0]);
      var rest := ActRun(first.registry, actions[1..]);
      Acted(rest.registry, first.log + rest.log)
  }

  function ActOnce(reg: Registry, action: Action): Acted
    decreases action, 3, 0
  {
    match action
    case DoRegister(s) => Acted(reg.Register(s), [])
    case DoUnregister(token) => Acted(reg.UnregisterToken(token).0, [])
    case DoUnregisterAll(fromEvent) => Acted(reg.UnregisterAll(fromEvent), [])
    case DoPost(event, ignoreErrors, behaviours) =>
      var posted := PostRun(reg, event, ignoreErrors, behaviours);
      Acted(posted.registry, posted.log)
  }

  // ---------- delivery works on the snapshot ----------

  /** How many deliveries are made: all, or up to and including the first that raises. */
  function Reach(snapshot: seq<Subscription>, ignoreErrors: bool, behaviours: seq<Behaviour>, k: nat): nat
    requires k <= |snapshot|
    ensures k <= Reach(snapshot, ignoreErrors, behaviours, k) <= |snapshot|
    decreases |snapshot| - k
  {
    if k == |snapshot| then k
    else if RaisesAt(snapshot, behaviours, k) && !ignoreErrors then k + 1
    else Reach(snapshot, ignoreErrors, behaviours, k + 1)
  }

  lemma {:induction false} DeliverFromVisits(reg: Registry, snapshot: seq<Subscription>, event: EventObject,
                                             ignoreErrors: bool, behaviours: seq<Behaviour>, k: nat)
    requires k <= |snapshot|
    ensures var outcome := DeliverFrom(reg, snapshot, event, ignoreErrors, behaviours, k);
            && outcome.visited == snapshot[k..Reach(snapshot, ignoreErrors, behaviours, k)]
            && (outcome.raised <==>
                (!ignoreErrors && exists i :: k <= i < |snapshot| && RaisesAt(snapshot, behaviours, i)))
    decreases |snapshot| - k
  {
    if k >= |snapshot| || (RaisesAt(snapshot, behaviours, k) && !ignoreErrors) {
    } else {
      var acted := ActedAt(reg, snapshot[k], behaviours, k);
      DeliverFromVisits(acted.registry, snapshot, event, ignoreErrors, behaviours, k + 1);
    }
  }

  /**
    Whatever the handlers do, a post visits the subscriptions of the snapshot taken when it
    began, in the promised order: all of them when errors are ignored or nothing raises, else
    those up to the first that raises, and then it raises.
   */
  lemma PostVisitsSnapshot(reg: Registry, event: EventObject, ignoreErrors: bool, behaviours: seq<Behaviour>)
    requires reg.Valid() && Distinct(event.mro)
    ensures var delivery, outcome := Delivery(reg.live, event.mro), PostRun(reg, event, ignoreErrors, behaviours);
            var n := |outcome.visited|;
            && IsPromisedDelivery(reg.live, event.mro, delivery)
            && n <= |Subs(delivery)| == |delivery| && outcome.visited == Subs(delivery)[..n]
            && (ignoreErrors ==> n == |delivery| && !outcome.raised)
            && (!outcome.raised ==> n == |delivery|)
            && (outcome.raised ==> n > 0 && RaisesAt(Subs(delivery), behaviours, n - 1))
            && (!ignoreErrors ==> forall k :: 0 <= k < n && RaisesAt(Subs(delivery), behaviours, k) ==>
                                      k == n - 1 && outcome.raised)
  {
    DeliveryIsPromised(reg.live, event.mro);
    SubsAt(Delivery(reg.live, event.mro));
    VisitsUpToFirstRaise(reg, Snapshot(reg, event), event, ignoreErrors, behaviours);
  }

  lemma VisitsUpToFirstRaise(reg: Registry, snapshot: seq<Subscription>, event: EventObject, ignoreErrors: bool,
                             behaviours: seq<Behaviour>)
    ensures var outcome := DeliverFrom(reg, snapshot, event, ignoreErrors, behaviours, 0);
            var n := |outcome.visited|;
            && n <= |snapshot| && outcome.visited == snapshot[..n]
            && (ignoreErrors ==> n == |snapshot| && !outcome.raised)
            && (!outcome.raised ==> n == |snapshot|)
            && (outcome.raised ==> n > 0 && RaisesAt(snapshot, behaviours, n - 1))
            && (!ignoreErrors ==> forall k :: 0 <= k < n && RaisesAt(snapshot, behaviours, k) ==>
                                      k == n - 1 && outcome.raised)
  {
    DeliverFromVisits(reg, snapshot, event, ignoreErrors, behaviours, 0);
    ReachStopsAtFirstRaise(snapshot, ignoreErrors, behaviours, 0);
  }

  lemma {:induction false} ReachStopsAtFirstRaise(snapshot: seq<Subscription>, ignoreErrors: bool,
                                                  behaviours: seq<Behaviour>, k: nat)
    requires k <= |snapshot|
    ensures var n := Reach(snapshot, ignoreErrors, behaviours, k);
            && (ignoreErrors ==> n == |snapshot|)
            && (!ignoreErrors ==> forall i :: k <= i < n - 1 ==> !RaisesAt(snapshot, behaviours, i))
            && (n < |snapshot| ==> n > k && RaisesAt(snapshot, behaviours, n - 1))
    decreases |snapshot| - k
  {
    if k >= |snapshot| || (RaisesAt(snapshot, behaviours, k) && !ignoreErrors) {
    } else {
      ReachStopsAtFirstRaise(snapshot, ignoreErrors, behaviours, k + 1);
    }
  }

  // ---------- what every run keeps ----------

  lemma {:induction false} ActOnceKeepsValid(reg: Registry, action: Action)
    requires reg.Valid()
    ensures ActOnce(reg, action).registry.Valid()
    decreases action, 3, 0
  {
    match action
    case DoRegister(s) => RegisterKeepsValid(reg, s);
    case DoUnregister(token) => UnregisterTokenKeepsValid(reg, token);
    case DoUnregisterAll(fromEvent) =>
      RemovalKeepsValid(reg, set s | s in reg.known && Concerns(fromEvent, s));
    case DoPost(event, ignoreErrors, behaviours) =>
      DeliverFromKeepsValid(reg, Snapshot(reg, event), event, ignoreErrors, behaviours, 0);
  }

  lemma UnregisterTokenKeepsValid(reg: Registry, token: Token)
    requires reg.Valid()
    ensures reg.UnregisterToken(token).0.Valid()
  {
    match token
    case ByObject(s) => RemovalKeepsValid(reg, {s});
    case ById(IdOf(s)) => RemovalKeepsValid(reg, {s});
    case _ =>
  }

  lemma {:induction false} ActRunKeepsValid(reg: Registry, actions: seq<Action>)
    requires reg.Valid()
    ensures ActRun(reg, actions).registry.Valid()
    decreases actions, 0, 0
  {
    if actions == [] {
    } else {
      ActOnceKeepsValid(reg, actions[0]);
      ActRunKeepsValid(ActOnce(reg, actions[0]).registry, actions[1..]);
    }
  }

  lemma {:induction false} DeliverFromKeepsValid(reg: Registry, snapshot: seq<Subscription>, event: EventObject,
                                                 ignoreErrors: bool, behaviours: seq<Behaviour>, k: nat)
    requires reg.Valid()
    ensures DeliverFrom(reg, snapshot, event, ignoreErrors, behaviours, k).registry.Valid()
    decreases behaviours, 1, |snapshot| - k
  {
    if k >= |snapshot| {
    } else {
      var next := reg;
      if k < |behaviours| && Handles(snapshot[k], behaviours[k]) {
        ActRunKeepsValid(reg, behaviours[k].actions);
        next := ActRun(reg, behaviours[k].actions).registry;
      }
      DeliverFromKeepsValid(next, snapshot, event, ignoreErrors, behaviours, k + 1);
    }
  }
}
