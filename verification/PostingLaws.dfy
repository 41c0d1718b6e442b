/** What runs of post keep, for every behaviour tree. */
module PostingLaws {
  import opened Events
  import opened BusRegistry
  import opened RegistryLaws
  import opened Posting

  // ---------- runs that leave a subscription alone ----------

  /** What a tree of calls may do to one subscription. */
  datatype Leave = Leave(register: bool, unregister: bool)

  const HANDS_OFF := Leave(false, false)

  predicate ActionRespects(action: Action, s: Subscription, leave: Leave)
    decreases action, 1
  {
    match action
    case DoRegister(x) => x == s ==> leave.register
    case DoUnregister(ByObject(x)) => x == s ==> leave.unregister
    case DoUnregister(ById(id)) => id == IdOf(s) ==> leave.unregister
    case DoUnregister(NotAnId) => true
    case DoUnregisterAll(fromEvent) => Concerns(fromEvent, s) ==> leave.unregister
    case DoPost(_, _, behaviours) => AllRespect(behaviours, s, leave)
  }

  predicate ActionsRespect(actions: seq<Action>, s: Subscription, leave: Leave)
    decreases actions, 0
  {
    forall i :: 0 <= i < |actions| ==> ActionRespects(actions[i], s, leave)
  }

  predicate AllRespect(behaviours: seq<Behaviour>, s: Subscription, leave: Leave)
    decreases behaviours, 0
  {
    forall i :: 0 <= i < |behaviours| ==> ActionsRespect(behaviours[i].actions, s, leave)
  }

  /** after differs from before, as far as s is concerned, only as leave permits. */
  ghost predicate Left(before: Registry, after: Registry, s: Subscription, leave: Leave) {
    && (!leave.register ==> Count(after.live, s) <= Count(before.live, s) && (s in after.known ==> s in before.known))
    && (!leave.unregister ==> Count(after.live, s) >= Count(before.live, s) && (s in before.known ==> s in after.known))
  }

  lemma {:induction false} CountSnoc(live: seq<Registration>, r: Registration, s: Subscription)
    ensures Count(live + [r], s) == Count(live, s) + if r.sub == s then 1 else 0
  {
    if live == [] {
      assert live + [r] == [r];
    } else {
      assert (live + [r])[1..] == live[1..] + [r];
      CountSnoc(live[1..], r, s);
    }
  }

  lemma {:induction false} ActOnceLeaves(reg: Registry, action: Action, s: Subscription, leave: Leave)
    requires ActionRespects(action, s, leave)
    ensures Left(reg, ActOnce(reg, action).registry, s, leave)
    decreases action, 3, 0
  {
    match action
    case DoRegister(x) => CountSnoc(reg.live, Registration(x, reg.clock), s);
    case DoUnregister(ByObject(x)) => CountWithoutFirst(reg.live, {x}, s);
    case DoUnregister(ById(IdOf(x))) => CountWithoutFirst(reg.live, {x}, s);
    case DoUnregister(ById(Stray(_))) =>
    case DoUnregister(NotAnId) =>
    case DoUnregisterAll(fromEvent) =>
      CountWithoutFirst(reg.live, (set x | x in reg.known && Concerns(fromEvent, x)), s);
    case DoPost(event, ignoreErrors, behaviours) =>
      DeliverFromLeaves(reg, Snapshot(reg, event), event, ignoreErrors, behaviours, 0, s, leave);
  }

  lemma {:induction false} ActRunLeaves(reg: Registry, actions: seq<Action>, s: Subscription, leave: Leave)
    requires ActionsRespect(actions, s, leave)
    ensures Left(reg, ActRun(reg, actions).registry, s, leave)
    decreases actions, 0, 0
  {
    if actions == [] {
    } else {
      ActOnceLeaves(reg, actions[0], s, leave);
      ActRunLeaves(ActOnce(reg, actions[0]).registry, actions[1..], s, leave);
    }
  }

  lemma {:induction false} DeliverFromLeaves(reg: Registry, snapshot: seq<Subscription>, event: EventObject,
                                             ignoreErrors: bool, behaviours: seq<Behaviour>, k: nat,
                                             s: Subscription, leave: Leave)
    requires AllRespect(behaviours, s, leave)
    ensures Left(reg, DeliverFrom(reg, snapshot, event, ignoreErrors, behaviours, k).registry, s, leave)
    decreases behaviours, 1, |snapshot| - k
  {
    if k >= |snapshot| {
    } else {
      var acted := ActedAt(reg, snapshot[k], behaviours, k);
      if k < |behaviours| && Handles(snapshot[k], behaviours[k]) {
        ActRunLeaves(reg, behaviours[k].actions, s, leave);
      }
      DeliverFromLeaves(acted.registry, snapshot, event, ignoreErrors, behaviours, k + 1, s, leave);
    }
  }

  lemma PostLeaves(reg: Registry, event: EventObject, ignoreErrors: bool, behaviours: seq<Behaviour>,
                   s: Subscription, leave: Leave)
    requires AllRespect(behaviours, s, leave)
    ensures Left(reg, PostRun(reg, event, ignoreErrors, behaviours).registry, s, leave)
  {
    DeliverFromLeaves(reg, Snapshot(reg, event), event, ignoreErrors, behaviours, 0, s, leave);
  }

  // ---------- runs that register nothing twice ----------

  /** No call of the run registers a subscription that is live at that moment. */
  ghost predicate ActionFresh(reg: Registry, action: Action)
    decreases action, 3, 0
  {
    match action
    case DoRegister(s) => !reg.Has(s)
    case DoPost(event, ignoreErrors, behaviours) =>
      DeliveriesFresh(reg, Snapshot(reg, event), event, ignoreErrors, behaviours, 0)
    case _ => true
  }

  ghost predicate ActionsFresh(reg: Registry, actions: seq<Action>)
    decreases actions, 0, 0
  {
    actions == [] || (ActionFresh(reg, actions[0]) && ActionsFresh(ActOnce(reg, actions[0]).registry, actions[1..]))
  }

  ghost predicate DeliveriesFresh(reg: Registry, snapshot: seq<Subscription>, event: EventObject, ignoreErrors: bool,
                                  behaviours: seq<Behaviour>, k: nat)
    decreases behaviours, 1, |snapshot| - k
  {
    k >= |snapshot| || (
      && (k < |behaviours| && Handles(snapshot[k], behaviours[k]) ==> ActionsFresh(reg, behaviours[k].actions))
      && ((RaisesAt(snapshot, behaviours, k) && !ignoreErrors)
          || DeliveriesFresh(ActedAt(reg, snapshot[k], behaviours, k).registry, snapshot, event, ignoreErrors,
              behaviours, k + 1)))
  }

  lemma RemovalKeepsAgreed(reg: Registry, gone: set<Subscription>)
    requires reg.Agreed()
    ensures Registry(WithoutFirst(reg.live, gone), reg.known - gone, reg.clock).Agreed()
  {
    var live := WithoutFirst(reg.live, gone);
    NoneTwiceMeansCount(reg.live);
    forall s
      ensures Count(live, s) <= 1
      ensures s in reg.known - gone <==> s in Subs(live)
    {
      CountWithoutFirst(reg.live, gone, s);
      CountSubs(reg.live, s);
      CountSubs(live, s);
    }
    NoneTwiceMeansCount(live);
  }

  lemma {:induction false} ActOnceKeepsAgreed(reg: Registry, action: Action)
    requires reg.Agreed() && ActionFresh(reg, action)
    ensures ActOnce(reg, action).registry.Agreed()
    decreases action, 3, 0
  {
    match action
    case DoRegister(s) => RegisterKeepsAgreed(reg, s);
    case DoUnregister(ByObject(s)) => RemovalKeepsAgreed(reg, {s});
    case DoUnregister(ById(IdOf(s))) => RemovalKeepsAgreed(reg, {s});
    case DoUnregister(ById(Stray(_))) =>
    case DoUnregister(NotAnId) =>
    case DoUnregisterAll(fromEvent) =>
      RemovalKeepsAgreed(reg, set s | s in reg.known && Concerns(fromEvent, s));
    case DoPost(event, ignoreErrors, behaviours) =>
      DeliverFromKeepsAgreed(reg, Snapshot(reg, event), event, ignoreErrors, behaviours, 0);
  }

  lemma {:induction false} ActRunKeepsAgreed(reg: Registry, actions: seq<Action>)
    requires reg.Agreed() && ActionsFresh(reg, actions)
    ensures ActRun(reg, actions).registry.Agreed()
    decreases actions, 0, 0
  {
    if actions == [] {
    } else {
      ActOnceKeepsAgreed(reg, actions[0]);
      ActRunKeepsAgreed(ActOnce(reg, actions[0]).registry, actions[1..]);
    }
  }

  lemma {:induction false} DeliverFromKeepsAgreed(reg: Registry, snapshot: seq<Subscription>, event: EventObject,
                                                  ignoreErrors: bool, behaviours: seq<Behaviour>, k: nat)
    requires reg.Agreed() && DeliveriesFresh(reg, snapshot, event, ignoreErrors, behaviours, k)
    ensures DeliverFrom(reg, snapshot, event, ignoreErrors, behaviours, k).registry.Agreed()
    decreases behaviours, 1, |snapshot| - k
  {
    if k >= |snapshot| {
    } else {
      var acted := ActedAt(reg, snapshot[k], behaviours, k);
      if k < |behaviours| && Handles(snapshot[k], behaviours[k]) {
        ActRunKeepsAgreed(reg, behaviours[k].actions);
      }
      if !(RaisesAt(snapshot, behaviours, k) && !ignoreErrors) {
        DeliverFromKeepsAgreed(acted.registry, snapshot, event, ignoreErrors, behaviours, k + 1);
      }
    }
  }

  /** Any run of calls that starts from the empty bus and registers nothing twice at once. */
  lemma RunsKeepAgreed(actions: seq<Action>)
    requires ActionsFresh(EMPTY, actions)
    ensures ActRun(EMPTY, actions).registry.Valid() && ActRun(EMPTY, actions).registry.Agreed()
  {
    ActRunKeepsValid(EMPTY, actions);
    ActRunKeepsAgreed(EMPTY, actions);
  }
}
