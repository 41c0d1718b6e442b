/** Bundles of subscriptions, from subscription_bundle.py, kept in step with the bus. */
module SubscriptionBundles {
  import opened Wrappers
  import opened Events
  import opened BusRegistry
  import opened RegistryLaws
  import opened Posting
  import opened PostingLaws
  import opened EventBus

  type IdTable = map<Subscription, Option<RegistrationId>>

  /** The dictionary in the order of its keys, the ids it stores, and the flag. */
  datatype Bundle = Bundle(members: seq<Subscription>, ids: IdTable, registered: bool) {
    ghost predicate Valid() {
      && (forall i, j :: 0 <= i < j < |members| ==> members[i] != members[j])
      && (forall s :: s in ids <==> s in members)
    }

    function With(s: Subscription, id: Option<RegistrationId>): Bundle {
      Bundle(if s in ids then members else members + [s], ids[s := id], registered)
    }
  }

  datatype State = State(bundle: Bundle, registry: Registry)

  datatype RemoveResult = Removed | NotAMember | RemoveFailed

  const NEW_BUNDLE := Bundle([], map[], false)

  function Without(members: seq<Subscription>, s: Subscription): seq<Subscription> {
    if members == [] then []
    else if members[0] == s then Without(members[1..], s)
    else [members[0]] + Without(members[1..], s)
  }

  function Add(st: State, s: Subscription): State {
    if st.bundle.registered then
      State(st.bundle.With(s, Some(IdOf(s))), st.registry.Register(s))
    else
      State(st.bundle.With(s, None), st.registry)
  }

  function Remove(st: State, s: Subscription): (State, RemoveResult) {
    var b := st.bundle;
    if s !in b.ids then (st, NotAMember)
    else if b.registered && b.ids[s] == None then (st, RemoveFailed)
    else
      var reg := if b.registered then st.registry.UnregisterToken(ById(b.ids[s].value)).0 else st.registry;
      (State(Bundle(Without(b.members, s), b.ids - {s}, b.registered), reg), Removed)
  }

  /** The loop of register over the members from k on. */
  function RegisterFrom(st: State, k: nat): State
    decreases |st.bundle.members| - k
  {
    if k >= |st.bundle.members| then st
    else
      var s := st.bundle.members[k];
      RegisterFrom(State(Bundle(st.bundle.members, st.bundle.ids[s := Some(IdOf(s))], st.bundle.registered),
                         st.registry.Register(s)), k + 1)
  }

  function UnregisterFrom(st: State, k: nat): State
    decreases |st.bundle.members| - k
  {
    if k >= |st.bundle.members| then st
    else
      var s := st.bundle.members[k];
      UnregisterFrom(State(Bundle(st.bundle.members, st.bundle.ids[s := None], st.bundle.registered),
                           st.registry.Unregister(s)), k + 1)
  }

  function RegisterAll(st: State): State {
    if st.bundle.registered then st
    else RegisterFrom(State(st.bundle.(registered := true), st.registry), 0)
  }

  function UnregisterMembers(st: State): State {
    if !st.bundle.registered then st
    else UnregisterFrom(State(st.bundle.(registered := false), st.registry), 0)
  }

  // ---------- a bundle and the bus in step ----------

  /** s is on the bus exactly once with its id, or not at all. */
  ghost predicate OnBus(reg: Registry, s: Subscription, ids: IdTable, present: bool)
    requires s in ids
  {
    if present then
      ids[s] == Some(IdOf(s)) && Count(reg.live, s) == 1 && s in reg.known
    else
      ids[s] == None && Count(reg.live, s) == 0 && s !in reg.known
  }

  ghost predicate InStep(st: State) {
    && st.registry.Valid() && st.bundle.Valid()
    && forall s :: s in st.bundle.members ==> OnBus(st.registry, s, st.bundle.ids, st.bundle.registered)
  }

  /** Half way through register or unregister: the members before k are in the new state. */
  ghost predicate HalfWay(st: State, k: nat) {
    && st.registry.Valid() && st.bundle.Valid() && k <= |st.bundle.members|
    && forall i :: 0 <= i < |st.bundle.members| ==>
         OnBus(st.registry, st.bundle.members[i], st.bundle.ids, (i < k) == st.bundle.registered)
  }

  lemma {:induction false} RegisterFromCompletes(st: State, k: nat)
    requires HalfWay(st, k) && st.bundle.registered
    ensures var after := RegisterFrom(st, k);
            InStep(after) && after.bundle.members == st.bundle.members && after.bundle.registered
    decreases |st.bundle.members| - k
  {
    if k >= |st.bundle.members| {
    } else {
      var s := st.bundle.members[k];
      var next := State(Bundle(st.bundle.members, st.bundle.ids[s := Some(IdOf(s))], true), st.registry.Register(s));
      RegisterKeepsValid(st.registry, s);
      forall i | 0 <= i < |st.bundle.members|
        ensures OnBus(next.registry, st.bundle.members[i], next.bundle.ids, i < k + 1)
      {
        CountSnoc(st.registry.live, Registration(s, st.registry.clock), st.bundle.members[i]);
      }
      RegisterFromCompletes(next, k + 1);
    }
  }

  lemma {:induction false} UnregisterFromCompletes(st: State, k: nat)
    requires HalfWay(st, k) && !st.bundle.registered
    ensures var after := UnregisterFrom(st, k);
            InStep(after) && after.bundle.members == st.bundle.members && !after.bundle.registered
    decreases |st.bundle.members| - k
  {
    if k >= |st.bundle.members| {
    } else {
      var s := st.bundle.members[k];
      var next := State(Bundle(st.bundle.members, st.bundle.ids[s := None], false), st.registry.Unregister(s));
      RemovalKeepsValid(st.registry, {s});
      forall i | 0 <= i < |st.bundle.members|
        ensures OnBus(next.registry, st.bundle.members[i], next.bundle.ids, !(i < k + 1))
      {
        CountWithoutFirst(st.registry.live, {s}, st.bundle.members[i]);
      }
      UnregisterFromCompletes(next, k + 1);
    }
  }

  lemma RegisterAllKeepsInStep(st: State)
    requires InStep(st)
    ensures InStep(RegisterAll(st)) && RegisterAll(st).bundle.registered
    ensures RegisterAll(st).bundle.members == st.bundle.members
    ensures RegisterAll(RegisterAll(st)) == RegisterAll(st)
  {
    if !st.bundle.registered {
      RegisterFromCompletes(State(st.bundle.(registered := true), st.registry), 0);
    }
  }

  lemma UnregisterMembersKeepsInStep(st: State)
    requires InStep(st)
    ensures InStep(UnregisterMembers(st)) && !UnregisterMembers(st).bundle.registered
    ensures UnregisterMembers(st).bundle.members == st.bundle.members
    ensures UnregisterMembers(UnregisterMembers(st)) == UnregisterMembers(st)
  {
    if st.bundle.registered {
      UnregisterFromCompletes(State(st.bundle.(registered := false), st.registry), 0);
    }
  }

  /** Adding keeps bundle and bus in step exactly when the subscription is not live already. */
  lemma AddKeepsInStep(st: State, s: Subscription)
    requires InStep(st)
    ensures InStep(Add(st, s)) <==> !st.registry.Has(s)
  {
    var after := Add(st, s);
    RegisterKeepsValid(st.registry, s);
    CountSubs(st.registry.live, s);
    assert s in after.bundle.members;
    forall x
      ensures Count(after.registry.live, x) == Count(st.registry.live, x) +
          if st.bundle.registered && x == s then 1 else 0
    {
      CountSnoc(st.registry.live, Registration(s, st.registry.clock), x);
    }
    if !st.registry.Has(s) {
      forall x | x in after.bundle.members
        ensures OnBus(after.registry, x, after.bundle.ids, after.bundle.registered)
      {
        assert x == s || x in st.bundle.members;
      }
    } else {
      assert !OnBus(after.registry, s, after.bundle.ids, after.bundle.registered);
    }
  }

  lemma {:induction false} WithoutElements(members: seq<Subscription>, s: Subscription)
    requires forall i, j :: 0 <= i < j < |members| ==> members[i] != members[j]
    ensures var rest := Without(members, s);
            && (forall i, j :: 0 <= i < j < |rest| ==> rest[i] != rest[j])
            && (forall x :: x in rest <==> x in members && x != s)
  {
    if members == [] {
    } else {
      WithoutElements(members[1..], s);
      assert forall x :: x in members <==> x == members[0] || x in members[1..];
      assert members[0] !in members[1..];
      var rest := Without(members[1..], s);
      assert forall i :: 0 <= i < |rest| ==> rest[i] in rest;
    }
  }

  lemma CountAfterRemoval(reg: Registry, s: Subscription, x: Subscription)
    requires reg.Valid() && Count(reg.live, s) <= 1
    ensures Count(reg.Unregister(s).live, x) == if x == s then 0 else Count(reg.live, x)
    ensures x in reg.Unregister(s).known <==> x in reg.known && x != s
    ensures !reg.Unregister(s).Has(s)
  {
    CountWithoutFirst(reg.live, {s}, x);
    CountWithoutFirst(reg.live, {s}, s);
    CountSubs(reg.Unregister(s).live, s);
  }

  lemma RemoveKeepsInStep(st: State, s: Subscription)
    requires InStep(st)
    ensures InStep(Remove(st, s).0) && s !in Remove(st, s).0.bundle.members
    ensures Remove(st, s).1 == if s in st.bundle.members then Removed else NotAMember
    ensures s in st.bundle.members ==> !Remove(st, s).0.registry.Has(s)
  {
    if s in st.bundle.members {
      var after := Remove(st, s).0;
      WithoutElements(st.bundle.members, s);
      assert OnBus(st.registry, s, st.bundle.ids, st.bundle.registered);
      RemovalKeepsValid(st.registry, {s});
      CountAfterRemoval(st.registry, s, s);
      CountSubs(st.registry.live, s);
      forall x | x in after.bundle.members
        ensures OnBus(after.registry, x, after.bundle.ids, after.bundle.registered)
      {
        assert x in st.bundle.members && x != s;
        CountAfterRemoval(st.registry, s, x);
      }
    }
  }

  // ---------- whole runs ----------

  datatype Step =
    | AddStep(s: Subscription)
    | RemoveStep(s: Subscription)
    | RegisterStep
    | UnregisterStep
    | Outside(actions: seq<Action>)

  function Do(st: State, step: Step): State {
    match step
    case AddStep(s) => Add(st, s)
    case RemoveStep(s) => Remove(st, s).0
    case RegisterStep => RegisterAll(st)
    case UnregisterStep => UnregisterMembers(st)
    case Outside(actions) => State(st.bundle, ActRun(st.registry, actions).registry)
  }

  function DoAll(st: State, steps: seq<Step>): State
    decreases steps
  {
    if steps == [] then st else DoAll(Do(st, steps[0]), steps[1..])
  }

  /** Only new subscriptions are added, and everything else that uses the bus leaves the members alone. */
  ghost predicate Proper(st: State, step: Step) {
    match step
    case AddStep(s) => !st.registry.Has(s)
    case Outside(actions) => forall s :: s in st.bundle.members ==> ActionsRespect(actions, s, HANDS_OFF)
    case _ => true
  }

  ghost predicate ProperRun(st: State, steps: seq<Step>)
    decreases steps
  {
    steps == [] || (Proper(st, steps[0]) && ProperRun(Do(st, steps[0]), steps[1..]))
  }

  lemma StepKeepsInStep(st: State, step: Step)
    requires InStep(st) && Proper(st, step)
    ensures InStep(Do(st, step))
  {
    match step
    case AddStep(s) => AddKeepsInStep(st, s);
    case RemoveStep(s) => RemoveKeepsInStep(st, s);
    case RegisterStep => RegisterAllKeepsInStep(st);
    case UnregisterStep => UnregisterMembersKeepsInStep(st);
    case Outside(actions) =>
      ActRunKeepsValid(st.registry, actions);
      forall s | s in st.bundle.members
        ensures OnBus(Do(st, step).registry, s, st.bundle.ids, st.bundle.registered)
      {
        ActRunLeaves(st.registry, actions, s, HANDS_OFF);
      }
  }

  /** Over every run, each member of a registered bundle is on the bus exactly once, and none of an unregistered one. */
  lemma {:induction false} RunsKeepInStep(st: State, steps: seq<Step>)
    requires InStep(st) && ProperRun(st, steps)
    ensures InStep(DoAll(st, steps))
    decreases steps
  {
    if steps == [] {
    } else {
      StepKeepsInStep(st, steps[0]);
      RunsKeepInStep(Do(st, steps[0]), steps[1..]);
    }
  }

  /** From a new bundle on any bus: after every run registered members are on the bus once, others not at all. */
  lemma RunsFromNewBundle(reg: Registry, steps: seq<Step>)
    requires reg.Valid() && ProperRun(State(NEW_BUNDLE, reg), steps)
    ensures var after := DoAll(State(NEW_BUNDLE, reg), steps);
            forall s :: s in after.bundle.members ==>
              && s in after.bundle.ids
              && Count(after.registry.live, s) == (if after.bundle.registered then 1 else 0)
              && after.bundle.ids[s] == (if after.bundle.registered then Some(IdOf(s)) else None)
  {
    RunsKeepInStep(State(NEW_BUNDLE, reg), steps);
    var after := DoAll(State(NEW_BUNDLE, reg), steps);
    forall s | s in after.bundle.members
      ensures OnBus(after.registry, s, after.bundle.ids, after.bundle.registered)
    {
    }
  }

  // ---------- the class ----------

  class SubscriptionBundle {
    var members: seq<Subscription>
    var ids: IdTable
    var registered: bool
    const bus: EventBus

    function Value(): Bundle
      reads this
    {
      Bundle(members, ids, registered)
    }

    ghost function StateOf(): State
      reads this, bus
    {
      State(Value(), bus.registry)
    }

    constructor (bus: EventBus)
      ensures Value() == NEW_BUNDLE && this.bus == bus
    {
      members, ids, registered := [], map[], false;
      this.bus := bus;
    }

    method AddSubscription(s: Subscription)
      requires bus.Valid()
      modifies this, bus
      ensures bus.Valid() && StateOf() == Add(old(StateOf()), s)
    {
      var registrationId := None;
      if registered {
        var id := bus.RegisterSubscription(s);
        registrationId := Some(id);
      }
      if s !in ids {
        members := members + [s];
      }
      ids := ids[s := registrationId];
    }

    method RemoveSubscription(s: Subscription) returns (result: RemoveResult)
      requires bus.Valid()
      modifies this, bus
      ensures bus.Valid() && (StateOf(), result) == Remove(old(StateOf()), s)
    {
      if s !in ids {
        return NotAMember;
      }
      if registered {
        if ids[s] == None {
          // unregister(None) raises
          var _ := bus.Unregister(NotAnId);
          return RemoveFailed;
        }
        var _ := bus.Unregister(ById(ids[s].value));
      }
      members, ids := Without(members, s), ids - {s};
      result := Removed;
    }

    method Register()
      requires bus.Valid()
      modifies this, bus
      ensures bus.Valid() && StateOf() == RegisterAll(old(StateOf()))
    {
      if registered {
        return;
      }
      registered := true;
      ghost var start := StateOf();
      for k := 0 to |members|
        invariant bus.Valid() && members == old(members) && registered
        invariant RegisterFrom(start, 0) == RegisterFrom(StateOf(), k)
      {
        var id := bus.RegisterSubscription(members[k]);
        ids := ids[members[k] := Some(id)];
      }
    }

    method Unregister()
      requires bus.Valid()
      modifies this, bus
      ensures bus.Valid() && StateOf() == UnregisterMembers(old(StateOf()))
    {
      if !registered {
        return;
      }
      registered := false;
      ghost var start := StateOf();
      for k := 0 to |members|
        invariant bus.Valid() && members == old(members) && !registered
        invariant UnregisterFrom(start, 0) == UnregisterFrom(StateOf(), k)
      {
        var _ := bus.Unregister(ByObject(members[k]));
        ids := ids[members[k] := None];
      }
    }
  }
}
