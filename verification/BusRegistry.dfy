/**
  The event bus as its users understand it: one list of live registrations in order of
  registration time, and the set of subscriptions whose ids are known. Everything the bus
  does with its per-type lists and its id map is stated against this.
 */
module BusRegistry {
  import opened Wrappers
  import opened Events
  import opened StableSorting

  datatype Registration = Registration(sub: Subscription, time: nat)

  /** known lags behind live only when one subscription was registered twice at once. */
  datatype Registry = Registry(live: seq<Registration>, known: set<Subscription>, clock: nat) {
    ghost predicate Valid() {
      && InTimeOrder(live)
      && (forall i :: 0 <= i < |live| ==> live[i].time < clock)
      && (forall s :: s in known ==> Has(s))
    }

    predicate Has(s: Subscription) {
      s in Subs(live)
    }

    /** Nothing is registered twice, and exactly the live subscriptions have known ids. */
    ghost predicate Agreed() {
      && NoneTwice(live)
      && (forall s :: s in known <==> Has(s))
    }

    function Register(s: Subscription): Registry {
      Registry(live + [Registration(s, clock)], known + {s}, clock + 1)
    }

    function Unregister(s: Subscription): Registry {
      Registry(WithoutFirst(live, {s}), known - {s}, clock)
    }

    function UnregisterToken(token: Token): (Registry, UnregisterResult) {
      match token
      case ByObject(s) => (Unregister(s), Unregistered)
      case ById(IdOf(s)) => if s in known then (Unregister(s), Unregistered) else (this, NotFound)
      case ById(Stray(_)) => (this, NotFound)
      case NotAnId => (this, ValueError)
    }

    /** unregister_all: every subscription with a known id, of one type or of any. */
    function UnregisterAll(fromEvent: Option<EventType>): Registry {
      var gone := set s | s in known && Concerns(fromEvent, s);
      Registry(WithoutFirst(live, gone), known - gone, clock)
    }
  }

  predicate Concerns(fromEvent: Option<EventType>, s: Subscription) {
    fromEvent == None || s.eventType == fromEvent.value
  }

  const EMPTY := Registry([], {}, 0)

  ghost predicate InTimeOrder(live: seq<Registration>) {
    forall i, j :: 0 <= i < j < |live| ==> live[i].time < live[j].time
  }

  ghost predicate NoneTwice(live: seq<Registration>) {
    forall i, j :: 0 <= i < j < |live| ==> live[i].sub != live[j].sub
  }

  function Subs(live: seq<Registration>): seq<Subscription> {
    if live == [] then [] else [live[0].sub] + Subs(live[1..])
  }

  /** Without the earliest registration of each subscription in gone. */
  function WithoutFirst(live: seq<Registration>, gone: set<Subscription>): seq<Registration> {
    if live == [] then []
    else if live[0].sub in gone then WithoutFirst(live[1..], gone - {live[0].sub})
    else [live[0]] + WithoutFirst(live[1..], gone)
  }

  function OfType(live: seq<Registration>, t: EventType): seq<Registration> {
    if live == [] then []
    else if live[0].sub.eventType == t then [live[0]] + OfType(live[1..], t)
    else OfType(live[1..], t)
  }

  /** The number of live registrations of s. */
  function Count(live: seq<Registration>, s: Subscription): nat {
    if live == [] then 0 else (if live[0].sub == s then 1 else 0) + Count(live[1..], s)
  }

  // ---------- the order of delivery ----------

  function OrderOf(s: Subscription): int {
    s.order
  }

  function OrderOfRegistration(r: Registration): int {
    r.sub.order
  }

  /** The registrations that listen for any of types, type by type, each run in order. */
  function Runs(live: seq<Registration>, types: seq<EventType>): seq<Registration> {
    if types == [] then []
    else Runs(live, types[..|types| - 1]) + Sort(OrderOfRegistration, OfType(live, types[|types| - 1]))
  }

  /** What post delivers to, in order. */
  function Delivery(live: seq<Registration>, mro: seq<EventType>): seq<Registration> {
    Sort(OrderOfRegistration, Runs(live, mro))
  }

  /** The place of t in the method resolution order. */
  function Specificity(mro: seq<EventType>, t: EventType): nat {
    if mro == [] || mro[0] == t then 0 else 1 + Specificity(mro[1..], t)
  }

  /** The promised order: by order, then the more specific type, then the earlier registration. */
  predicate Precedes(mro: seq<EventType>, a: Registration, b: Registration) {
    || a.sub.order < b.sub.order
    || (a.sub.order == b.sub.order && PrecedesInTie(mro, a, b))
  }

  predicate PrecedesInTie(mro: seq<EventType>, a: Registration, b: Registration) {
    var p, q := Specificity(mro, a.sub.eventType), Specificity(mro, b.sub.eventType);
    p < q || (p == q && a.time < b.time)
  }

  /** delivered is exactly the live registrations the event concerns, in the promised order. */
  ghost predicate IsPromisedDelivery(live: seq<Registration>, mro: seq<EventType>, delivered: seq<Registration>) {
    && (forall r :: r in delivered <==> r in live && r.sub.eventType in mro)
    && (forall i, j :: 0 <= i < j < |delivered| ==> Precedes(mro, delivered[i], delivered[j]))
  }

  lemma {:induction false} OfTypeElements(live: seq<Registration>, t: EventType, r: Registration)
    ensures r in OfType(live, t) <==> r in live && r.sub.eventType == t
  {
    if live == [] {
    } else {
      OfTypeElements(live[1..], t, r);
      assert r in live <==> r == live[0] || r in live[1..];
    }
  }

  lemma {:induction false} OfTypeKeepsTimeOrder(live: seq<Registration>, t: EventType)
    requires InTimeOrder(live)
    ensures InTimeOrder(OfType(live, t))
  {
    if live == [] {
    } else {
      OfTypeKeepsTimeOrder(live[1..], t);
      var rest := OfType(live[1..], t);
      forall i | 0 <= i < |rest|
        ensures live[0].time < rest[i].time
      {
        OfTypeElements(live[1..], t, rest[i]);
      }
    }
  }

  lemma {:induction false} RunsElements(live: seq<Registration>, types: seq<EventType>, r: Registration)
    ensures r in Runs(live, types) <==> r in live && r.sub.eventType in types
  {
    if types == [] {
    } else {
      var init, last := types[..|types| - 1], types[|types| - 1];
      RunsElements(live, init, r);
      OfTypeElements(live, last, r);
      SortElements(OrderOfRegistration, OfType(live, last));
      SameElements(Sort(OrderOfRegistration, OfType(live, last)), OfType(live, last), r);
      assert types == init + [last];
    }
  }

  lemma {:induction false} SpecificityOfPlace(mro: seq<EventType>, i: nat)
    requires Distinct(mro) && i < |mro|
    ensures Specificity(mro, mro[i]) == i
  {
    if i == 0 {
    } else {
      SpecificityOfPlace(mro[1..], i - 1);
    }
  }

  /** One run: registrations of a single type, ties broken by time. */
  lemma RunIsOrdered(live: seq<Registration>, mro: seq<EventType>, t: EventType)
    requires InTimeOrder(live)
    ensures TiesOrderedBy(OrderOfRegistration, (a, b) => PrecedesInTie(mro, a, b),
        Sort(OrderOfRegistration, OfType(live, t)))
  {
    var run, later := OfType(live, t), (a, b) => PrecedesInTie(mro, a, b);
    OfTypeKeepsTimeOrder(live, t);
    forall i, j | 0 <= i < j < |run|
      ensures later(run[i], run[j])
    {
      OfTypeElements(live, t, run[i]);
      OfTypeElements(live, t, run[j]);
    }
    SortIsStable(OrderOfRegistration, later, run);
  }

  lemma EarlierTypeFirst(live: seq<Registration>, mro: seq<EventType>, k: nat, a: Registration, b: Registration)
    requires Distinct(mro) && k < |mro|
    requires a in Runs(live, mro[..k]) && b in Sort(OrderOfRegistration, OfType(live, mro[k]))
    ensures PrecedesInTie(mro, a, b)
  {
    RunsElements(live, mro[..k], a);
    var i :| 0 <= i < k && mro[i] == a.sub.eventType;
    SpecificityOfPlace(mro, i);
    SpecificityOfPlace(mro, k);
    SortElements(OrderOfRegistration, OfType(live, mro[k]));
    SameElements(Sort(OrderOfRegistration, OfType(live, mro[k])), OfType(live, mro[k]), b);
    OfTypeElements(live, mro[k], b);
  }

  /** Collecting type by type puts ties in the promised order before the final sort. */
  lemma {:induction false} RunsAreOrdered(live: seq<Registration>, mro: seq<EventType>, k: nat)
    requires InTimeOrder(live) && Distinct(mro) && k <= |mro|
    ensures TiesOrderedBy(OrderOfRegistration, (a, b) => PrecedesInTie(mro, a, b), Runs(live, mro[..k]))
  {
    if k == 0 {
    } else {
      assert mro[..k][..k - 1] == mro[..k - 1];
      RunsAreOrdered(live, mro, k - 1);
      RunIsOrdered(live, mro, mro[k - 1]);
      var before, run := Runs(live, mro[..k - 1]), Sort(OrderOfRegistration, OfType(live, mro[k - 1]));
      var later := (a, b) => PrecedesInTie(mro, a, b);
      forall a, b | a in before && b in run
        ensures later(a, b)
      {
        EarlierTypeFirst(live, mro, k - 1, a, b);
      }
      TiesOfConcat(OrderOfRegistration, later, before, run);
    }
  }

  /** Two stable sorts deliver the promised order. */
  lemma DeliveryIsPromised(live: seq<Registration>, mro: seq<EventType>)
    requires InTimeOrder(live) && Distinct(mro)
    ensures IsPromisedDelivery(live, mro, Delivery(live, mro))
  {
    var later := (a, b) => PrecedesInTie(mro, a, b);
    assert mro[..|mro|] == mro;
    RunsAreOrdered(live, mro, |mro|);
    SortIsStable(OrderOfRegistration, later, Runs(live, mro));
    var delivered := Delivery(live, mro);
    SortElements(OrderOfRegistration, Runs(live, mro));
    forall r
      ensures r in delivered <==> r in live && r.sub.eventType in mro
    {
      SameElements(delivered, Runs(live, mro), r);
      RunsElements(live, mro, r);
    }
  }

  /** And nothing else is a delivery in the promised order. */
  lemma PromisedDeliveryIsUnique(live: seq<Registration>, mro: seq<EventType>,
                                 one: seq<Registration>, two: seq<Registration>)
    requires IsPromisedDelivery(live, mro, one) && IsPromisedDelivery(live, mro, two)
    ensures one == two
  {
    SameOrderSameElements(mro, one, two);
  }

  lemma {:induction false} SameOrderSameElements(mro: seq<EventType>, one: seq<Registration>, two: seq<Registration>)
    requires forall r :: r in one <==> r in two
    requires forall i, j :: 0 <= i < j < |one| ==> Precedes(mro, one[i], one[j])
    requires forall i, j :: 0 <= i < j < |two| ==> Precedes(mro, two[i], two[j])
    ensures one == two
  {
    if one != [] {
      assert one[0] in two;
    }
    if two == [] {
    } else {
      assert two[0] in one;
      var a, b := one[0], two[0];
      assert a == b || Precedes(mro, a, b);
      assert a == b || Precedes(mro, b, a);
      forall r
        ensures r in one[1..] <==> r in two[1..]
      {
        assert r in one <==> r == one[0] || r in one[1..];
        assert r in two <==> r == two[0] || r in two[1..];
        assert !Precedes(mro, a, a);
      }
      SameOrderSameElements(mro, one[1..], two[1..]);
      assert one == [a] + one[1..] && two == [b] + two[1..];
    }
  }
}
