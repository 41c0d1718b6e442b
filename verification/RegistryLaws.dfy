/** What registering and unregistering do to the live registrations, to each per-type list and to the ids. */
module RegistryLaws {
  import opened Wrappers
  import opened Events
  import opened StableSorting
  import opened BusRegistry

  /** The per-type list the bus keeps. */
  function ListFor(live: seq<Registration>, t: EventType): seq<Subscription> {
    Sort(OrderOf, Subs(OfType(live, t)))
  }

  // ---------- projections ----------

  lemma {:induction false} SubsSnoc(live: seq<Registration>, r: Registration)
    ensures Subs(live + [r]) == Subs(live) + [r.sub]
  {
    if live == [] {
      assert live + [r] == [r];
    } else {
      assert (live + [r])[1..] == live[1..] + [r];
      SubsSnoc(live[1..], r);
    }
  }

  lemma {:induction false} SubsConcat(a: seq<Registration>, b: seq<Registration>)
    ensures Subs(a + b) == Subs(a) + Subs(b)
  {
    if a == [] {
      assert a + b == b;
    } else {
      assert (a + b)[1..] == a[1..] + b;
      SubsConcat(a[1..], b);
    }
  }

  lemma {:induction false} SubsAt(live: seq<Registration>)
    ensures |Subs(live)| == |live|
    ensures forall i :: 0 <= i < |live| ==> Subs(live)[i] == live[i].sub
  {
    if live == [] {
    } else {
      SubsAt(live[1..]);
    }
  }

  lemma {:induction false} OfTypeSnoc(live: seq<Registration>, r: Registration, t: EventType)
    ensures OfType(live + [r], t) == if r.sub.eventType == t then OfType(live, t) + [r] else OfType(live, t)
  {
    if live == [] {
      assert live + [r] == [r];
    } else {
      assert (live + [r])[1..] == live[1..] + [r];
      OfTypeSnoc(live[1..], r, t);
    }
  }

  lemma {:induction false} InsertProjects(rs: seq<Registration>, r: Registration)
    ensures Subs(Insert(OrderOfRegistration, rs, r)) == Insert(OrderOf, Subs(rs), r.sub)
  {
    SubsAt(rs);
    if rs == [] || rs[|rs| - 1].sub.order <= r.sub.order {
      SubsSnoc(rs, r);
    } else {
      var init, last := rs[..|rs| - 1], rs[|rs| - 1];
      assert rs == init + [last];
      SubsSnoc(init, last);
      InsertProjects(init, r);
      SubsSnoc(Insert(OrderOfRegistration, init, r), last);
    }
  }

  lemma {:induction false} SortProjects(rs: seq<Registration>)
    ensures Subs(Sort(OrderOfRegistration, rs)) == Sort(OrderOf, Subs(rs))
  {
    if rs == [] {
    } else {
      var init, last := rs[..|rs| - 1], rs[|rs| - 1];
      assert rs == init + [last];
      SubsSnoc(init, last);
      SortProjects(init);
      InsertProjects(Sort(OrderOfRegistration, init), last);
      SortSnoc(OrderOf, Subs(init), last.sub);
    }
  }

  /** The bus collects one per-type list after the other. */
  lemma RunsProject(live: seq<Registration>, mro: seq<EventType>, k: nat)
    requires k < |mro|
    ensures Subs(Runs(live, mro[..k + 1])) == Subs(Runs(live, mro[..k])) + ListFor(live, mro[k])
  {
    assert mro[..k + 1][..k] == mro[..k];
    SubsConcat(Runs(live, mro[..k]), Sort(OrderOfRegistration, OfType(live, mro[k])));
    SortProjects(OfType(live, mro[k]));
  }

  // ---------- registering ----------

  lemma ListAfterRegister(live: seq<Registration>, r: Registration, t: EventType)
    ensures ListFor(live + [r], t) ==
            if r.sub.eventType == t then Sort(OrderOf, ListFor(live, t) + [r.sub]) else ListFor(live, t)
  {
    OfTypeSnoc(live, r, t);
    SubsSnoc(OfType(live, t), r);
    SortAfterAppend(OrderOf, Subs(OfType(live, t)), r.sub);
  }

  lemma RegisterKeepsValid(reg: Registry, s: Subscription)
    requires reg.Valid()
    ensures reg.Register(s).Valid()
  {
    SubsSnoc(reg.live, Registration(s, reg.clock));
  }

  // ---------- unregistering ----------

  lemma {:induction false} WithoutNone(live: seq<Registration>)
    ensures WithoutFirst(live, {}) == live
  {
    if live == [] {
    } else {
      WithoutNone(live[1..]);
    }
  }

  lemma {:induction false} SubsWithoutFirst(live: seq<Registration>, s: Subscription)
    ensures Subs(WithoutFirst(live, {s})) == RemoveFirst(Subs(live), s)
  {
    if live == [] {
    } else {
      if live[0].sub == s {
        assert {s} - {s} == {};
        WithoutNone(live[1..]);
      } else {
        SubsWithoutFirst(live[1..], s);
      }
    }
  }

  lemma {:induction false} OfTypeWithoutFirst(live: seq<Registration>, s: Subscription, t: EventType)
    ensures OfType(WithoutFirst(live, {s}), t) ==
            if s.eventType == t then WithoutFirst(OfType(live, t), {s}) else OfType(live, t)
  {
    if live == [] {
    } else {
      if live[0].sub == s {
        assert {s} - {s} == {};
        WithoutNone(live[1..]);
        WithoutNone(OfType(live[1..], t));
      } else {
        OfTypeWithoutFirst(live[1..], s, t);
      }
    }
  }

  lemma ListAfterUnregister(live: seq<Registration>, s: Subscription, t: EventType)
    ensures ListFor(WithoutFirst(live, {s}), t) ==
            if s.eventType == t then RemoveFirst(ListFor(live, t), s) else ListFor(live, t)
  {
    OfTypeWithoutFirst(live, s, t);
    SubsWithoutFirst(OfType(live, t), s);
    RemoveFirstFromSort(OrderOf, Subs(OfType(live, t)), s);
  }

  /** A subscription is in its per-type list exactly when it is live. */
  lemma InListIffLive(reg: Registry, s: Subscription)
    ensures s in ListFor(reg.live, s.eventType) <==> reg.Has(s)
  {
    var run := OfType(reg.live, s.eventType);
    SortElements(OrderOf, Subs(run));
    SameElements(ListFor(reg.live, s.eventType), Subs(run), s);
    InSubs(run, s);
    InSubs(reg.live, s);
    if r :| r in reg.live && r.sub == s {
      OfTypeElements(reg.live, s.eventType, r);
    }
    if r :| r in run && r.sub == s {
      OfTypeElements(reg.live, s.eventType, r);
    }
  }

  lemma InSubs(live: seq<Registration>, s: Subscription)
    ensures s in Subs(live) <==> exists r :: r in live && r.sub == s
  {
    SubsAt(live);
  }

  lemma {:induction false} WithoutFirstKeepsTimeOrder(live: seq<Registration>, gone: set<Subscription>)
    requires InTimeOrder(live)
    ensures InTimeOrder(WithoutFirst(live, gone))
    ensures forall r :: r in WithoutFirst(live, gone) ==> r in live
    decreases live
  {
    if live == [] {
    } else {
      if live[0].sub in gone {
        WithoutFirstKeepsTimeOrder(live[1..], gone - {live[0].sub});
      } else {
        WithoutFirstKeepsTimeOrder(live[1..], gone);
        var rest := WithoutFirst(live[1..], gone);
        forall i | 0 <= i < |rest|
          ensures live[0].time < rest[i].time
        {
          assert rest[i] in live[1..];
        }
      }
    }
  }

  lemma {:induction false} CountSubs(live: seq<Registration>, s: Subscription)
    ensures s in Subs(live) <==> Count(live, s) > 0
  {
    if live == [] {
    } else {
      CountSubs(live[1..], s);
    }
  }

  lemma {:induction false} CountWithoutFirst(live: seq<Registration>, gone: set<Subscription>, s: Subscription)
    ensures Count(WithoutFirst(live, gone), s) ==
            if s in gone && Count(live, s) > 0 then Count(live, s) - 1 else Count(live, s)
    decreases live
  {
    if live == [] {
    } else {
      if live[0].sub in gone {
        CountWithoutFirst(live[1..], gone - {live[0].sub}, s);
      } else {
        CountWithoutFirst(live[1..], gone, s);
      }
    }
  }

  lemma RemovalKeepsValid(reg: Registry, gone: set<Subscription>)
    requires reg.Valid()
    ensures Registry(WithoutFirst(reg.live, gone), reg.known - gone, reg.clock).Valid()
  {
    var live := WithoutFirst(reg.live, gone);
    WithoutFirstKeepsTimeOrder(reg.live, gone);
    forall i | 0 <= i < |live|
      ensures live[i].time < reg.clock
    {
      assert live[i] in reg.live;
    }
    forall s | s in reg.known - gone
      ensures s in Subs(live)
    {
      CountSubs(reg.live, s);
      CountWithoutFirst(reg.live, gone, s);
      CountSubs(live, s);
    }
  }

  // ---------- when ids and lists agree ----------

  lemma NoneTwiceBehind(live: seq<Registration>)
    requires live != []
    ensures NoneTwice(live) <==> NoneTwice(live[1..]) && live[0].sub !in Subs(live[1..])
  {
    var first, rest := live[0].sub, live[1..];
    SubsAt(rest);
    assert forall i :: 1 <= i < |live| ==> live[i] == rest[i - 1] && live[i].sub == Subs(rest)[i - 1];
    if NoneTwice(live) {
      forall i, j | 0 <= i < j < |rest|
        ensures rest[i].sub != rest[j].sub
      {
        assert live[i + 1].sub != live[j + 1].sub;
      }
      forall i | 0 <= i < |rest|
        ensures rest[i].sub != first
      {
        assert live[0].sub != live[i + 1].sub;
      }
    }
  }

  lemma {:induction false} NoneTwiceMeansCount(live: seq<Registration>)
    ensures NoneTwice(live) ==> forall s :: Count(live, s) <= 1
    ensures (forall s :: Count(live, s) <= 1) ==> NoneTwice(live)
  {
    if live == [] {
    } else {
      var first, rest := live[0].sub, live[1..];
      NoneTwiceBehind(live);
      NoneTwiceMeansCount(rest);
      CountSubs(rest, first);
      assert Count(live, first) == 1 + Count(rest, first);
      if NoneTwice(live) {
        forall s
          ensures Count(live, s) <= 1
        {
          assert Count(rest, s) <= 1;
        }
      }
      if forall s :: Count(live, s) <= 1 {
        forall s
          ensures Count(rest, s) <= 1
        {
          assert Count(live, s) <= 1;
        }
      }
    }
  }

  /** Registering keeps the agreement exactly when the subscription is not live already. */
  lemma RegisterKeepsAgreed(reg: Registry, s: Subscription)
    requires reg.Agreed()
    ensures reg.Register(s).Agreed() <==> !reg.Has(s)
  {
    SubsSnoc(reg.live, Registration(s, reg.clock));
    SubsAt(reg.live);
    var live := reg.live + [Registration(s, reg.clock)];
    if reg.Has(s) {
      var i :| 0 <= i < |reg.live| && Subs(reg.live)[i] == s;
      assert live[i].sub == live[|reg.live|].sub;
    } else {
      forall i | 0 <= i < |reg.live|
        ensures live[i].sub != s
      {
        assert Subs(reg.live)[i] == live[i].sub;
      }
    }
  }

  /**
    Unregistering leaves the ids agreeing with the lists exactly when the subscription was not
    registered twice: the second registration would stay on the bus without an id.
   */
  lemma UnregisterKeepsIds(reg: Registry, s: Subscription)
    requires forall x :: x in reg.known <==> reg.Has(x)
    ensures (forall x :: x in reg.Unregister(s).known <==> reg.Unregister(s).Has(x)) <==> Count(reg.live, s) <= 1
  {
    var after := reg.Unregister(s);
    forall x
      ensures (x in after.known <==> after.Has(x)) <==> (x == s ==> Count(reg.live, s) <= 1)
    {
      CountSubs(reg.live, x);
      CountWithoutFirst(reg.live, {s}, x);
      CountSubs(after.live, x);
    }
  }

  /** For one: registered twice and unregistered once, it is still delivered to, and no id can remove it. */
  lemma RegisteredTwiceIsStuck(s: Subscription, mro: seq<EventType>)
    requires s.eventType in mro
    ensures var after := EMPTY.Register(s).Register(s).UnregisterToken(ById(IdOf(s))).0;
            && s in Subs(Delivery(after.live, mro)) && s !in after.known
            && after.UnregisterToken(ById(IdOf(s))) == (after, NotFound)
            && after.UnregisterAll(None) == after
  {
    var after := EMPTY.Register(s).Register(s).UnregisterToken(ById(IdOf(s))).0;
    assert EMPTY.Register(s).Register(s).live == [Registration(s, 0), Registration(s, 1)];
    assert {s} - {s} == {};
    WithoutNone([Registration(s, 1)]);
    assert after.live == [Registration(s, 1)] && after.known == {};
    assert (set x | x in after.known && Concerns(None, x)) == {};
    NotDeliveredUnlessLive(after, mro, s);
  }

  lemma UnregisterKeepsAgreed(reg: Registry, s: Subscription)
    requires reg.Agreed()
    ensures reg.Unregister(s).Agreed() && !reg.Unregister(s).Has(s)
    ensures forall x :: x != s ==> (reg.Unregister(s).Has(x) <==> reg.Has(x))
  {
    NoneTwiceMeansCount(reg.live);
    UnregisterKeepsIds(reg, s);
    var after := reg.Unregister(s);
    forall x
      ensures Count(after.live, x) <= 1
      ensures x != s ==> (after.Has(x) <==> reg.Has(x))
    {
      CountWithoutFirst(reg.live, {s}, x);
      CountSubs(reg.live, x);
      CountSubs(after.live, x);
    }
    NoneTwiceMeansCount(after.live);
  }

  /** The id, the object, and so the handle that owns it, name the same live subscription. */
  lemma TokensAgree(reg: Registry, s: Subscription)
    requires reg.Agreed() && reg.Has(s)
    ensures reg.UnregisterToken(ByObject(s)) == reg.UnregisterToken(ById(IdOf(s))) == (reg.Unregister(s), Unregistered)
    ensures !reg.Unregister(s).Has(s)
  {
    UnregisterKeepsAgreed(reg, s);
  }

  /** unregister_all() empties the bus exactly when nothing is live twice or without an id. */
  lemma UnregisterAllEmpties(reg: Registry)
    requires reg.Valid()
    ensures reg.UnregisterAll(None).live == [] <==> reg.Agreed()
  {
    var after := reg.UnregisterAll(None);
    assert (set s | s in reg.known && Concerns(None, s)) == reg.known;
    if after.live != [] {
      var s := after.live[0].sub;
      CountWithoutFirst(reg.live, reg.known, s);
      CountSubs(reg.live, s);
      NoneTwiceMeansCount(reg.live);
    } else {
      forall s
        ensures Count(reg.live, s) <= 1
        ensures s in reg.known <==> reg.Has(s)
      {
        CountWithoutFirst(reg.live, reg.known, s);
        CountSubs(reg.live, s);
      }
      NoneTwiceMeansCount(reg.live);
    }
  }

  /** unregister_all(from_event=t) removes exactly the subscriptions of type t. */
  lemma UnregisterAllOfType(reg: Registry, t: EventType, s: Subscription)
    requires reg.Agreed()
    ensures reg.UnregisterAll(Some(t)).Has(s) <==> reg.Has(s) && s.eventType != t
    ensures s in reg.UnregisterAll(Some(t)).known <==> s in reg.known && s.eventType != t
  {
    NoneTwiceMeansCount(reg.live);
    var after := reg.UnregisterAll(Some(t));
    var gone := set x | x in reg.known && Concerns(Some(t), x);
    CountWithoutFirst(reg.live, gone, s);
    CountSubs(reg.live, s);
    CountSubs(after.live, s);
  }

  // ---------- undo ----------

  lemma {:induction false} WithoutLast(live: seq<Registration>, r: Registration)
    requires r.sub !in Subs(live)
    ensures WithoutFirst(live + [r], {r.sub}) == live
  {
    if live == [] {
      assert live + [r] == [r];
    } else {
      assert (live + [r])[1..] == live[1..] + [r];
      WithoutLast(live[1..], r);
    }
  }

  /** Unregistering takes back a registration completely, except for the time that has passed. */
  lemma UnregisterUndoesRegister(reg: Registry, s: Subscription)
    requires reg.Valid() && !reg.Has(s)
    ensures reg.Register(s).Unregister(s) == reg.(clock := reg.clock + 1)
  {
    WithoutLast(reg.live, Registration(s, reg.clock));
    assert reg.known + {s} - {s} == reg.known;
  }

  /** A subscription that is not live is not delivered to. */
  lemma NotDeliveredUnlessLive(reg: Registry, mro: seq<EventType>, s: Subscription)
    ensures s in Subs(Delivery(reg.live, mro)) <==> reg.Has(s) && s.eventType in mro
  {
    InSubs(Delivery(reg.live, mro), s);
    InSubs(reg.live, s);
    SortElements(OrderOfRegistration, Runs(reg.live, mro));
    forall r
      ensures r in Delivery(reg.live, mro) <==> r in reg.live && r.sub.eventType in mro
    {
      SameElements(Delivery(reg.live, mro), Runs(reg.live, mro), r);
      RunsElements(reg.live, mro, r);
    }
  }
}
