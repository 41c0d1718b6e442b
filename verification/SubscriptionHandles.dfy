/** Subscription handles of subscription_handle.py, and the attribute lookup that caches them. */
module SubscriptionHandles {
  import opened Wrappers
  import opened Events

  /** Hands out the identities of new objects; no two objects get the same. */
  class ObjectIds {
    var next: nat

    constructor ()
      ensures next == 0
    {
      next := 0;
    }

    method Fresh() returns (tag: nat)
      modifies this
      ensures tag == old(next) && next == old(next) + 1
    {
      tag := next;
      next := next + 1;
    }
  }

  /** unregister tests for the exact class, so the classes of the two decorators do not count as handles. */
  datatype Kind = PlainHandle | InstanceHandle | StaticHandle

  class SubscriptionHandle {
    const kind: Kind
    const eventType: EventType
    const order: int
    const filtered: bool
    var subscription: Option<Subscription>

    constructor (kind: Kind, eventType: EventType, order: int, filtered: bool)
      ensures this.kind == kind && this.eventType == eventType && this.order == order && this.filtered == filtered
      ensures subscription == None
    {
      this.kind, this.eventType, this.order, this.filtered := kind, eventType, order, filtered;
      subscription := None;
    }

    /** The subscription of this handle; made on first use and the same object ever after. */
    method GetSubscription(ids: ObjectIds) returns (s: Subscription)
      modifies this`subscription, ids
      ensures subscription == Some(s)
      ensures old(subscription).Some? ==> subscription == old(subscription) && ids.next == old(ids.next)
      ensures old(subscription).None? ==>
                s == Subscription(old(ids.next), eventType, order, filtered) && ids.next == old(ids.next) + 1
    {
      if subscription.Some? {
        return subscription.value;
      }
      var tag := ids.Fresh();
      subscription := Some(Subscription(tag, eventType, order, filtered));
      s := subscription.value;
    }
  }
}
