/** Events, subscriptions and the identities the bus uses, from acts/event. */
module Events {

  /** The event classes of event.py and context.py; Other stands for a user's own. */
  datatype EventType =
    | ObjectType
    | Event
    | TestEvent
    | TestCaseEvent
    | TestCaseSignalEvent
    | TestCaseBeginEvent
    | TestCaseEndEvent
    | TestCaseSkippedEvent
    | TestCaseFailureEvent
    | TestCasePassedEvent
    | TestClassEvent
    | TestClassBeginEvent
    | TestClassEndEvent
    | NewContextEvent
    | NewTestClassContextEvent
    | NewTestCaseContextEvent
    | Other(n: nat)

  /** An event object: the method resolution order of its type, most specific first, and what it names. */
  datatype EventObject = EventObject(mro: seq<EventType>, testClass: nat, testCase: nat) {
    predicate IsInstance(t: EventType) {
      t in mro
    }
  }

  predicate Distinct(types: seq<EventType>) {
    forall i, j :: 0 <= i < j < |types| ==> types[i] != types[j]
  }

  /**
    A subscription object. Its attributes never change once it is made; tag tells apart
    objects that share all of them, so that equality is object identity.
   */
  datatype Subscription = Subscription(tag: nat, eventType: EventType, order: int, filtered: bool)

  /** id(subscription), or an integer that is the id of no subscription. */
  datatype RegistrationId = IdOf(subscription: Subscription) | Stray(n: int)

  /** What unregister can be given besides a handle. */
  datatype Token = ByObject(subscription: Subscription) | ById(id: RegistrationId) | NotAnId

  datatype UnregisterResult = Unregistered | NotFound | ValueError

  /** The resolution orders of the events that the test runner posts. */
  const CASE_BEGIN_MRO := [TestCaseBeginEvent, TestCaseEvent, TestEvent, Event, ObjectType]
  const CASE_END_MRO := [TestCaseEndEvent, TestCaseSignalEvent, TestCaseEvent, TestEvent, Event, ObjectType]
  const CLASS_BEGIN_MRO := [TestClassBeginEvent, TestClassEvent, TestEvent, Event, ObjectType]
  const CLASS_END_MRO := [TestClassEndEvent, TestClassEvent, TestEvent, Event, ObjectType]
}
