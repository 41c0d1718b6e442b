/** The logger behind a proxy, over every sequence of begin and end events (metrics/logger.py). */
module LoggerLifecycle {
  import opened Wrappers

  /** How setting up a logger goes: its class may raise when called, or its start method may. */
  datatype SetupOutcome = ConstructorRaises | StartRaises | Works

  /**
    The proxy's logger, which loggers were started and ended so far, and for which ones it was
    reported that ending raised; loggers are numbered as made.
   */
  datatype Life = Life(logger: Option<nat>, made: nat, started: seq<nat>, ended: seq<nat>, reported: seq<nat>) {
    function Setup(outcome: SetupOutcome): Life {
      if outcome == ConstructorRaises then this
      else Life(Some(made), made + 1, started + [made], ended, reported)
    }

    /** The logger's end method is called, and raises or not. */
    function EndCalled(): Life
      requires logger.Some?
    {
      this.(ended := ended + [logger.value])
    }

    /** The handler of an exception from end: it is reported and goes no further. */
    function EndReported(): Life
      requires logger.Some?
    {
      this.(reported := reported + [logger.value])
    }

    function Dropped(): Life {
      this.(logger := None)
    }

    /** Ending a logger, if there is one; it is dropped whether end raises or not. */
    function Teardown(endRaises: bool): Life {
      if logger == None then Dropped()
      else if endRaises then EndCalled().EndReported().Dropped()
      else EndCalled().Dropped()
    }
  }

  const NO_LOGGER_YET := Life(None, 0, [], [], [])

  datatype ProxyEvent = Begin(outcome: SetupOutcome) | End(endRaises: bool)

  function After(life: Life, events: seq<ProxyEvent>): Life
    decreases events
  {
    if events == [] then life
    else After(Next(life, events[0]), events[1..])
  }

  function Next(life: Life, event: ProxyEvent): Life {
    match event
    case Begin(outcome) => life.Setup(outcome)
    case End(endRaises) => life.Teardown(endRaises)
  }

  /** Every begin that makes a logger finds none open, and is followed by an end before the next and before the stop. */
  predicate Alternates(events: seq<ProxyEvent>, open: bool)
    decreases events
  {
    if events == [] then !open
    else
      match events[0]
      case Begin(ConstructorRaises) => Alternates(events[1..], open)
      case Begin(_) => !open && Alternates(events[1..], true)
      case End(_) => Alternates(events[1..], false)
  }

  /** What holds in every run: loggers are made one after the other, each ended at most once and only if started. */
  ghost predicate Sound(life: Life) {
    && |life.started| == life.made && (forall i :: 0 <= i < life.made ==> life.started[i] == i)
    && (forall i, j :: 0 <= i < j < |life.ended| ==> life.ended[i] < life.ended[j])
    && (forall i :: 0 <= i < |life.ended| ==> life.ended[i] < life.made)
    && (life.logger.Some? ==> life.logger.value == life.made - 1 && life.made - 1 !in life.ended)
    && |life.ended| + (if life.logger.Some? then 1 else 0) <= life.made
    && (forall i :: i in life.reported ==> i in life.ended)
  }

  /** Loggers that were replaced before they were ended. */
  function Lost(life: Life): int {
    life.made - |life.ended| - if life.logger.Some? then 1 else 0
  }

  lemma SetupKeepsSound(life: Life, outcome: SetupOutcome)
    requires Sound(life)
    ensures Sound(life.Setup(outcome))
    ensures Lost(life.Setup(outcome)) ==
            Lost(life) + if outcome != ConstructorRaises && life.logger.Some? then 1 else 0
  {
  }

  lemma TeardownKeepsSound(life: Life, endRaises: bool)
    requires Sound(life)
    ensures Sound(life.Teardown(endRaises)) && Lost(life.Teardown(endRaises)) == Lost(life)
  {
    if life.logger.Some? {
      assert life.logger.value in life.ended + [life.logger.value];
    }
  }

  /** A logger is lost when one is made while there is another, and never else. */
  lemma StepKeepsSound(life: Life, event: ProxyEvent)
    requires Sound(life)
    ensures Sound(Next(life, event))
    ensures Lost(Next(life, event)) ==
            Lost(life) + if event.Begin? && event.outcome != ConstructorRaises && life.logger.Some? then 1 else 0
  {
    match event
    case Begin(outcome) => SetupKeepsSound(life, outcome);
    case End(endRaises) => TeardownKeepsSound(life, endRaises);
  }

  lemma {:induction false} RunsKeepSound(life: Life, events: seq<ProxyEvent>)
    requires Sound(life)
    ensures Sound(After(life, events)) && Lost(life) <= Lost(After(life, events))
    decreases events
  {
    if events == [] {
    } else {
      StepKeepsSound(life, events[0]);
      RunsKeepSound(Next(life, events[0]), events[1..]);
    }
  }

  /** In any run from any sound point, nothing more is lost exactly when begins and ends alternate from there. */
  lemma {:induction false} NothingLostIffAlternating(life: Life, events: seq<ProxyEvent>)
    requires Sound(life)
    ensures Lost(After(life, events)) == Lost(life) && After(life, events).logger == None
            <==> Alternates(events, life.logger.Some?)
    decreases events
  {
    if events == [] {
    } else {
      var next := Next(life, events[0]);
      StepKeepsSound(life, events[0]);
      RunsKeepSound(next, events[1..]);
      NothingLostIffAlternating(next, events[1..]);
    }
  }

  lemma {:induction false} IncreasingBelow(ended: seq<nat>, n: nat)
    requires |ended| == n
    requires forall i, j :: 0 <= i < j < |ended| ==> ended[i] < ended[j]
    requires forall i :: 0 <= i < |ended| ==> ended[i] < n
    ensures forall i :: 0 <= i < n ==> ended[i] == i
  {
    forall i | 0 <= i < n
      ensures ended[i] == i
    {
      AtLeastItsPlace(ended, i);
      AtMostItsPlace(ended, n, i);
    }
  }

  lemma {:induction false} AtLeastItsPlace(ended: seq<nat>, i: nat)
    requires i < |ended|
    requires forall i, j :: 0 <= i < j < |ended| ==> ended[i] < ended[j]
    ensures ended[i] >= i
  {
    if i == 0 {
    } else {
      AtLeastItsPlace(ended, i - 1);
    }
  }

  lemma {:induction false} AtMostItsPlace(ended: seq<nat>, n: nat, i: nat)
    requires i < |ended| == n
    requires forall i, j :: 0 <= i < j < |ended| ==> ended[i] < ended[j]
    requires forall i :: 0 <= i < |ended| ==> ended[i] < n
    ensures ended[i] <= i
    decreases n - i
  {
    if i + 1 >= n {
    } else {
      AtMostItsPlace(ended, n, i + 1);
    }
  }

  /**
    Every logger that was started is ended, once and in the same order, and none is left over,
    exactly on the runs in which begins and ends alternate, whichever of the ends raise.
   */
  lemma EachLoggerEndedOnce(events: seq<ProxyEvent>)
    ensures var life := After(NO_LOGGER_YET, events);
            (life.started == life.ended && life.logger == None <==> Alternates(events, false))
            && Sound(life)
  {
    var life := After(NO_LOGGER_YET, events);
    RunsKeepSound(NO_LOGGER_YET, events);
    NothingLostIffAlternating(NO_LOGGER_YET, events);
    if life.logger == None && Lost(life) == 0 {
      IncreasingBelow(life.ended, life.made);
      assert life.started == life.ended;
    }
  }

  /** The same events, except for which ends raise. */
  predicate SameButForRaising(a: seq<ProxyEvent>, b: seq<ProxyEvent>) {
    |a| == |b| && forall i :: 0 <= i < |a| ==> a[i] == b[i] || (a[i].End? && b[i].End?)
  }

  /** Which ends raise shows in the reports and nowhere else. */
  lemma {:induction false} RaisingEndsAreContained(life: Life, other: Life, a: seq<ProxyEvent>, b: seq<ProxyEvent>)
    requires SameButForRaising(a, b) && life.(reported := []) == other.(reported := [])
    ensures After(life, a).(reported := []) == After(other, b).(reported := [])
    decreases a
  {
    if a == [] {
    } else {
      RaisingEndsAreContained(Next(life, a[0]), Next(other, b[0]), a[1..], b[1..]);
    }
  }

  /** The begins that make a logger. */
  function Makings(events: seq<ProxyEvent>): nat {
    if events == [] then 0
    else (if events[0].Begin? && events[0].outcome != ConstructorRaises then 1 else 0) + Makings(events[1..])
  }

  lemma {:induction false} EveryMakingIsANewLogger(life: Life, events: seq<ProxyEvent>)
    ensures After(life, events).made == life.made + Makings(events)
    decreases events
  {
    if events == [] {
    } else {
      EveryMakingIsANewLogger(Next(life, events[0]), events[1..]);
    }
  }
}
