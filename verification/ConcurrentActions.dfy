/**
  run_concurrent_actions and its relatives in acts/utils.py, under every interleaving of the
  worker threads. The test of first_exception and the assignment to it are separate steps.
 */
module ConcurrentActions {
  import opened Wrappers

  /** How a call ends; values and exceptions are known by their identity. */
  datatype Call = Returns(v: int) | Raises(e: int)

  /** What a future holds: the call's value, or the exception that wraps the call's own. */
  datatype Future = Value(v: int) | Wrapped

  datatype Worker = Running | Raised | SawNone | Done(future: Future)

  datatype Machine = Machine(workers: seq<Worker>, firstException: Option<int>)

  datatype Result = Returned(values: seq<int>) | Raise(e: int) | ValueError

  function Start(calls: seq<Call>): Machine {
    Machine(seq(|calls|, i => Running), None)
  }

  /** Thread i takes one step. */
  function Step(calls: seq<Call>, m: Machine, i: nat): Machine
    requires |m.workers| == |calls|
  {
    if i >= |calls| then m
    else
      match m.workers[i]
      case Running =>
        m.(workers := m.workers[i := if calls[i].Returns? then Done(Value(calls[i].v)) else Raised])
      case Raised =>
        m.(workers := m.workers[i := if m.firstException == None then SawNone else Done(Wrapped)])
      case SawNone =>
        Machine(m.workers[i := Done(Wrapped)], if calls[i].Raises? then Some(calls[i].e) else None)
      case Done(_) => m
  }

  function Run(calls: seq<Call>, m: Machine, schedule: seq<nat>): (r: Machine)
    requires |m.workers| == |calls|
    ensures |r.workers| == |calls|
    decreases schedule
  {
    if schedule == [] then m else Run(calls, Step(calls, m, schedule[0]), schedule[1..])
  }

  /** The pool is only left when every worker is done. */
  predicate AllDone(m: Machine) {
    forall i :: 0 <= i < |m.workers| ==> m.workers[i].Done?
  }

  // ---------- the code around the pool ----------

  /** schedule is the order in which the threads took their steps. */
  method RunConcurrentActions(calls: seq<Call>, schedule: seq<nat>) returns (result: Result)
    requires AllDone(Run(calls, Start(calls), schedule))
    ensures result == Outcome(calls, Run(calls, Start(calls), schedule))
    ensures calls == [] ==> result == ValueError
    ensures calls != [] && (forall i :: 0 <= i < |calls| ==> calls[i].Returns?) ==>
              result.Returned? && |result.values| == |calls|
              && forall i :: 0 <= i < |calls| ==> result.values[i] == calls[i].v
    ensures (exists i :: 0 <= i < |calls| && calls[i].Raises?) ==> result.Raise? && Raises(result.e) in calls
  {
    if |calls| == 0 {
      // a pool of no workers cannot be made
      return ValueError;
    }
    OutcomeIsRight(calls, schedule);
    var m := RunPool(calls, schedule);
    var results := CollectResults(m.workers);
    if m.firstException.Some? {
      return Raise(m.firstException.value);
    }
    result := Returned(results);
  }

  method RunPool(calls: seq<Call>, schedule: seq<nat>) returns (m: Machine)
    ensures m == Run(calls, Start(calls), schedule)
  {
    m := Start(calls);
    for k := 0 to |schedule|
      invariant |m.workers| == |calls|
      invariant Run(calls, m, schedule[k..]) == Run(calls, Start(calls), schedule)
    {
      assert schedule[k..][1..] == schedule[k + 1..];
      m := Step(calls, m, schedule[k]);
    }
  }

  method CollectResults(workers: seq<Worker>) returns (results: seq<int>)
    requires forall i :: 0 <= i < |workers| ==> workers[i].Done?
    ensures results == Values(workers)
  {
    results := [];
    var i := 0;
    while i < |workers| && workers[i].future.Value?
      invariant 0 <= i <= |workers|
      invariant results + Values(workers[i..]) == Values(workers)
    {
      assert workers[i..][1..] == workers[i + 1..];
      results := results + [workers[i].future.v];
      i := i + 1;
    }
  }

  /** The values of the futures up to the first that holds an exception. */
  function Values(workers: seq<Worker>): seq<int> {
    if workers == [] || !workers[0].Done? || workers[0].future.Wrapped? then []
    else [workers[0].future.v] + Values(workers[1..])
  }

  function Outcome(calls: seq<Call>, m: Machine): Result {
    if calls == [] then ValueError
    else if m.firstException.Some? then Raise(m.firstException.value)
    else Returned(Values(m.workers))
  }

  // ---------- every reachable state ----------

  ghost predicate WorkerFits(call: Call, w: Worker, first: Option<int>) {
    match w
    case Running => true
    case Raised => call.Raises?
    case SawNone => call.Raises?
    case Done(Value(v)) => call == Returns(v)
    case Done(Wrapped) => call.Raises? && first.Some?
  }

  ghost predicate Inv(calls: seq<Call>, m: Machine) {
    && |m.workers| == |calls|
    && (forall i :: 0 <= i < |calls| ==> WorkerFits(calls[i], m.workers[i], m.firstException))
    && (m.firstException.Some? ==> Raises(m.firstException.value) in calls)
  }

  /** Any step of any thread keeps the invariant, and never clears first_exception. */
  lemma StepKeepsInv(calls: seq<Call>, m: Machine, i: nat)
    requires Inv(calls, m)
    ensures Inv(calls, Step(calls, m, i))
    ensures m.firstException.Some? ==> Step(calls, m, i).firstException.Some?
  {
    if i < |calls| {
      assert WorkerFits(calls[i], m.workers[i], m.firstException);
    }
  }

  lemma {:induction false} RunKeepsInv(calls: seq<Call>, m: Machine, schedule: seq<nat>)
    requires Inv(calls, m)
    ensures Inv(calls, Run(calls, m, schedule))
    ensures m.firstException.Some? ==> Run(calls, m, schedule).firstException.Some?
    decreases schedule
  {
    if schedule == [] {
    } else {
      StepKeepsInv(calls, m, schedule[0]);
      RunKeepsInv(calls, Step(calls, m, schedule[0]), schedule[1..]);
    }
  }

  lemma {:induction false} AllValues(calls: seq<Call>, workers: seq<Worker>)
    requires |workers| == |calls|
    requires forall i :: 0 <= i < |calls| ==> calls[i].Returns? && workers[i] == Done(Value(calls[i].v))
    ensures |Values(workers)| == |calls|
    ensures forall i :: 0 <= i < |calls| ==> Values(workers)[i] == calls[i].v
  {
    if calls == [] {
    } else {
      AllValues(calls[1..], workers[1..]);
    }
  }

  /** Under every schedule: the values in call order, or an exception that some call really raised. */
  lemma OutcomeIsRight(calls: seq<Call>, schedule: seq<nat>)
    requires AllDone(Run(calls, Start(calls), schedule)) && calls != []
    ensures var result := Outcome(calls, Run(calls, Start(calls), schedule));
            && (result.Returned? <==> forall i :: 0 <= i < |calls| ==> calls[i].Returns?)
            && (result.Returned? ==> |result.values| == |calls|
                                     && forall i :: 0 <= i < |calls| ==> result.values[i] == calls[i].v)
            && (!result.Returned? ==> result.Raise? && Raises(result.e) in calls)
  {
    RunKeepsInv(calls, Start(calls), schedule);
    var m := Run(calls, Start(calls), schedule);
    assert forall i :: 0 <= i < |calls| ==> WorkerFits(calls[i], m.workers[i], m.firstException);
    if m.firstException == None {
      AllValues(calls, m.workers);
    } else {
      var i :| 0 <= i < |calls| && calls[i] == Raises(m.firstException.value);
    }
  }

  // ---------- the race on first_exception ----------

  predicate NobodyAboutToWrite(m: Machine) {
    forall i :: 0 <= i < |m.workers| ==> m.workers[i] != SawNone
  }

  predicate NobodyElseAboutToWrite(m: Machine, i: nat) {
    forall j :: 0 <= j < |m.workers| && j != i ==> m.workers[j] != SawNone
  }

  /** Thread i assigns to first_exception, and no other thread that found it empty has yet to assign. */
  predicate AssignsLast(calls: seq<Call>, m: Machine, schedule: seq<nat>, i: nat)
    requires |m.workers| == |calls|
    decreases schedule
  {
    schedule != [] &&
    if schedule[0] == i < |calls| && m.workers[i] == SawNone then NobodyElseAboutToWrite(m, i)
    else AssignsLast(calls, Step(calls, m, schedule[0]), schedule[1..], i)
  }

  /** The thread of the last assignment. */
  function LastToAssign(calls: seq<Call>, m: Machine, schedule: seq<nat>): (w: Option<nat>)
    requires |m.workers| == |calls|
    ensures w.Some? ==> w.value < |calls|
    decreases schedule
  {
    if schedule == [] then None
    else
      var later := LastToAssign(calls, Step(calls, m, schedule[0]), schedule[1..]);
      if later == None && schedule[0] < |calls| && m.workers[schedule[0]] == SawNone then Some(schedule[0]) else later
  }

  lemma {:induction false} LastAssignmentStays(calls: seq<Call>, m: Machine, schedule: seq<nat>)
    requires Inv(calls, m)
    ensures var w := LastToAssign(calls, m, schedule);
            && (w.Some? ==> calls[w.value].Raises?)
            && Run(calls, m, schedule).firstException ==
               if w.Some? then Some(calls[w.value].e) else m.firstException
    decreases schedule
  {
    if schedule == [] {
    } else {
      StepKeepsInv(calls, m, schedule[0]);
      LastAssignmentStays(calls, Step(calls, m, schedule[0]), schedule[1..]);
      assert schedule[0] < |calls| ==> WorkerFits(calls[schedule[0]], m.workers[schedule[0]], m.firstException);
    }
  }

  lemma PendingAfterStep(calls: seq<Call>, m: Machine, i: nat)
    requires |m.workers| == |calls| && m.firstException.Some?
    ensures var next := Step(calls, m, i);
            && (forall j :: 0 <= j < |calls| ==> (next.workers[j] == SawNone <==> m.workers[j] == SawNone && j != i))
  {
  }

  lemma AssignmentEndsPending(calls: seq<Call>, m: Machine, i: nat)
    requires |m.workers| == |calls| && i < |calls| && m.workers[i] == SawNone
    ensures NobodyElseAboutToWrite(m, i) <==> NobodyAboutToWrite(Step(calls, m, i))
    ensures Step(calls, m, i).workers[i] != SawNone
  {
    var next := Step(calls, m, i);
    assert forall j :: 0 <= j < |calls| && j != i ==> next.workers[j] == m.workers[j];
  }

  /** Once first_exception is set, only threads that had found it empty before still assign, and they all do. */
  lemma {:induction false} OnlyPendingAssign(calls: seq<Call>, m: Machine, schedule: seq<nat>)
    requires Inv(calls, m) && m.firstException.Some? && NobodyAboutToWrite(Run(calls, m, schedule))
    ensures var w := LastToAssign(calls, m, schedule);
            && (w == None <==> NobodyAboutToWrite(m))
            && (w.Some? ==> m.workers[w.value] == SawNone)
    decreases schedule
  {
    if schedule == [] {
    } else {
      StepKeepsInv(calls, m, schedule[0]);
      OnlyPendingAssign(calls, Step(calls, m, schedule[0]), schedule[1..]);
      PendingAfterStep(calls, m, schedule[0]);
    }
  }

  /** In a finished run the thread that assigns while nobody else is about to is the last one to assign. */
  lemma {:induction false} AssignsLastMeansLast(calls: seq<Call>, m: Machine, schedule: seq<nat>, i: nat)
    requires Inv(calls, m) && NobodyAboutToWrite(Run(calls, m, schedule))
    ensures AssignsLast(calls, m, schedule, i) <==> LastToAssign(calls, m, schedule) == Some(i)
    decreases schedule
  {
    if schedule == [] {
    } else {
      var next := Step(calls, m, schedule[0]);
      StepKeepsInv(calls, m, schedule[0]);
      if schedule[0] == i < |calls| && m.workers[i] == SawNone {
        assert WorkerFits(calls[i], m.workers[i], m.firstException);
        OnlyPendingAssign(calls, next, schedule[1..]);
        AssignmentEndsPending(calls, m, i);
      } else {
        AssignsLastMeansLast(calls, next, schedule[1..], i);
      }
    }
  }

  /**
    Under every schedule that finishes, an exception is the one raised exactly when it is that of
    a thread that assigned while no other thread that had found first_exception empty was left.
   */
  lemma RaisedIffAssignedLast(calls: seq<Call>, schedule: seq<nat>, e: int)
    requires AllDone(Run(calls, Start(calls), schedule)) && calls != []
    ensures Outcome(calls, Run(calls, Start(calls), schedule)) == Raise(e) <==>
            exists i :: 0 <= i < |calls| && calls[i] == Raises(e) && AssignsLast(calls, Start(calls), schedule, i)
  {
    var start := Start(calls);
    var w := LastToAssign(calls, start, schedule);
    LastAssignmentStays(calls, start, schedule);
    forall i | 0 <= i < |calls|
      ensures AssignsLast(calls, start, schedule, i) <==> w == Some(i)
    {
      AssignsLastMeansLast(calls, start, schedule, i);
    }
    if w.Some? && calls[w.value] == Raises(e) {
      assert AssignsLast(calls, start, schedule, w.value);
    }
  }

  /** Each exception raised is an object of its own. */
  predicate DistinctExceptions(calls: seq<Call>) {
    forall i, j :: 0 <= i < j < |calls| && calls[i].Raises? ==> calls[i] != calls[j]
  }

  lemma ThreadIsHeardIff(calls: seq<Call>, schedule: seq<nat>, i: nat)
    requires AllDone(Run(calls, Start(calls), schedule)) && DistinctExceptions(calls)
    requires i < |calls| && calls[i].Raises?
    ensures Outcome(calls, Run(calls, Start(calls), schedule)) == Raise(calls[i].e) <==>
            AssignsLast(calls, Start(calls), schedule, i)
  {
    RaisedIffAssignedLast(calls, schedule, calls[i].e);
    if j :| 0 <= j < |calls| && calls[j] == Raises(calls[i].e) && AssignsLast(calls, Start(calls), schedule, j) {
      assert i == j;
    }
  }

  // ---------- caught first, tested first, raised ----------

  /** The first thread of the schedule whose call raises. */
  function FirstToCatch(calls: seq<Call>, m: Machine, schedule: seq<nat>): (i: Option<nat>)
    requires |m.workers| == |calls|
    ensures i.Some? ==> i.value < |calls| && calls[i.value].Raises?
    decreases schedule
  {
    if schedule == [] then None
    else if schedule[0] < |calls| && m.workers[schedule[0]] == Running && calls[schedule[0]].Raises? then
      Some(schedule[0])
    else FirstToCatch(calls, Step(calls, m, schedule[0]), schedule[1..])
  }

  lemma {:induction false} SomebodyCatchesFirst(calls: seq<Call>, m: Machine, schedule: seq<nat>, i: nat)
    requires |m.workers| == |calls| && i < |calls| && calls[i].Raises? && m.workers[i] == Running
    requires Run(calls, m, schedule).workers[i] != Running
    ensures FirstToCatch(calls, m, schedule).Some?
    decreases schedule
  {
    if schedule[0] == i {
    } else {
      SomebodyCatchesFirst(calls, Step(calls, m, schedule[0]), schedule[1..], i);
    }
  }

  /**
    The promise that the first exception caught is raised: it is kept exactly on the schedules in
    which the thread that catches first assigns, and does so while no other assignment is pending.
   */
  lemma FirstCaughtIsRaisedIff(calls: seq<Call>, schedule: seq<nat>)
    requires AllDone(Run(calls, Start(calls), schedule)) && DistinctExceptions(calls)
    requires exists i :: 0 <= i < |calls| && calls[i].Raises?
    ensures var first := FirstToCatch(calls, Start(calls), schedule);
            first.Some? &&
            (Outcome(calls, Run(calls, Start(calls), schedule)) == Raise(calls[first.value].e) <==>
             AssignsLast(calls, Start(calls), schedule, first.value))
  {
    var i :| 0 <= i < |calls| && calls[i].Raises?;
    SomebodyCatchesFirst(calls, Start(calls), schedule, i);
    ThreadIsHeardIff(calls, schedule, FirstToCatch(calls, Start(calls), schedule).value);
  }

  /** The first thread of the schedule to test first_exception. */
  function FirstToTest(calls: seq<Call>, m: Machine, schedule: seq<nat>): (i: Option<nat>)
    requires |m.workers| == |calls|
    ensures i.Some? ==> i.value < |calls|
    decreases schedule
  {
    if schedule == [] then None
    else if schedule[0] < |calls| && m.workers[schedule[0]] == Raised then Some(schedule[0])
    else FirstToTest(calls, Step(calls, m, schedule[0]), schedule[1..])
  }

  lemma {:induction false} SomebodyTestsFirst(calls: seq<Call>, m: Machine, schedule: seq<nat>, i: nat)
    requires Inv(calls, m) && i < |calls| && calls[i].Raises? && (m.workers[i] == Running || m.workers[i] == Raised)
    requires Run(calls, m, schedule).workers[i].Done?
    ensures var first := FirstToTest(calls, m, schedule); first.Some? && calls[first.value].Raises?
    decreases schedule
  {
    var t := schedule[0];
    if t < |calls| && m.workers[t] == Raised {
      assert WorkerFits(calls[t], m.workers[t], m.firstException);
    } else {
      StepKeepsInv(calls, m, t);
      SomebodyTestsFirst(calls, Step(calls, m, t), schedule[1..], i);
    }
  }

  /** The same for the thread that tests first, which need not be the one that catches first. */
  lemma FirstTestedIsRaisedIff(calls: seq<Call>, schedule: seq<nat>)
    requires AllDone(Run(calls, Start(calls), schedule)) && DistinctExceptions(calls)
    requires exists i :: 0 <= i < |calls| && calls[i].Raises?
    ensures var first := FirstToTest(calls, Start(calls), schedule);
            && first.Some? && calls[first.value].Raises?
            && (Outcome(calls, Run(calls, Start(calls), schedule)) == Raise(calls[first.value].e) <==>
                AssignsLast(calls, Start(calls), schedule, first.value))
  {
    var i :| 0 <= i < |calls| && calls[i].Raises?;
    SomebodyTestsFirst(calls, Start(calls), schedule, i);
    ThreadIsHeardIff(calls, schedule, FirstToTest(calls, Start(calls), schedule).value);
  }

  /** A thread that found first_exception empty fills it before any other thread moves. */
  ghost predicate Atomic(calls: seq<Call>, m: Machine, schedule: seq<nat>)
    requires |m.workers| == |calls|
    decreases schedule
  {
    schedule == [] ||
    ((forall i :: 0 <= i < |calls| && m.workers[i] == SawNone ==> schedule[0] == i)
     && Atomic(calls, Step(calls, m, schedule[0]), schedule[1..]))
  }

  /** Without interference between test and assignment, the thread that tests first assigns alone. */
  lemma {:induction false} AtomicKeepsFirstTested(calls: seq<Call>, m: Machine, schedule: seq<nat>)
    requires Inv(calls, m) && NobodyAboutToWrite(m) && m.firstException == None
    requires Atomic(calls, m, schedule) && NobodyAboutToWrite(Run(calls, m, schedule))
    ensures var first := FirstToTest(calls, m, schedule);
            first.Some? ==> AssignsLast(calls, m, schedule, first.value)
    decreases schedule
  {
    if schedule == [] {
    } else {
      var i, next := schedule[0], Step(calls, m, schedule[0]);
      StepKeepsInv(calls, m, i);
      if i < |calls| && m.workers[i] == Raised {
        assert next.workers[i] == SawNone;
        assert schedule[1..] == [] ==> Run(calls, m, schedule) == next;
        assert schedule[1..][0] == i;
      } else {
        AtomicKeepsFirstTested(calls, next, schedule[1..]);
      }
    }
  }

  /** A lock around test and assignment keeps the first exception tested, whether or not it was caught first. */
  lemma WithoutInterferenceFirstTestedIsRaised(calls: seq<Call>, schedule: seq<nat>)
    requires AllDone(Run(calls, Start(calls), schedule)) && DistinctExceptions(calls)
    requires exists i :: 0 <= i < |calls| && calls[i].Raises?
    requires Atomic(calls, Start(calls), schedule)
    ensures var caught := FirstToCatch(calls, Start(calls), schedule);
            var tested := FirstToTest(calls, Start(calls), schedule);
            var outcome := Outcome(calls, Run(calls, Start(calls), schedule));
            && caught.Some? && tested.Some? && calls[tested.value].Raises?
            && outcome == Raise(calls[tested.value].e)
            && (outcome == Raise(calls[caught.value].e) <==> caught == tested)
  {
    FirstCaughtIsRaisedIff(calls, schedule);
    FirstTestedIsRaisedIff(calls, schedule);
    AtomicKeepsFirstTested(calls, Start(calls), schedule);
  }

  /** With interference the exception tested first can be overwritten by a later one. */
  lemma RaceOverwrites()
    ensures var calls, schedule := [Raises(1), Raises(2)], [0, 1, 0, 1, 0, 1];
            && AllDone(Run(calls, Start(calls), schedule))
            && FirstToCatch(calls, Start(calls), schedule) == Some(0)
            && FirstToTest(calls, Start(calls), schedule) == Some(0)
            && Outcome(calls, Run(calls, Start(calls), schedule)) == Raise(2)
  {
  }

  /** Without interference the exception caught first can still lose to one that is tested first. */
  lemma CaughtFirstTestedSecond()
    ensures var calls, schedule := [Raises(1), Raises(2)], [0, 1, 1, 1, 0];
            && AllDone(Run(calls, Start(calls), schedule)) && Atomic(calls, Start(calls), schedule)
            && FirstToCatch(calls, Start(calls), schedule) == Some(0)
            && FirstToTest(calls, Start(calls), schedule) == Some(1)
            && Outcome(calls, Run(calls, Start(calls), schedule)) == Raise(2)
  {
  }
}
