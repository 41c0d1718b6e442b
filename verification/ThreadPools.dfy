/**
  run_concurrent_actions_no_raise and concurrent_exec of acts/utils.py: a pool of threads that
  takes submitted calls from a queue, under every interleaving of the main thread and the workers.
 */
module ThreadPools {
  import opened Wrappers
  import opened ConcurrentActions

  /**
    Calls are numbered in the order of the list. The first submitted ones are in the pool, the first
    started ones have left its queue, and a result is a future that is done. completed has the calls
    in order of completion, yielded those that as_completed has given to the main thread.
   */
  datatype Pool = Pool(submitted: nat, started: nat, busy: set<nat>, results: map<nat, Call>,
                       completed: seq<nat>, yielded: seq<nat>)

  const EMPTY_POOL := Pool(0, 0, {}, map[], [], [])

  /** The main thread submits the next call or is given a finished future; a worker picks a call or finishes one. */
  datatype Move = Submit | Pick | Finish(i: nat) | Yield(i: nat)

  /** What a move does; a move that is not possible does nothing. */
  function Moved(calls: seq<Call>, limit: nat, p: Pool, move: Move): Pool {
    match move
    case Submit => if p.submitted < |calls| then p.(submitted := p.submitted + 1) else p
    case Pick =>
      if p.started < p.submitted && |p.busy| < limit then
        p.(started := p.started + 1, busy := p.busy + {p.started})
      else p
    case Finish(i) =>
      if i in p.busy && i < |calls| then
        p.(busy := p.busy - {i}, results := p.results[i := calls[i]], completed := p.completed + [i])
      else p
    case Yield(i) => if MayYield(calls, p, i) then p.(yielded := p.yielded + [i]) else p
  }

  /** as_completed is called when everything is submitted; it yields each future once, and only when it is done. */
  predicate MayYield(calls: seq<Call>, p: Pool, i: nat) {
    p.submitted == |calls| && i in p.results && i !in p.yielded
  }

  function RunMoves(calls: seq<Call>, limit: nat, p: Pool, moves: seq<Move>): Pool
    decreases moves
  {
    if moves == [] then p else RunMoves(calls, limit, Moved(calls, limit, p, moves[0]), moves[1..])
  }

  // ---------- every reachable state ----------

  predicate Distinct(xs: seq<nat>) {
    forall i, j :: 0 <= i < j < |xs| ==> xs[i] != xs[j]
  }

  /**
    No more calls run than the pool has threads, calls leave the queue in order, each runs at most
    once, a future holds the outcome of its own call, and each is yielded at most once and only when
    it is done and everything has been submitted.
   */
  ghost predicate PoolInv(calls: seq<Call>, limit: nat, p: Pool) {
    && p.started <= p.submitted <= |calls| && |p.busy| <= limit
    && (forall i: nat :: i in p.busy || i in p.results <==> i < p.started)
    && (forall i: nat :: !(i in p.busy && i in p.results))
    && (forall i: nat :: i in p.results ==> i < |calls| && p.results[i] == calls[i])
    && Distinct(p.completed) && (forall i: nat :: i in p.completed <==> i in p.results)
    && Distinct(p.yielded) && (forall i: nat :: i in p.yielded ==> i in p.results)
    && (p.yielded != [] ==> p.submitted == |calls|)
  }

  lemma AppendKeepsDistinct(xs: seq<nat>, x: nat)
    requires Distinct(xs) && x !in xs
    ensures Distinct(xs + [x])
  {
  }

  lemma MoveKeepsInv(calls: seq<Call>, limit: nat, p: Pool, move: Move)
    requires PoolInv(calls, limit, p)
    ensures PoolInv(calls, limit, Moved(calls, limit, p, move))
  {
    match move
    case Submit =>
    case Pick =>
    case Finish(i) =>
      if i in p.busy {
        AppendKeepsDistinct(p.completed, i);
      }
    case Yield(i) =>
      if MayYield(calls, p, i) {
        AppendKeepsDistinct(p.yielded, i);
      }
  }

  lemma {:induction false} MovesKeepInv(calls: seq<Call>, limit: nat, p: Pool, moves: seq<Move>)
    requires PoolInv(calls, limit, p)
    ensures PoolInv(calls, limit, RunMoves(calls, limit, p, moves))
    decreases moves
  {
    if moves == [] {
    } else {
      MoveKeepsInv(calls, limit, p, moves[0]);
      MovesKeepInv(calls, limit, Moved(calls, limit, p, moves[0]), moves[1..]);
    }
  }

  // ---------- run_concurrent_actions_no_raise ----------

  /** The pool is left when every submitted call has finished. */
  predicate AllFinished(calls: seq<Call>, p: Pool) {
    forall i :: 0 <= i < |calls| ==> i in p.results
  }

  /** With a thread for every call: the outcomes in call order, whatever the schedule was. */
  method RunConcurrentActionsNoRaise(calls: seq<Call>, moves: seq<Move>) returns (results: Option<seq<Call>>)
    requires AllFinished(calls, RunMoves(calls, |calls|, EMPTY_POOL, moves))
    ensures results == if calls == [] then None else Some(calls)
  {
    if |calls| == 0 {
      // a pool of no workers cannot be made
      return None;
    }
    MovesKeepInv(calls, |calls|, EMPTY_POOL, moves);
    var p := RunPool(calls, |calls|, moves);
    var collected: seq<Call> := [];
    for i := 0 to |calls|
      invariant collected == calls[..i]
    {
      collected := collected + [p.results[i]];
    }
    assert calls[..|calls|] == calls;
    results := Some(collected);
  }

  method RunPool(calls: seq<Call>, limit: nat, moves: seq<Move>) returns (p: Pool)
    ensures p == RunMoves(calls, limit, EMPTY_POOL, moves)
  {
    p := EMPTY_POOL;
    for k := 0 to |moves|
      invariant RunMoves(calls, limit, p, moves[k..]) == RunMoves(calls, limit, EMPTY_POOL, moves)
    {
      assert moves[k..][1..] == moves[k + 1..];
      p := Moved(calls, limit, p, moves[k]);
    }
  }

  // ---------- concurrent_exec ----------

  const MAX_WORKERS: nat := 30

  /** At no moment does concurrent_exec have more than thirty calls running, and those are the earliest unfinished. */
  lemma AtMostThirtyRun(calls: seq<Call>, moves: seq<Move>)
    ensures var p := RunMoves(calls, MAX_WORKERS, EMPTY_POOL, moves);
            && |p.busy| <= 30
            && forall i: nat, j: nat :: i in p.busy && j < i ==> j in p.busy || j in p.results
  {
    MovesKeepInv(calls, MAX_WORKERS, EMPTY_POOL, moves);
  }

  /** The outcomes of the calls with the given numbers, in that order. */
  predicate AreOutcomes(calls: seq<Call>, order: seq<nat>, outcomes: seq<Call>) {
    && |outcomes| == |order|
    && forall j :: 0 <= j < |order| ==> order[j] < |calls| && outcomes[j] == calls[order[j]]
  }

  /**
    The outcomes, values and exceptions alike, in the order in which as_completed yields the futures:
    under every schedule that ends, each of them once.
   */
  method ConcurrentExec(calls: seq<Call>, moves: seq<Move>) returns (returnVals: seq<Call>)
    requires |RunMoves(calls, MAX_WORKERS, EMPTY_POOL, moves).yielded| == |calls|
    ensures var order := RunMoves(calls, MAX_WORKERS, EMPTY_POOL, moves).yielded;
            IsPermutation(order, |calls|) && AreOutcomes(calls, order, returnVals)
    ensures multiset(returnVals) == multiset(calls)
  {
    var p := EMPTY_POOL;
    returnVals := [];
    for k := 0 to |moves|
      invariant PoolInv(calls, MAX_WORKERS, p)
      invariant RunMoves(calls, MAX_WORKERS, p, moves[k..]) == RunMoves(calls, MAX_WORKERS, EMPTY_POOL, moves)
      invariant AreOutcomes(calls, p.yielded, returnVals)
    {
      assert moves[k..][1..] == moves[k + 1..];
      MoveKeepsInv(calls, MAX_WORKERS, p, moves[k]);
      if moves[k].Yield? && MayYield(calls, p, moves[k].i) {
        returnVals := returnVals + [p.results[moves[k].i]];
      }
      p := Moved(calls, MAX_WORKERS, p, moves[k]);
    }
    PermutedIsPermutation(calls, p.yielded, returnVals);
  }

  /** As when no future is done before as_completed starts: each one yielded has been done for longest. */
  predicate YieldsOldest(calls: seq<Call>, p: Pool, moves: seq<Move>)
    decreases moves
  {
    moves == [] ||
    (&& (moves[0].Yield? && MayYield(calls, p, moves[0].i) ==>
           |p.yielded| < |p.completed| && moves[0].i == p.completed[|p.yielded|])
     && YieldsOldest(calls, Moved(calls, MAX_WORKERS, p, moves[0]), moves[1..]))
  }

  lemma MoveKeepsPrefix(calls: seq<Call>, p: Pool, move: Move)
    requires p.yielded <= p.completed && YieldsOldest(calls, p, [move])
    ensures var next := Moved(calls, MAX_WORKERS, p, move); next.yielded <= next.completed
  {
  }

  lemma {:induction false} YieldedInOrderOfCompletion(calls: seq<Call>, p: Pool, moves: seq<Move>)
    requires PoolInv(calls, MAX_WORKERS, p) && p.yielded <= p.completed && YieldsOldest(calls, p, moves)
    ensures var end := RunMoves(calls, MAX_WORKERS, p, moves); end.yielded <= end.completed
    decreases moves
  {
    if moves == [] {
    } else {
      MoveKeepsInv(calls, MAX_WORKERS, p, moves[0]);
      MoveKeepsPrefix(calls, p, moves[0]);
      YieldedInOrderOfCompletion(calls, Moved(calls, MAX_WORKERS, p, moves[0]), moves[1..]);
    }
  }

  /** Then the results of a run that ends are the outcomes in order of completion. */
  lemma ResultsInOrderOfCompletion(calls: seq<Call>, moves: seq<Move>)
    requires YieldsOldest(calls, EMPTY_POOL, moves)
    ensures var end := RunMoves(calls, MAX_WORKERS, EMPTY_POOL, moves);
            |end.yielded| == |calls| ==> end.yielded == end.completed
  {
    var end := RunMoves(calls, MAX_WORKERS, EMPTY_POOL, moves);
    MovesKeepInv(calls, MAX_WORKERS, EMPTY_POOL, moves);
    YieldedInOrderOfCompletion(calls, EMPTY_POOL, moves);
    if |end.yielded| == |calls| < |end.completed| {
      forall k | 0 <= k < |end.completed|
        ensures end.completed[k] < |calls|
      {
        assert end.completed[k] in end.completed;
      }
      Pigeonhole(end.completed, |calls|);
    }
  }

  // ---------- orders that are permutations ----------

  predicate IsPermutation(order: seq<nat>, n: nat) {
    |order| == n && Distinct(order) && forall i :: 0 <= i < n ==> order[i] < n
  }

  lemma {:induction false} PermutedIsPermutation(calls: seq<Call>, order: seq<nat>, permuted: seq<Call>)
    requires IsPermutation(order, |calls|) && |permuted| == |calls|
    requires forall i :: 0 <= i < |calls| ==> permuted[i] == calls[order[i]]
    ensures multiset(permuted) == multiset(calls)
    decreases |calls|
  {
    if calls == [] {
    } else {
      var n := |calls| - 1;
      var at := PlaceOf(order, n);
      // drop the call with the largest number, and its place in the order of order
      PermutedIsPermutation(calls[..n], Dropped(order, at), Dropped(permuted, at));
      DroppedElement(permuted, at);
      assert calls == calls[..n] + [calls[n]];
    }
  }

  function Dropped<T>(xs: seq<T>, at: nat): seq<T>
    requires at < |xs|
  {
    xs[..at] + xs[at + 1..]
  }

  lemma DroppedElement<T>(xs: seq<T>, at: nat)
    requires at < |xs|
    ensures multiset(xs) == multiset(Dropped(xs, at)) + multiset{xs[at]}
  {
    assert xs == xs[..at] + [xs[at]] + xs[at + 1..];
  }

  /** A permutation of 0..n contains n - 1. */
  lemma PlaceOf(order: seq<nat>, n: nat) returns (at: nat)
    requires IsPermutation(order, n + 1)
    ensures at <= n && order[at] == n
    ensures forall i :: 0 <= i <= n && i != at ==> order[i] < n
  {
    if forall i :: 0 <= i <= n ==> order[i] != n {
      Pigeonhole(order, n);
    }
    at :| 0 <= at <= n && order[at] == n;
  }

  /** More than n numbers below n cannot all be different. */
  lemma {:induction false} Pigeonhole(xs: seq<nat>, n: nat)
    requires |xs| > n
    requires forall i :: 0 <= i < |xs| ==> xs[i] < n
    requires forall i, j :: 0 <= i < j < |xs| ==> xs[i] != xs[j]
    ensures false
  {
    assert xs[0] < n;
    if n == 0 {
    } else {
      if at :| 0 <= at < |xs| && xs[at] == n - 1 {
        Pigeonhole(xs[..at] + xs[at + 1..], n - 1);
      } else {
        Pigeonhole(xs, n - 1);
      }
    }
  }
}
