# Verified models of the ACTS framework core

This project models the parts of the Android Comms Test Suite framework (`acts/framework/acts`)
whose behaviour is hardest to see from the code, and proves what their documentation promises.
Where a promise does not hold for every input, the exact condition under which it holds is proved
instead, and an input outside it is exhibited.

`dafny verify dfyconfig.toml` checks the whole project.

**String algorithms** (`utils.py`). The Levenshtein distance is specified without any table, as
the least number of single-character edits, made anywhere and one after the other, that turn one
string into another (`EditDistance`). The two-row program (`Levenshtein`) is proved to return exactly
that number; symmetry, the triangle inequality and the bounds follow, and with them the properties
of the similarity score. `MacAddress` has the printer and parser of MAC addresses, with Python's
`hex` and `int(s, 16)` written out, and `HexNumerals` says which texts the latter reads.
`ConcurrentActions` runs the worker threads of `run_concurrent_actions` under every schedule, the test of
`first_exception` and the assignment to it as separate steps; `ThreadPools` has the pool behind
`run_concurrent_actions_no_raise` and `concurrent_exec`, with its queue, its limit on running calls and the
futures as the main thread is given them.

**The event bus** (`event/`). `BusRegistry` is the bus as its users understand it: live registrations
in order of time. `EventBus` is the class with its per-type sorted lists and its map of ids, and each of
its methods is proved to do to that registry what its specification says. `Posting` gives the meaning of a
post for every *behaviour tree*, which says of each handler reached, at any depth of nesting, what it
does to the bus and whether it raises; a statement for all trees is a statement for all handlers.
`HandlerCalls` says what those calls come to, as chains of registries.
Bundles, `listen_for`, handles, the logger proxies of `metrics/logger.py` and the context stack of
`context.py` are built on top and followed over whole runs; `ProxyLifetimes` joins the runs of the proxies to
what their constructors put on the bus.

**The version selector** (`libs/version_selector.py`). The flat list of entries and its binary searches
refine a sorted map of disjoint ranges (`VersionRanges`, `VersionSelector`, `VersionHistories`).

**The SMS codec** (`_anritsu_utils.py`). The decoder's global replacement passes are followed through
partly decoded texts, for every table of percent escapes and every order of the passes (`SmsCodec`),
and the literal tables are instances (`AnritsuTables`).

**Supporting parts.** Attenuator groups whose members share hardware slots, test specifiers broken over
lines, and the comparison of timestamps as text.

## Where the code and its promises differ

- A text with `%` survives `gsm_encode` and `gsm_decode` exactly when no character whose pass comes after
  the one for `%` occurs in the text together with its spelled-out escape (`AnritsuTables.GsmRoundTrip`).
- The id map and the lists of the bus agree only while no subscription is registered twice at once;
  unregistering one that is leaves a registration without an id (`RegistryLaws.UnregisterKeepsIds`), which no id
  and no `unregister_all()` removes (`RegistryLaws.RegisteredTwiceIsStuck`).
- A handler of `TestClassBeginEvent` at the default order runs before the handler that pushes the class
  context, because that one listens for the base type at the same order
  (`ContextRuns.DefaultClassBeginHandlersDoNotSeeClass`).
- The documented "first exception caught" is what `run_concurrent_actions` raises exactly on the schedules in
  which the thread that catches first assigns to `first_exception` while no other thread that found it empty
  has yet to assign (`ConcurrentActions.FirstCaughtIsRaisedIff`). The same condition decides for the thread that
  tests first (`ConcurrentActions.FirstTestedIsRaisedIff`). `ConcurrentActions.RaceOverwrites` is a schedule on
  which the exception caught and tested first is overwritten; `ConcurrentActions.CaughtFirstTestedSecond` is one on
  which nothing interferes and an exception that was caught later, but tested first, is raised.
- A negative octet is printed in a way that parses to its absolute value, and the empty list in a way
  that does not parse (`MacAddress.ParseUndoesPrint`).
- A line break inside a class name changes the class (`LineBreaking.BreakInClassNameMatters`).
- After a successful `AttenuatorGroup.set_atten`, `is_synchronized` holds exactly when members that share
  a slot share an offset (`AttenuatorGroups.AttenuatorGroup.SynchronizedIffOffsetsAgree`); two on one slot with
  different offsets are set and not synchronized (`AttenuatorGroups.SharersWithDifferentOffsets`).
- Timestamps of digits whose fields have different widths can be misordered, as in `2019-01-01 00:00:00.9`
  behind `2019-01-01 00:00:00.10` (`LogTimestamps.MisplacedTimestamp`). The comparator follows the numbers exactly
  when the first fields that differ as text stand to each other as the first fields that differ in their
  significant digits (`LogTimestamps.ComparatorIsNumericIff`); without padding, when the first fields that differ
  are equally wide or the narrower one is also first as text (`LogTimestamps.UnpaddedFieldsAgreeIff`).
- A selector without any function raises an index error instead of the documented error when called
  (`VersionSelector.VersionSelector.Call`).

## Model

| member | source | states |
|---|---|---|
| EditDistance.ShortestScript | acts/framework/acts/utils.py:1081-1093 | some edit script from s to t has exactly as many edits as the recurrence says |
| EditDistance.NoShorterScript | acts/framework/acts/utils.py:1081-1093 | no edit script from s to t has fewer edits than the recurrence says |
| EditDistance.DistanceIsEditDistance | acts/framework/acts/utils.py:1081-1093 | the recurrence is the least number of edits, and no other number is |
| EditDistance.DistanceIsSymmetric | acts/framework/acts/utils.py:1094-1095 | the distance is symmetric, which justifies swapping the arguments |
| EditDistance.ZeroDistanceIffEqual | acts/framework/acts/utils.py:1081-1110 | the distance is zero exactly for equal strings |
| EditDistance.TriangleInequality | acts/framework/acts/utils.py:1081-1110 | the distance over an intermediate string is never shorter |
| EditDistance.DistanceBounds | acts/framework/acts/utils.py:1081-1110 | the distance lies between the difference of the lengths and the longer length |
| Levenshtein.Levenshtein | acts/framework/acts/utils.py:1081-1110 | the result is the least number of edits that turns string1 into string2 |
| Levenshtein.NextRow | acts/framework/acts/utils.py:1101-1107 | from the distances of a prefix to all prefixes of string2, the distances of the prefix one character longer |
| Levenshtein.StringSimilarity | acts/framework/acts/utils.py:1113-1129 | the score is the percentage of the longer string left untouched, within 0 and 100, 100 exactly for equal strings, 0 exactly when nothing is kept |
| ConcurrentActions.RunConcurrentActions | acts/framework/acts/utils.py:1171-1240 | for every schedule that finishes, the values in call order if no call raised, else an exception that some call raised; without calls a value error |
| ConcurrentActions.OutcomeIsRight | acts/framework/acts/utils.py:1201-1240 | values are returned if and only if no call raised, under every interleaving |
| ConcurrentActions.RunKeepsInv | acts/framework/acts/utils.py:1206-1223 | in every reachable state a finished future fits its call, a wrapped exception implies that first_exception is set, and once set it is never cleared |
| ConcurrentActions.RaisedIffAssignedLast | acts/framework/acts/utils.py:1206-1238 | under every schedule that finishes an exception is raised if and only if a thread that raised it assigned while no other that had found the variable empty was left |
| ConcurrentActions.FirstCaughtIsRaisedIff | acts/framework/acts/utils.py:1195-1199 | the promise that the first exception caught is raised is kept if and only if its thread assigns with no other assignment pending |
| ConcurrentActions.FirstTestedIsRaisedIff | acts/framework/acts/utils.py:1213-1222 | the same for the thread that tests first |
| ConcurrentActions.WithoutInterferenceFirstTestedIsRaised | acts/framework/acts/utils.py:1213-1222 | when nothing comes between test and assignment the exception tested first is raised, and the one caught first if and only if it is the same |
| ConcurrentActions.RaceOverwrites | acts/framework/acts/utils.py:1213-1222 | a schedule under which the exception caught and tested first is overwritten by the second |
| ConcurrentActions.CaughtFirstTestedSecond | acts/framework/acts/utils.py:1213-1222 | a schedule without interference under which the exception caught first is not raised |
| ThreadPools.RunConcurrentActionsNoRaise | acts/framework/acts/utils.py:1159-1168 | for every schedule of the pool in which all calls finish, the outcomes in call order; without calls no pool |
| ThreadPools.ConcurrentExec | acts/framework/acts/utils.py:370-382 | for every schedule of the pool that ends, the outcomes in the order in which the futures were yielded, which is a permutation |
| ThreadPools.MovesKeepInv | acts/framework/acts/utils.py:370-382 | in every reachable state no more calls run than the pool has threads, calls start in order and once, a future holds its own call's outcome, and each is yielded at most once, only when done, and only after all are submitted |
| ThreadPools.AtMostThirtyRun | acts/framework/acts/utils.py:370 | at most thirty calls run at once, the earliest that are unfinished |
| ThreadPools.ResultsInOrderOfCompletion | acts/framework/acts/utils.py:370-382 | if the future yielded is always the one done for longest, the results are in order of completion |
| MacAddress.ListToStr | acts/framework/acts/utils.py:1590-1609 | what is printed parses to the absolute values of a non-empty list |
| MacAddress.ParseUndoesPrint | acts/framework/acts/utils.py:1576-1609 | parsing undoes printing exactly for the non-empty lists of naturals |
| MacAddress.PrintUndoesParse | acts/framework/acts/utils.py:1576-1609 | printing undoes parsing exactly for strings whose octets are lower-case, at least two digits, without superfluous zeros |
| HexNumerals.ParseOfWritten | acts/framework/acts/utils.py:1587 | blanks, a sign, a 0x prefix and digits with single underscores, each as far as they are there, are read as the place value of the digits |
| HexNumerals.WrittenForm | acts/framework/acts/utils.py:1587 | and every octet that is read has this form |
| HexNumerals.DigitIsItsPlace | acts/framework/acts/utils.py:1587 | the value of a digit is its place among the sixteen, in lower and in upper case |
| HexNumerals.CaseDoesNotMatter | acts/framework/acts/utils.py:1576-1587 | addresses that differ only in the case of letters are parsed alike |
| HexNumerals.AnyCaseOfPrintoutParses | acts/framework/acts/utils.py:1576-1609 | the printout of a list of naturals can be read back in any case |
| BusRegistry.DeliveryIsPromised | acts/framework/acts/event/event_bus.py:112-124 | type-by-type collection and two stable sorts deliver exactly the live registrations of the event's types, by order, then specificity, then time |
| BusRegistry.PromisedDeliveryIsUnique | acts/framework/acts/event/event_bus.py:49-56 | the promised order determines the deliveries completely |
| StableSorting.SortIsStable | acts/framework/acts/event/event_bus.py:122-124 | sorting keeps the order of equal keys |
| StableSorting.RemoveFirstFromSort | acts/framework/acts/event/event_bus.py:159-163 | removing from the sorted list is sorting what remains |
| EventBus.EventBus.constructor | acts/framework/acts/event/event_bus.py:35-38 | a new bus has nothing registered |
| EventBus.EventBus.RegisterSubscription | acts/framework/acts/event/event_bus.py:81-103 | lists and ids represent the registry with one more registration, made now |
| EventBus.EventBus.RegisterSubscriptions | acts/framework/acts/event/event_bus.py:66-79 | registers all in turn and returns their ids |
| EventBus.EventBus.Unregister | acts/framework/acts/event/event_bus.py:132-164 | by object or known id the earliest registration and the id go; an unknown id changes nothing; anything else is a value error |
| EventBus.EventBus.UnregisterHandle | acts/framework/acts/event/event_bus.py:138-140 | a handle of the exact class stands for its subscription; handles of the decorators' classes are rejected |
| EventBus.EventBus.UnregisterAll | acts/framework/acts/event/event_bus.py:166-178 | every subscription with a known id, of the given type if any, loses its earliest registration and its id |
| EventBus.EventBus.Post | acts/framework/acts/event/event_bus.py:105-130 | for every behaviour tree the bus does what a post means on the registry: same deliveries, same result, same state |
| EventBus.EventBus.Listening | acts/framework/acts/event/event_bus.py:112-124 | the collected and sorted list is the delivery order of the registry |
| EventBus.EventBus.Deliver | acts/framework/acts/event/event_subscription.py:38-50 | a rejected event reaches no handler; otherwise the handler's calls are made |
| EventBus.ListsAndIdsAgree | acts/framework/acts/event/event_bus.py:27-31 | while nothing is registered twice, each list is sorted and of one type, and the ids are exactly those of the listed subscriptions |
| RegistryLaws.RegisterKeepsAgreed | acts/framework/acts/event/event_bus.py:81-103 | registering keeps lists and ids in agreement if and only if the subscription was not live |
| RegistryLaws.UnregisterKeepsIds | acts/framework/acts/event/event_bus.py:157-164 | unregistering keeps the ids those of the live subscriptions if and only if the subscription was not registered twice |
| RegistryLaws.RegisteredTwiceIsStuck | acts/framework/acts/event/event_bus.py:132-178 | a subscription registered twice and unregistered once is still delivered to and can be removed by no id |
| RegistryLaws.UnregisterKeepsAgreed | acts/framework/acts/event/event_bus.py:157-164 | unregistering removes exactly the one subscription |
| RegistryLaws.TokensAgree | acts/framework/acts/event/event_bus.py:132-164 | id and object of a live subscription have the same effect |
| RegistryLaws.UnregisterAllEmpties | acts/framework/acts/event/event_bus.py:166-178 | unregistering everything empties the bus if and only if lists and ids agreed |
| RegistryLaws.UnregisterAllOfType | acts/framework/acts/event/event_bus.py:172-178 | unregistering a type removes exactly the subscriptions of that type |
| RegistryLaws.UnregisterUndoesRegister | acts/framework/acts/event/event_bus.py:81-164 | unregistering takes a registration back without a trace |
| RegistryLaws.NotDeliveredUnlessLive | acts/framework/acts/event/event_bus.py:112-118 | a subscription is delivered to exactly when it is live and of one of the event's types |
| Posting.PostVisitsSnapshot | acts/framework/acts/event/event_bus.py:112-130 | whatever handlers do, a post visits the snapshot in the promised order: all of it when errors are ignored or none occurs, else up to the first raise |
| Posting.DeliverFromKeepsValid | acts/framework/acts/event/event_bus.py:124-130 | every run, re-entrant ones included, leaves a consistent registry |
| HandlerCalls.RunIsTrace | acts/framework/acts/event/event_bus.py:81-178 | every run of calls on the bus is a chain of registries, each call adding one registration, taking one, all, or those of a type away, or being a post, and the log is theirs in turn |
| HandlerCalls.PostIsTrace | acts/framework/acts/event/event_bus.py:105-130 | every post visits the promised snapshot up to the first raise, each handler that its filter does not keep out makes its calls on what the deliveries before it left, and the log has those right behind the delivery |
| HandlerCalls.NestedPostIsDelivered | acts/framework/acts/event/event_bus.py:105-130 | a post made by a handler is delivered to the snapshot promised for it on the bus of that moment, right behind the handler's own delivery and what its earlier calls delivered |
| HandlerCalls.RegisterInHandler | acts/framework/acts/event/event_bus.py:81-103 | a handler that registers a subscription has it live once more, with a known id, and the next post of its type is delivered to it |
| HandlerCalls.RegistrationsOutliveThePost | acts/framework/acts/event/event_bus.py:81-130 | what any handler registers during a post, however deeply nested, is live afterwards unless a handler unregisters it |
| HandlerCalls.UnregisterAllInHandler | acts/framework/acts/event/event_bus.py:166-178 | unregistering everything in a handler empties an agreed bus, or empties it of one type |
| HandlerCalls.RejectedDeliveryDoesNothing | acts/framework/acts/event/event_subscription.py:48-49 | a delivery whose event the filter rejects changes nothing, posts nothing and does not raise |
| HandlerCalls.AcceptedDeliveryMakesItsCalls | acts/framework/acts/event/event_subscription.py:48-50 | any other delivery makes its handler's calls, those before a raise included, and raises exactly when the handler does and errors are not ignored |
| PostingLaws.RunsKeepAgreed | acts/framework/acts/event/event_bus.py:81-178 | every run from the empty bus that registers nothing twice at once keeps lists and ids in agreement |
| PostingLaws.PostLeaves | acts/framework/acts/event/event_bus.py:105-178 | a post whose handlers leave a subscription alone leaves it as it is |
| ListenFor.ListenFor.Enter | acts/framework/acts/event/event_bus.py:281-284 | entering registers a new subscription and keeps its id |
| ListenFor.ListenFor.Exit | acts/framework/acts/event/event_bus.py:286-287 | leaving unregisters by the kept id |
| ListenFor.ListensOnlyInside | acts/framework/acts/event/event_bus.py:261-287 | the listener hears its events inside the block and none after it, whatever else the body did |
| SubscriptionHandles.SubscriptionHandle.GetSubscription | acts/framework/acts/event/subscription_handle.py:30-37 | the subscription is made on first use and is the same object ever after |
| SubscriptionBundles.SubscriptionBundle.AddSubscription | acts/framework/acts/event/subscription_bundle.py:43-58 | bundle and bus change together as specified |
| SubscriptionBundles.SubscriptionBundle.RemoveSubscription | acts/framework/acts/event/subscription_bundle.py:60-72 | bundle and bus change together as specified, with the answer for non-members |
| SubscriptionBundles.SubscriptionBundle.Register | acts/framework/acts/event/subscription_bundle.py:74-86 | registers each member in order of insertion, once |
| SubscriptionBundles.SubscriptionBundle.Unregister | acts/framework/acts/event/subscription_bundle.py:88-100 | unregisters each member and forgets its id |
| SubscriptionBundles.AddKeepsInStep | acts/framework/acts/event/subscription_bundle.py:43-58 | adding keeps bundle and bus in step if and only if the subscription was not live |
| SubscriptionBundles.RemoveKeepsInStep | acts/framework/acts/event/subscription_bundle.py:60-72 | a removed member is on the bus no more, and the rest stay in step |
| SubscriptionBundles.RegisterAllKeepsInStep | acts/framework/acts/event/subscription_bundle.py:74-86 | afterwards each member is on the bus exactly once with its id; registering again changes nothing |
| SubscriptionBundles.UnregisterMembersKeepsInStep | acts/framework/acts/event/subscription_bundle.py:88-100 | afterwards no member is on the bus and no id is kept; unregistering again changes nothing |
| SubscriptionBundles.RunsKeepInStep | acts/framework/acts/event/subscription_bundle.py:43-100 | over every run of operations on the bundle, and any use of the bus that leaves its members alone, they stay in step |
| SubscriptionBundles.RunsFromNewBundle | acts/framework/acts/event/subscription_bundle.py:20-100 | from a new bundle on, a registered bundle has each member on the bus once with its id, an unregistered one none and only None ids |
| LoggerProxies.LoggerProxy.constructor | acts/framework/acts/metrics/logger.py:241-244 | each decorated method has one registration, made in the order of the class body through the handle cached on the proxy |
| LoggerProxies.LoggerProxy.CreateFromInstance | acts/framework/acts/event/subscription_bundle.py:116-154 | an unregistered bundle of the proxy's subscriptions, whose handles are now cached |
| LoggerProxies.LoggerProxy.LookUp | acts/framework/acts/event/subscription_handle.py:39-55 | the first lookup stores a plain handle on the instance, every later one finds it |
| LoggerProxies.LoggerProxy.SetupProxy | acts/framework/acts/metrics/logger.py:246-254 | makes and starts a new logger, or raises where the logger class does |
| LoggerProxies.LoggerProxy.TeardownProxy | acts/framework/acts/metrics/logger.py:256-283 | ends the logger once and drops it; an exception from end is reported and does not leave the handler |
| LoggerProxies.LoggerProxy.OnTestClassEndEvent | acts/framework/acts/metrics/logger.py:343-373 | unregisters the subscriptions of the cached handles, after tearing down in the per-class proxy |
| LoggerProxies.LoggerProxy.Handle | acts/framework/acts/metrics/logger.py:333-373 | the begin handlers make and start a logger, the case end handler ends it, the class end handler takes the proxy off the bus, after ending the logger of a per-class proxy |
| ProxyLifetimes.NewTestCaseProxy | acts/framework/acts/metrics/logger.py:318-348 | a per-case proxy has exactly three cached subscriptions on the bus, for the begin and the end of a case and the end of a class, each under its own method |
| ProxyLifetimes.NewTestClassProxy | acts/framework/acts/metrics/logger.py:351-373 | a per-class proxy has exactly two, for the begin and the end of a class |
| ProxyLifetimes.CaseBeginReachesCaseProxy | acts/framework/acts/metrics/logger.py:333-336 | the begin of a case is delivered, of the proxy's subscriptions, to the one of its begin method, once |
| ProxyLifetimes.CaseEndReachesCaseProxy | acts/framework/acts/metrics/logger.py:338-341 | the end of a case to the one of its end method |
| ProxyLifetimes.ClassEndReachesCaseProxy | acts/framework/acts/metrics/logger.py:343-348 | the end of a class to the one that takes the proxy off the bus |
| ProxyLifetimes.ClassBeginReachesClassProxy | acts/framework/acts/metrics/logger.py:364-367 | of a per-class proxy, the begin of a class is delivered to its begin method alone |
| ProxyLifetimes.ClassEndReachesClassProxy | acts/framework/acts/metrics/logger.py:369-373 | and the end of a class to its end method alone |
| LoggerLifecycle.EachLoggerEndedOnce | acts/framework/acts/metrics/logger.py:246-283 | started loggers are each ended once, in order and with none left, if and only if begins and ends alternate, whichever ends raise |
| LoggerLifecycle.RaisingEndsAreContained | acts/framework/acts/metrics/logger.py:274-283 | over every run, which ends raise shows in what is reported and nowhere else |
| LoggerLifecycle.RunsKeepSound | acts/framework/acts/metrics/logger.py:246-283 | in every run loggers are new, ended at most once and only if started |
| ProxiesOnBus.NewProxyIsOnBus | acts/framework/acts/metrics/logger.py:241-244 | a new proxy is on the bus once for each decorated method and touches no other subscription |
| ProxiesOnBus.ProxyLeavesBus | acts/framework/acts/metrics/logger.py:343-348 | after a post of the class end that reaches the proxy none of its subscriptions is on the bus, whatever other handlers do short of registering it again |
| ProxiesOnBus.ProxyStaysOffBus | acts/framework/acts/metrics/logger.py:343-348 | and none is delivered to in any later run |
| ProxyRuns.StepIsHeard | acts/framework/acts/metrics/logger.py:333-373 | each begin or end of a round, case or class, that the test runner posts reaches the proxy exactly once |
| ProxyRuns.EachRoundHasItsLogger | acts/framework/acts/metrics/logger.py:322-373 | over every run on the bus each case, or class, has its own logger, started once and ended once, and none survives |
| ProxyRuns.PerClassProxyLivesOneRound | acts/framework/acts/metrics/logger.py:351-373 | from registration to the end of its class a per-class proxy has one logger, started and ended, and afterwards neither subscription is on the bus |
| ProxyLifetimes.EachTestCaseHasItsLogger | acts/framework/acts/metrics/logger.py:318-341 | from its construction on a consistent bus, a per-case proxy gives each test case that is posted its own logger, started once and ended once |
| ProxyLifetimes.TestClassProxyLivesItsClass | acts/framework/acts/metrics/logger.py:351-373 | from its construction to the end of its class a per-class proxy has one logger, and then it is off the bus |
| ProxyLifetimes.TestCaseProxyLeavesAtClassEnd | acts/framework/acts/metrics/logger.py:343-348 | the end of a class takes all three subscriptions of a per-case proxy off the bus, by list and by id |
| Contexts.ContextStack.UpdateTestClassContext | acts/framework/acts/context.py:95-108 | pushes on begin, pops on end, then announces the change on the bus |
| Contexts.ContextStack.UpdateTestCaseContext | acts/framework/acts/context.py:111-124 | likewise for cases |
| Contexts.ContextStack.GetCurrentContext | acts/framework/acts/context.py:37-51 | the context at the smaller of the depth and the current level |
| ContextRuns.PostSeesWell | acts/framework/acts/context.py:95-129 | during a post every handler finds the stack as before or as after the update, the latter exactly behind the updating handler |
| ContextRuns.ClassChangeIsAnnounced | acts/framework/acts/context.py:108 | the announcement of a new class context reaches exactly the live listeners of its own type and its bases |
| ContextRuns.CaseChangeIsAnnounced | acts/framework/acts/context.py:124 | likewise for a new case context |
| ContextRuns.CaseBeginHandlersSeeCase | acts/framework/acts/context.py:128 | handlers of a case's begin above order -100 find the case on top |
| ContextRuns.CaseEndHandlersSeeStackBefore | acts/framework/acts/context.py:129 | handlers of a case's end below order 100 find the stack as it was before the end |
| ContextRuns.ClassHandlersSeeClass | acts/framework/acts/context.py:127 | handlers of a class event find the stack updated above order 0 and not yet updated below it |
| ContextRuns.DefaultClassBeginHandlersDoNotSeeClass | acts/framework/acts/context.py:127 | handlers of a class's begin find the class on top if and only if their order is above 0 |
| TestRuns.WellBracketedRunsStayInContext | acts/framework/acts/context.py:95-129 | in every well-bracketed run every handler finds root, root and class, or root, class and a case of it; handlers of a case's begin above order -100 and of its end below order 100 find that very case on top, and likewise for classes around order 0 |
| TestRuns.RootStaysIffNeverBelow | acts/framework/acts/context.py:105-107 | the root context is popped if and only if more is ended than was begun |
| TestRuns.ImportedIsGood | acts/framework/acts/context.py:127-129 | the three registrations made on import put the run theorem's hypotheses in place |
| VersionRanges.FlattenIsWellFormed | acts/framework/acts/libs/version_selector.py:109-115 | ascending ranges flatten to increasing levels of single entries and pairs, and read back |
| VersionRanges.RangesAreAscending | acts/framework/acts/libs/version_selector.py:109-115 | every such list is the flattening of ascending ranges |
| VersionSelector.BisectLeft | acts/framework/acts/libs/version_selector.py:199-200 | the leftmost place where the level can be inserted |
| VersionSelector.VersionSelector.AddFn | acts/framework/acts/libs/version_selector.py:183-215 | succeeds if and only if the range is proper and meets no other; then it is inserted, else nothing changes |
| VersionSelector.VersionSelector.Call | acts/framework/acts/libs/version_selector.py:217-269 | the function of the one range that covers the level, as a scan of all ranges would find, or the error for none |
| VersionSelector.LinearScanFindsTheRange | acts/framework/acts/libs/version_selector.py:248-264 | the scan finds a function exactly when one of its ranges covers the level |
| VersionSelector.VersionSelector.PrintRanges | acts/framework/acts/libs/version_selector.py:167-181 | exactly the ranges, in ascending order |
| VersionSelector.VersionSelector.Get | acts/framework/acts/libs/version_selector.py:271-292 | the instance is what the next call is made on |
| VersionHistories.ReachableIsWellFormed | acts/framework/acts/libs/version_selector.py:183-215 | every history of calls leaves a well-formed list |
| VersionHistories.AllAcceptedIffDisjoint | acts/framework/acts/libs/version_selector.py:183-215 | all calls of a history succeed if and only if their ranges are proper and pairwise disjoint |
| VersionHistories.InsertionOrderIsIrrelevant | acts/framework/acts/libs/version_selector.py:183-215 | the same disjoint ranges give the same list in whatever order they are added |
| SmsCodec.Encode | acts/framework/acts/controllers/anritsu_lib/_anritsu_utils.py:186-192 | every table character is replaced by its escape, all others stay |
| SmsCodec.EncodedTextIsPlain | acts/framework/acts/controllers/anritsu_lib/_anritsu_utils.py:186-192 | an encoded text holds no character of the table but '%' |
| SmsCodec.Decode | acts/framework/acts/controllers/anritsu_lib/_anritsu_utils.py:201-205 | the guarded replacement passes in the order of the table |
| SmsCodec.PassOnMixed | acts/framework/acts/controllers/anritsu_lib/_anritsu_utils.py:202-204 | a pass replaces whole escapes only, and spelled-out ones only after the one for '%' |
| SmsCodec.GuardMeansEscaped | acts/framework/acts/controllers/anritsu_lib/_anritsu_utils.py:203 | the test on the received text finds exactly the characters that were escaped |
| SmsCodec.RoundTrip | acts/framework/acts/controllers/anritsu_lib/_anritsu_utils.py:179-205 | for every escape table and order of passes a text comes back if and only if no escape of one of its characters is spelled out in it with a pass after that of '%' |
| SmsCodec.RoundTripWithoutPercent | acts/framework/acts/controllers/anritsu_lib/_anritsu_utils.py:179-205 | every text without '%' comes back, in whatever order the passes are made |
| AnritsuTables.CdmaEscapesAreOctets | acts/framework/acts/controllers/anritsu_lib/_anritsu_utils.py:209-214 | each escape is '%' and the code of its character in two hexadecimal digits |
| AnritsuTables.GsmIsEscapeTable | acts/framework/acts/controllers/anritsu_lib/_anritsu_utils.py:181-185 | the literal table, with the six-character escape, has the shape the codec needs |
| AnritsuTables.GsmDecodeInvertsEncode | acts/framework/acts/controllers/anritsu_lib/_anritsu_utils.py:196-200 | the decoder's table is exactly the inverse of the encoder's |
| AnritsuTables.GsmEncode | acts/framework/acts/controllers/anritsu_lib/_anritsu_utils.py:179-192 | the encoder with the GSM table |
| AnritsuTables.CdmaEncode | acts/framework/acts/controllers/anritsu_lib/_anritsu_utils.py:207-220 | the encoder with the CDMA table |
| AnritsuTables.GsmDecode | acts/framework/acts/controllers/anritsu_lib/_anritsu_utils.py:194-205 | the inverse of both encoders on every text without '%' |
| AnritsuTables.GsmRoundTrip | acts/framework/acts/controllers/anritsu_lib/_anritsu_utils.py:179-205 | the exact set of texts that come back |
| AnritsuTables.CdmaRoundTrip | acts/framework/acts/controllers/anritsu_lib/_anritsu_utils.py:194-220 | the same for the CDMA encoder, where the accented letter is never at risk |
| AnritsuTables.AmpersandIsGarbled | acts/framework/acts/controllers/anritsu_lib/_anritsu_utils.py:201-205 | a text outside that set |
| Attenuators.AttenuatorInstrument.SetAtten | acts/framework/acts/controllers/attenuator_lib/minicircuits/telnet.py:87-118 | writes exactly one slot, or refuses and writes nothing |
| Attenuators.Attenuator.SetAtten | acts/framework/acts/controllers/attenuator.py:293-309 | in strict mode writes value and offset exactly when the sum is within range and the connection open; out of strict mode writes the sum if it is in range, the maximum if it is above and 0 if it is below; else nothing is written |
| Attenuators.NearestIsUnique | acts/framework/acts/controllers/attenuator.py:298-300 | the level written out of strict mode is the one in range that is nearest to the one wanted |
| Attenuators.Attenuator.GetAtten | acts/framework/acts/controllers/attenuator.py:311-313 | the slot's level without the offset |
| AttenuatorGroups.AttenuatorGroup.Add | acts/framework/acts/controllers/attenuator.py:371-383 | appends the member |
| AttenuatorGroups.AttenuatorGroup.SetAtten | acts/framework/acts/controllers/attenuator.py:396-405 | every slot holds what its last member wrote and all others are unchanged; if a member refuses, exactly the earlier ones were written and the group keeps its value |
| AttenuatorGroups.AttenuatorGroup.Synchronize | acts/framework/acts/controllers/attenuator.py:385-387 | the same with the group's own value, partial writes and untouched slots included |
| AttenuatorGroups.AttenuatorGroup.IsSynchronized | acts/framework/acts/controllers/attenuator.py:389-394 | yes exactly when every member reads the group's value |
| AttenuatorGroups.AttenuatorGroup.SynchronizedIffOffsetsAgree | acts/framework/acts/controllers/attenuator.py:385-405 | after a successful set the group is synchronized if and only if members sharing a slot share an offset |
| AttenuatorGroups.SetAndCheck | acts/framework/acts/controllers/attenuator.py:389-405 | setting a group whose members all accept and asking whether it is synchronized answers just that |
| AttenuatorGroups.SharersWithDifferentOffsets | acts/framework/acts/controllers/attenuator.py:389-405 | a group that is set successfully and is not synchronized |
| TestSpecifiers.ParseTestFile | acts/framework/acts/config_parser.py:262-282 | the items are those that reading from the front gives, where a text ending in a colon or comma takes in what follows; they concatenate to the stripped lines and only the last may end so |
| TestSpecifiers.NewlinesAreHarmless | acts/framework/acts/config_parser.py:273-281 | trimmed lines have the same items with their newlines as without |
| TestSpecifiers.TwoLines | acts/framework/acts/config_parser.py:277-280 | a line ending in a colon or comma and a newline is continued by the next, any other is not |
| Strings.StripOfPadded | acts/framework/acts/config_parser.py:274 | whitespace on both sides of a trimmed text is removed and nothing else |
| Strings.StripIsMiddle | acts/framework/acts/config_parser.py:274 | every text is whitespace around what is left of it |
| TestSpecifiers.ParseTestList | acts/framework/acts/config_parser.py:161-170 | one result for each item, or an error exactly when some item has more than one colon |
| TestSpecifiers.ClassAlone | acts/framework/acts/config_parser.py:148-151 | an item is a class without names, not even an empty list of them, if and only if it has no colon |
| TestSpecifiers.PaddedNamesParse | acts/framework/acts/config_parser.py:152-158 | names come back without the whitespace around them |
| TestSpecifiers.PrintedSpecifierParses | acts/framework/acts/config_parser.py:134-158 | a printed class and list of names comes back if and only if they are trimmed and free of delimiters |
| LineBreaking.BreakParsesAlike | acts/framework/acts/config_parser.py:134-158 | whitespace behind a delimiter is harmless if and only if it is behind the colon or the item is malformed anyway |
| LineBreaking.BreakingLinesIsHarmless | acts/framework/acts/config_parser.py:271-281 | breaking a specifier behind a delimiter, with any padding and blank lines, gives the same parsed list if and only if nothing but the break was there, the class name was complete, or some item has more than one colon |
| LineBreaking.BreakInClassNameMatters | acts/framework/acts/config_parser.py:271-281 | a file for which breaking the line changes the class |
| LogTimestamps.ComparatorIsATotalOrder | acts/framework/acts/logger.py:119-136 | on all timestamps that parse the comparator is a total order that is 0 only for equal ones |
| LogTimestamps.LessIff | acts/framework/acts/logger.py:131-135 | texts are compared at the first place where they differ, a text that ends there being smaller |
| LogTimestamps.ComparatorIsNumeric | acts/framework/acts/logger.py:95-136 | on digits of equal widths it compares the tuples of numbers |
| LogTimestamps.RangeIsClosedInterval | acts/framework/acts/controllers/android_device.py:695-700 | the range test is membership in the closed interval |
| LogTimestamps.ComparatorIsNumericIff | acts/framework/acts/logger.py:119-136 | on digits of any widths it has the order of the numbers if and only if the first textual difference and the first difference in significant digits decide alike |
| LogTimestamps.UnpaddedFieldsAgreeIff | acts/framework/acts/logger.py:130-136 | without padding that is so if and only if the first fields that differ are equally wide or the narrower one is smaller as text |
| LogTimestamps.NinthAfterTenth | acts/framework/acts/logger.py:119-136 | for every date and time, millisecond 9 is placed behind millisecond 10 |
| LogTimestamps.MisplacedTimestamp | acts/framework/acts/logger.py:119-136 | a pair of timestamps that is placed in the wrong order |

## Left out

- Locks, real threads and the clock: steps are atomic, and handles, subscriptions and exceptions have unique identities that are never reused.
- The method resolution order is given with each event as a duplicate-free list of types; how Python computes it is not modelled.
- Return values of handlers and what they do besides using the bus: a behaviour tree has only calls on the bus, the filter's answer and whether the delivery raises. Runs that never end are not described by any tree.
- `unregister_all(from_list=...)`: only the form that goes over the map of ids is modelled.
- Subclasses of the logger proxies: their inherited handlers are not found by `create_from_instance`, so nothing is registered for them; the model has the two classes themselves.
- Attribute forwarding from a proxy to its logger, and publishing of metrics.
- Which members a group gets from `add_from_instrument`, and the maximum attenuation of an attenuator: easy members.
- Attenuation and similarity use real numbers; rounding of floating-point numbers is not modelled.
- Levels of a version selector are real numbers; NaN is not one of them. The stack inspection of `set_version` and the text of error messages are not modelled.
- Digits and whitespace outside ASCII, which `int` and `strip` also accept.
- How `as_completed` orders the futures that are done before it is called: it may yield any that is done, so the results hold for every order it takes.
- Exceptions that are not subclasses of `Exception`, and exception objects that are falsy.
- `epoch_to_log_line_timestamp`, `test_concurrent_actions`, base output paths of contexts, configuration loading and everything that talks to devices.
