# bge-router: routing core, modelled and proved

`bge-router` sends embedding requests to a pool of GPU and CPU upstreams. Three kinds of writers share one
atomically published snapshot of that pool: DNS discovery and the health poller load it, compute and store
plainly, while the circuit breaker runs a compare-and-swap loop. Requests read the snapshot, retry with capped
exponential backoff, and are either hedged (inference) or tried one upstream after another (control plane).

| file | what it holds |
|---|---|
| `Snapshot.dfy` | upstreams, the two-pool snapshot, the atomic cell |
| `CircuitBreaker.dfy` | `trip`, its in-place pool update and its rcu loop; the fast path |
| `Discovery.dfy` | merging DNS answers; the adaptive refresh cadence |
| `Health.dfy` | collecting poll results and applying them |
| `Commutation.dfy` | exactly when merge, poll and trip commute |
| `Policy.dfy` | the pick functions against one lexicographic order |
| `Interleaving.dfy` | all writers as a step machine; the bound on exclusion |
| `Correspondence.dfy` | that the steps of a task, in order, do what its method does |
| `Lineage.dfy` | which commits a snapshot carries; cooldown safety; where routable entries come from |
| `Recovery.dfy` | what the next refresh and poll recompute after a lost update |
| `LostTrip.dfy` | exactly when a cooldown that is gone stays gone |
| `Witnesses.dfy` | concrete runs in which a plain store loses, restores or extends something |
| `Config.dfy` | numeric validation of the environment |
| `Proxy.dfy`, `Retry.dfy` | the retry loop; its outcome, timing, waiting and timeouts |
| `Race.dfy` | the hedged race: verdict, call log and accounting |
| `Sequential.dfy` | trimmed backoffs and the sequential fallback |

Time is a natural number of nanoseconds. Everything the router does not decide is an input: DNS answers, poll
results, clock readings, the publications other tasks slip in, and how each upstream behaves on each call (an
outcome after some time, or no answer ever). In the step machine a load, a publication and a swap are atomic, a
swap succeeds iff the version is unchanged, and every clock reading may fall anywhere between a task's load and
its publication. In the request engine each load of the pool may show any snapshot at all, so its results hold
under every behaviour of the other tasks; a trip there is recorded where it is issued, and its effect on the
shared pool is the business of the step machine and of `ForwardWithRetry`.

Where the code and its documentation differ, the model follows the code:

- `docs/decisions/002-arc-swap-snapshot.md:93-98` says a lost write is recomputed on the next cycle. That holds
  for membership and health (`RecoveryAfterLostUpdates`) and fails for a trip (`StaleStoreDropsTrip`): no refresh or
  poll that starts after the loss brings the window back; only one loaded while it stood can
  (`LatePollRestoresWindow`, exactly when: `LostTripStaysLost`). `LineageTheorem` says exactly which commits a
  snapshot keeps, and `WindowKeptExactly` exactly when it still shows the window of a trip.
- `src/upstream/circuit_breaker.rs:27-28` says parallel trips do not extend a window. They do when a store loaded
  before the first is published between them (`StaleStoreExtendsWindow`, exactly when: `LateTripExactly`).
- `docs/routing-policy.md:118-122` says refreshes and polls preserve each other's changes. A store loaded before the
  other's publication drops it (`StalePollDropsUpstream`, exactly when: `MissingExactly`).
- `src/router/fallback.rs:34-37` says the breaker always fires before the timeout. `WhoIsCutOff` gives the exact
  condition on how long calls may take, 162.5 ms with the default settings (`DefaultThreshold`); a GPU that hangs,
  or fails more slowly than that, is cut off first and tripped by the timeout branch (`TimeoutPreemptsBreaker`).
- `docs/fallback.md` hedges an Ok GPU with an Ok CPU. The code takes `pick_gpu`, so a Loading GPU can be primary
  over an Ok CPU (`LoadingGpuOverOkCpu`, exactly when: `FirstTargetVersusPick`), and prefers a second GPU as the
  hedge (`PlanExactly`).
- The decision tree of `docs/routing-policy.md` returns the GPU's error when no CPU is left; `sequential_timeout`
  returns `NoUpstreamAvailable` (`GpuErrorIsForgotten`, always: `SequentialSafety`).

## Model

| member | source | states |
|---|---|---|
| CircuitBreaker.TripPoolInPlace | src/upstream/circuit_breaker.rs:57-66 | the slice becomes the old one with only its first entry at the address cooled, and only if it was not cooling; the flag says whether it changed |
| CircuitBreaker.Trip | src/upstream/circuit_breaker.rs:29-55 | after zero duration or the fast path nothing changed; otherwise the pool is the trip of whatever the last rival published, however many swaps were lost |
| CircuitBreaker.TripPoolEffect | src/upstream/circuit_breaker.rs:57-66 | a trip moves no entry, changes no field but a cooldown, never a running one |
| CircuitBreaker.TripStamps | src/upstream/circuit_breaker.rs:47-52 | a trip that changes neither pool leaves the snapshot as it is, any other stamps it |
| CircuitBreaker.AlreadyCooledOnFields | src/upstream/circuit_breaker.rs:36-41 | the early return is taken iff an entry of either pool with that address has a cooldown ending after now |
| CircuitBreaker.FastPathExact | src/upstream/circuit_breaker.rs:33-43 | the early return agrees with the full update at one clock value iff the address is cooling at its first entry in every pool that lists it |
| CircuitBreaker.FastPathSound | src/upstream/circuit_breaker.rs:33-43 | they agree when the address names at most one entry across both pools |
| CircuitBreaker.FastPathCanSkipAPool | src/upstream/circuit_breaker.rs:33-43 | a concrete snapshot with one address in both pools where the early return leaves an entry routable |
| Discovery.Refresh | src/upstream/discovery.rs:145-147 | the store publishes the merge of what was loaded, and overwrites a publication made in between |
| Discovery.MergeMembership | src/upstream/discovery.rs:198-224 | addresses and order after a merge are the resolved answer's, or the old ones after a failed lookup |
| Discovery.MergeCarries | src/upstream/discovery.rs:203-222 | after a failed lookup every entry is as it was; else each listed address carries its whole first entry, cooldown included, or, if new, Unknown, no load, no cooldown and the time of the merge |
| Discovery.Run | src/upstream/discovery.rs:98-119 | the first refresh comes at once; after one that found an address in either pool the wait is the refresh interval; the k-th refresh of an outage is followed by min(2 s * 2^(k-1), interval); on nanoseconds and on what the refreshes found |
| Discovery.OutageSleep | src/upstream/discovery.rs:242-257 | after any history the k-th unhealthy refresh in a row schedules min(2 s * 2^(k-1), max) |
| Discovery.ClampUnobservable | src/upstream/discovery.rs:256 | neither the lower clamp nor the saturating multiplication changes a reachable interval |
| Discovery.OutageBound | src/upstream/discovery.rs:242-257 | an outage of total scheduled length L holds at most c + L/max refreshes, c counting the steps still below max |
| Discovery.ShortStepsSettle | src/upstream/discovery.rs:242-257 | that count stops growing once the doubled step reaches max |
| Health.PollConcurrent | src/upstream/health.rs:81-93 | the results are those of the tasks that joined, each as often as a task joined with it, in completion order |
| Health.JoinedInOrder | src/upstream/health.rs:86-91 | results keep the order in which their tasks completed |
| Health.PollAll | src/upstream/health.rs:47-67 | an empty pool is left alone; otherwise the update of the second load is published, over anything published after it |
| Health.UpdateKeeps | src/upstream/health.rs:152-171 | a poll moves no entry and touches no cooldown |
| Health.UpdateEffect | src/upstream/health.rs:152-171 | a reported upstream takes status, depth, workers from its first result and the time; another is left as it was |
| Health.LastSeenIsStamped | src/upstream/health.rs:155-167 | the poll time is stamped on exactly the entries that had a result, whatever its status |
| Health.CompletionOrderIrrelevant | src/upstream/health.rs:81-93 | for distinct addresses the order in which results arrive does not change the update |
| Health.RoundOrderIrrelevant | src/upstream/health.rs:61-66 | any permutation of the completed tasks, failed joins included, publishes the same snapshot when no address answers twice |
| Commutation.UpdateTripCommute | src/upstream/health.rs:152-171 | poll and trip commute always |
| Commutation.UpdateMergeCommute | src/upstream/discovery.rs:198-224 | poll and merge commute, timestamps aside, iff no result says something about an address the answer adds |
| Commutation.TripMergeCommute | src/upstream/circuit_breaker.rs:57-66 | trip and merge commute iff a listed address was already present and is listed once, or the trip has nothing to change |
| Policy.PickIsArgmin | src/router/policy.rs:56-62 | the staged chain of `pick` is the one argmin over (tier, queue depth, position) of both pools, absent iff nothing is routable |
| Policy.PickGpuIsArgmin | src/router/policy.rs:66-70 | the same for `pick_gpu` |
| Policy.PickCpuIsArgmin | src/router/policy.rs:98-102 | the same for `pick_cpu` |
| Policy.ArgminUnique | src/router/policy.rs:15-31 | the order has at most one argmin, so the choice is determined |
| Policy.EligibleOnFields | src/router/policy.rs:43-50 | routable is: Ok, or Loading with live workers, and no cooldown ending after now |
| Policy.PickOnFields | src/router/policy.rs:56-62 | `pick` returns nothing iff nothing is routable, else the upstream no routable one of either pool precedes: Ok first, then GPU, then the shorter queue, then position |
| Policy.ClockOnlyHelps | src/upstream/snapshot.rs:120-126 | on a fixed snapshot time only adds candidates and never worsens the chosen key |
| Policy.PickTierIsLeast | src/router/policy.rs:104-123 | `pick_tier` returns the least eligible entry outside the exclusion, or nothing iff there is none |
| Policy.EmptyExclusionIsPickGpu | src/router/policy.rs:86-94 | with nothing excluded it is `pick_gpu` |
| Policy.EnumerateIsSortedEligible | src/router/policy.rs:86-94 | excluding each pick in turn lists exactly the eligible entries in strictly increasing key order, for distinct addresses |
| Policy.SecondaryDiffers | src/router/fallback.rs:117-121 | a GPU hedge is never the primary; the CPU is raced iff no other GPU is eligible |
| Interleaving.RunKeepsInv | src/upstream/circuit_breaker.rs:45-54 | in every run each version is its operation applied to the version it was loaded from, an rcu commit to the newest; versions are never revised |
| Interleaving.ReachableExclusionBounded | src/upstream/circuit_breaker.rs:34-62 | stale stores and retried swaps included, no cooldown ends later than one window from now |
| Interleaving.ExclusionExpires | src/upstream/snapshot.rs:122-125 | once no new trip begins, one window later nothing is cooling |
| Interleaving.StoresStamp | src/upstream/health.rs:152-160 | every merge and every poll stamps the snapshot with its time |
| Correspondence.RefreshCorresponds | src/upstream/discovery.rs:145-147 | in any run a refresh publishes the merge of what it loaded, whatever was published between, as `Refresh` does |
| Correspondence.PollCorresponds | src/upstream/health.rs:47-67 | a polling round asks the addresses of both pools it found, updates what its second load shows and publishes that whatever came between, as `PollAll` does |
| Correspondence.CheckCorresponds | src/upstream/circuit_breaker.rs:33-44 | a trip ends iff its address is cooling, at the clock it read first, in the pool it then sees; else its window ends one cooldown after that reading |
| Correspondence.SwapCorresponds | src/upstream/circuit_breaker.rs:45-54 | a swap publishes the trip of what it loaded iff nothing was published since, else nothing, and tries again |
| Correspondence.TripCorresponds | src/upstream/circuit_breaker.rs:29-55 | in every state an uninterrupted trip can run and publishes what `Trip` does |
| Lineage.LineageTheorem | src/upstream/discovery.rs:145-147 | each published snapshot is the serial application of a subsequence of the commit log; a commit is missing iff a store of that subsequence was loaded before it and stored after it, and such a store is never an rcu commit |
| Lineage.MissingExactly | src/upstream/health.rs:64-66 | the missing-commit condition, for any log |
| Lineage.TripCommitCools | src/upstream/circuit_breaker.rs:57-66 | a trip committed on an entry outside a running cooldown cools it until exactly its instant |
| Lineage.CooldownPersists | src/upstream/circuit_breaker.rs:57-66 | in every version descending from that commit the entry keeps exactly that instant until it passes, while DNS lists it |
| Lineage.CooldownExactly | src/upstream/circuit_breaker.rs:57-66 | a version shows a window that has not ended iff some trip of its lineage opened it and the answers merged since kept the address |
| Lineage.WindowKeptExactly | src/upstream/discovery.rs:145-147 | in every run and later version, the window of a trip is still there iff no store of that version's lineage was loaded before the trip and published after it, and none of its later answers dropped the address |
| Lineage.LateTripExactly | src/upstream/circuit_breaker.rs:27-28 | in every run a later trip of the address leaves the running window of an earlier one, with its end, iff that window is undisturbed when the later one swaps: no store of the lineage loaded before the first trip and published since, no answer without the address; and then the pool stays as it is |
| Lineage.LateTripChangesNothing | src/upstream/circuit_breaker.rs:45-54 | if in every pool listing the address the earlier trip opened a window and it is undisturbed, the later trip changes nothing at all, stamp included |
| Lineage.CooldownSafety | src/upstream/circuit_breaker.rs:25-28 | in every run the current snapshot shows the window while it is undisturbed and, for the only trip with that instant, only then; no store spanning the trip and an address DNS keeps are enough; while it stands no pick function returns the entry |
| Lineage.PicksAreOffered | src/router/policy.rs:43-50 | every pick function returns only eligible entries of the pool it names |
| Lineage.PickProvenance | src/upstream/discovery.rs:203-222 | in every interleaving a picked address is in the latest resolved answer of its pool and its last applied poll was Ok, or Loading with live workers |
| Lineage.SerialExplained | src/upstream/health.rs:153-168 | membership, order, pool type and health of a snapshot are read off the operations behind it |
| Lineage.OnlyAnswersMove | src/upstream/discovery.rs:203-204 | polls, trips and failed lookups change neither membership nor order |
| Recovery.SerialRecovery | src/upstream/health.rs:152-171 | after a resolved answer and a later poll covering it, the pool is what those two say, whatever came before and however many trips interleave |
| Recovery.RecoveryOfVersion | src/upstream/health.rs:64-66 | the same of any published version, read off its lineage, whatever loads and stores overlapped |
| Recovery.RecoveryAfterLostUpdates | src/upstream/discovery.rs:145-147 | from any reachable state one refresh and then one poll, not overtaken by another but however long they take and whatever trips run meanwhile, leave pools determined by the answers and results alone, empty answers included |
| Recovery.RoundIsPossible | src/upstream/health.rs:49-56 | whenever both tasks are idle a refresh with any answers and then a poll of every address of either pool can run |
| Recovery.RecoveryOrderIrrelevant | src/upstream/health.rs:81-93 | and, for distinct addresses, independent of completion order |
| LostTrip.LostTripStaysLost | docs/decisions/002-arc-swap-snapshot.md:93-98 | in every continuation without a new trip of the address nothing of it is ever cooling again, iff nothing is now and nothing under way can bring it back: no pending merge or poll loaded while it was, no running trip with a window still to come |
| Witnesses.LatePollRestoresWindow | docs/decisions/002-arc-swap-snapshot.md:93-98 | a run in which a refresh erases a window and a poll loaded before that restores it without a new trip |
| Witnesses.StaleStoreDropsTrip | docs/decisions/002-arc-swap-snapshot.md:93-98 | a run in which a refresh spanning a trip erases its window and the upstream is picked again at once |
| Witnesses.StaleStoreExtendsWindow | src/upstream/circuit_breaker.rs:27-28 | a run in which a refresh loaded before two racing trips is published between their swaps, and the second opens a window that ends later |
| Witnesses.StalePollDropsUpstream | docs/routing-policy.md:118-122 | a run in which a poll overlapping a refresh drops the upstream it discovered |
| Config.AcceptedExactly | src/config.rs:138-237 | an environment is accepted iff its values parse and are in range, and then the settings satisfy what the request engine relies on |
| Config.AcceptedInRange | src/config.rs:217-250 | each accepted setting, and each retry setting in nanoseconds, is its variable's value in its unit, or the default |
| Config.RejectionNamesCulprit | src/config.rs:146-197 | a rejection names the first variable, in the order they are read, that is at fault |
| Config.TooLargeIsRejected | src/config.rs:167-175 | no number beyond 64 bits and no retry count above 20 is accepted |
| Config.LargestAreAccepted | src/config.rs:167-200 | the largest numbers, 20 retries, and zero retries and cooldown are |
| Proxy.ForwardWithRetry | src/router/proxy.rs:139-196 | the loop does exactly its timeline, never answers `NoUpstreamAvailable`, and touches the pool only by the trip of an exhausted run, however many swaps that trip loses; a first response outside 500 to 599 is the reply after one call |
| Proxy.TrippedIsCooling | src/router/proxy.rs:171-180 | after an exhausted run the upstream's entry is cooling in every pool that lists it, until one window from the failure unless it was cooling already |
| Retry.TimelineShape | src/router/proxy.rs:151-193 | when each call is made, in closed form, and what completes the run |
| Retry.RetryRefinement | src/router/proxy.rs:152-195 | at most max_retries + 1 calls; the reply is the first outcome that is not retryable, else the last; one trip, last of all, iff every call failed |
| Retry.RepliesByStatus | src/router/proxy.rs:164-193 | on status numbers: 500 to 599 and no response are retried, any other response ends the run at once, and only the last allowed failure trips |
| Retry.BackoffClosedForm | src/router/proxy.rs:191-192 | the k-th wait is min(initial * 2^k, max) and saturation is unobservable |
| Retry.TotalBackoffBound | src/router/proxy.rs:191-192 | n waits take at most n * max and at most initial * (2^n - 1) |
| Retry.AcceptedBackoff | src/config.rs:171-196 | both hold for every accepted environment |
| Retry.TimelineOrdered | src/router/proxy.rs:151-193 | events come in time order from the start of the first call |
| Retry.BeatsTimeoutExactly | src/router/fallback.rs:479-489 | the loop beats its timeout for every script with calls of at most d iff (n + 1) * d plus all waits fits the timeout |
| Race.SelectWinner | src/router/fallback.rs:257-340 | the select loop returns the earliest response with a status outside 500 to 599, ties to the GPU, else the GPU's failure at the later completion, within two completions and never the default |
| Race.VerdictFromEnds | src/router/fallback.rs:413-415 | that verdict from how the two forwardings end: winner, outcome and instant, or the GPU's failure at the later end, or none yet |
| Race.RaceLogExact | src/router/fallback.rs:217-252 | each leg did exactly what precedes the end of the race, the winner's response is the last event, and without a winner both ran to their ends |
| Race.NothingAfterWinner | src/router/fallback.rs:281-318 | nothing follows a winning response |
| Race.LegAccounting | src/router/proxy.rs:164-181 | a leg cut anywhere made at most 1 + R calls and attempted a trip iff all of them were answered with failures |
| Race.RaceAccounting | src/router/fallback.rs:217-252 | per side at most 1 + R calls, the trip condition, no hedge call if the GPU delivers by the hedge delay |
| Race.PlanExactly | src/router/fallback.rs:117-181 | which targets an inference request gets: best GPU, hedged by the best other GPU or else the best CPU; fails only when nothing is routable |
| Race.FirstTargetVersusPick | src/router/fallback.rs:117-121 | the target asked first is what `pick` would choose, except exactly when the GPU pool offers only Loading upstreams while an Ok CPU is there |
| Race.LoadingGpuOverOkCpu | src/router/fallback.rs:117-121 | a concrete snapshot where a Loading GPU is primary and the Ok CPU `pick` chooses is the hedge |
| Race.HedgedRace | src/router/fallback.rs:108-182 | the reply is the race's verdict on the first target from the start and the hedge from the hedge delay, or the only target's own outcome; it is what the calls made show; no upstream iff both pools had nothing routable |
| Race.HedgeWaits | src/router/fallback.rs:217-235 | the first target is called at once; the hedge at the hedge delay and never before, and not at all iff the first target has delivered by then |
| Race.CallBudget | src/config.rs:38-41 | no request makes more than 2 * (1 + R) upstream calls, 42 for an accepted configuration |
| Sequential.BudgetArithmetic | src/router/fallback.rs:484-489 | trimmed waits total at most n * (B / 2), half the timeout; with calls of at most B / 2 the loop ends strictly before the timeout and trips by itself if all fail |
| Sequential.SequentialTimeout | src/router/fallback.rs:449-559 | for any snapshots seen and any upstream behaviour the request is the one its specification function describes, is safe in the sense of `SequentialSafety` and asks in turn in the sense of `RequestAsksInTurn` |
| Sequential.FallbackLoop | src/router/fallback.rs:469-542 | the loop refines that function, in which a trip is recorded only where the retry loop issued one or the timeout branch does |
| Sequential.ForwardCpuWithTimeout | src/router/fallback.rs:561-597 | a CPU timeout leaves reply and trips as they were; any outcome stands, even a failure, and is tripped iff it is one; at most one timeout is spent |
| Sequential.CutOffExactly | src/router/fallback.rs:491-506 | a forwarding is cut off iff its deciding call hangs or answers too late; else it ends with that call's outcome and has tripped iff all calls failed |
| Sequential.CpuTurn | src/router/fallback.rs:561-597 | what the CPU's turn does to reply, trips and elapsed time, to the nanosecond, from its script alone |
| Sequential.ObservationsAreSound | src/router/fallback.rs:538-541 | a chosen GPU is never one already tried; forwardings end within their timeout, exhausted iff they failed |
| Sequential.SequentialSafety | src/router/fallback.rs:460-558 | at most two distinct GPUs, each the policy's choice then; trips are exactly one per abandoned GPU, plus one for a CPU that failed all its calls; GPU replies never server errors; CPU last; at most three timeouts |
| Sequential.RequestAsksInTurn | src/router/fallback.rs:464-558 | on the pools seen and the upstreams' scripts: GPU i is the best one not yet tried in the i-th snapshot; a GPU serves only with a status outside 500 to 599; after two, or when none is left, the best CPU of the next snapshot is asked and its outcome stands |
| Sequential.GpuErrorIsForgotten | docs/routing-policy.md:137-140 | a concrete request whose GPU answers 503 to every call and that ends with no upstream, there being no CPU |
| Sequential.ElapsedExactly | src/router/fallback.rs:491-506 | the elapsed time is exactly what the upstreams asked took, one timeout for each that did not answer |
| Sequential.WhoIsCutOff | src/router/fallback.rs:479-489 | a GPU whose calls take at most d is never cut off iff the worst case of the trimmed loop fits the timeout; the CPU, whose waits are not trimmed, iff its own worst case does |
| Sequential.AcceptedTimeout | src/router/fallback.rs:484-489 | in every accepted environment each call has a share of the timeout, waits take half of it at most, and a GPU whose calls take half their share is never cut off |
| Sequential.DefaultThreshold | src/router/fallback.rs:34-37 | with the default settings the GPU's breaker beats the timeout for calls of up to 162.5 ms and not beyond |
| Sequential.TimeoutPreemptsBreaker | src/router/fallback.rs:523-533 | with the default settings a GPU that hangs, or fails every call after 200 ms, is cut off before its breaker fires and tripped by the timeout branch |

## Left out

- Forwarding itself: headers, bodies, URLs, TLS and sockets; a call is an outcome after some time, or none.
- The DNS resolver, JSON parsing of health replies and the mapping of status strings; answers and results are inputs.
- Scheduling of the background tasks: the step machine lets each run at any time, so the poll interval, its skipped
  ticks and the discovery sleeps do not restrict it.
- One clock reading per merge: fresh entries of one merge share their `last_seen` stamp with `updated_at`.
- Poll timestamps in commutation: `UpdateMergeCommute` compares entries without `last_seen`, which differs by design.
- `pick_gpu_excluding`: the one-address form of `pick_gpu_excluding_set`.
- Path classification, error-to-status mapping, `/router/health`, logging and the string and TLS settings.
- Duplicate answers: DNS answers may repeat an address; only where stated (`CooldownSafety` for picks,
  `EnumerateIsSortedEligible`) are they assumed duplicate-free, because a trip cools the first copy only.
- Same-instant events of a race are ordered GPU first, as a biased poll of one tick does; wake-ups the clock cannot
  tell apart are not ordered otherwise.
- `SequentialTimeout`: the two forwardings under a timeout are their timelines cut at the deadline, not calls of
  `ForwardWithRetry`, because a dropped future has no counterpart in a method call.
