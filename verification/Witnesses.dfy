/** Concrete runs: what mixing plain stores with compare-and-swap can lose. */
module Witnesses {
  import opened Snapshot
  import opened CircuitBreaker
  import opened Discovery
  import opened Health
  import opened Policy
  import opened Interleaving
  import opened Lineage
  import opened LostTrip

  const WINDOW: Time := 30
  const ANSWER := Resolved([1])
  const RESULTS := [PollResult(1, Ok, 0, 1)]
  const NOW := Readings(0, 0, 0)

  const DISCOVERED := PoolSnapshot([Fresh(1, Gpu, 0)], [], 0)
  const HEALTHY := PoolSnapshot([Upstream(1, Gpu, Ok, 0, 1, 0, None)], [], 0)
  const TRIPPED := PoolSnapshot([Upstream(1, Gpu, Ok, 0, 1, 0, Some(WINDOW))], [], 0)

  const MERGED := Commit(MergeOp(ANSWER, Failed, 0), 0)
  const POLLED := Commit(PollOp(RESULTS, 0), 1)
  const TRIP := Commit(TripOp(1, WINDOW, NOW), 2)
  const STALE := Commit(MergeOp(ANSWER, Failed, 0), 2)

  /** Upstream 1 is discovered and polled Ok. */
  const SETUP := [DnsLoad(ANSWER, Failed), DnsStore(0), HealthBegin, HealthLoad(RESULTS), HealthStore(0)]
  /** A second refresh loads; a trip of upstream 1 runs through its rcu loop. */
  const TRIPPING := [DnsLoad(ANSWER, Failed), TripBegin(0, 1), TripCheck(0), TripLoad(0), TripSwap(0, NOW)]

  const BEFORE_TRIP := State(0, [EMPTY_SNAPSHOT, DISCOVERED, HEALTHY], [MERGED, POLLED], DnsIdle, HealthIdle, map[])
  const AFTER_TRIP := State(0, [EMPTY_SNAPSHOT, DISCOVERED, HEALTHY, TRIPPED], [MERGED, POLLED, TRIP],
                            DnsLoaded(ANSWER, Failed, 2, 0), HealthIdle, map[])
  const AFTER_STORE := State(0, [EMPTY_SNAPSHOT, DISCOVERED, HEALTHY, TRIPPED, HEALTHY], [MERGED, POLLED, TRIP, STALE],
                             DnsIdle, HealthIdle, map[])

  /** One concrete step of a run. */
  lemma Hop(steps: seq<Step>, s: State, step: Step, next: State)
    requires ValidRun(WINDOW, INIT, steps) && RunFrom(WINDOW, INIT, steps) == s
    requires Enabled(s, step) && Do(WINDOW, s, step) == next
    ensures ValidRun(WINDOW, INIT, steps + [step]) && RunFrom(WINDOW, INIT, steps + [step]) == next
  {
    Extend(WINDOW, INIT, steps, step);
  }

  lemma SetupRun()
    ensures ValidRun(WINDOW, INIT, SETUP) && RunFrom(WINDOW, INIT, SETUP) == BEFORE_TRIP
  {
    var s1 := INIT.(dns := DnsLoaded(ANSWER, Failed, 0, 0));
    var s2 := State(0, [EMPTY_SNAPSHOT, DISCOVERED], [MERGED], DnsIdle, HealthIdle, map[]);
    var s3 := s2.(health := Polling([1]));
    var s4 := s2.(health := HealthLoaded(RESULTS, 1, 0));
    Hop([], INIT, SETUP[0], s1);
    assert Apply(MERGED.op, EMPTY_SNAPSHOT) == DISCOVERED;
    Hop(SETUP[..1], s1, SETUP[1], s2);
    assert SETUP[..2] == SETUP[..1] + [SETUP[1]];
    assert Addrs(DISCOVERED.gpu + DISCOVERED.cpu) == [1];
    Hop(SETUP[..2], s2, SETUP[2], s3);
    assert SETUP[..3] == SETUP[..2] + [SETUP[2]];
    Hop(SETUP[..3], s3, SETUP[3], s4);
    assert SETUP[..4] == SETUP[..3] + [SETUP[3]];
    assert Reports(RESULTS, 1) && Apply(POLLED.op, DISCOVERED) == HEALTHY;
    Hop(SETUP[..4], s4, SETUP[4], BEFORE_TRIP);
    assert SETUP == SETUP[..4] + [SETUP[4]];
  }

  const LOADED := BEFORE_TRIP.(dns := DnsLoaded(ANSWER, Failed, 2, 0))
  const WANTED := LOADED.(trips := map[0 := Wanted(1, WINDOW)])

  lemma TripDecided()
    ensures ValidRun(WINDOW, INIT, SETUP + TRIPPING[..3]) && RunFrom(WINDOW, INIT, SETUP + TRIPPING[..3]) == WANTED
  {
    SetupRun();
    var begun := LOADED.(trips := map[0 := Begun(1, 0)]);
    Hop(SETUP, BEFORE_TRIP, TRIPPING[0], LOADED);
    assert SETUP + TRIPPING[..1] == SETUP + [TRIPPING[0]];
    Hop(SETUP + TRIPPING[..1], LOADED, TRIPPING[1], begun);
    assert SETUP + TRIPPING[..2] == SETUP + TRIPPING[..1] + [TRIPPING[1]];
    Hop(SETUP + TRIPPING[..2], begun, TRIPPING[2], WANTED);
    assert SETUP + TRIPPING[..3] == SETUP + TRIPPING[..2] + [TRIPPING[2]];
  }

  lemma TrippingRun()
    ensures ValidRun(WINDOW, INIT, SETUP + TRIPPING) && RunFrom(WINDOW, INIT, SETUP + TRIPPING) == AFTER_TRIP
  {
    TripDecided();
    var looping := LOADED.(trips := map[0 := TripLoaded(1, WINDOW, 2, 0)]);
    Hop(SETUP + TRIPPING[..3], WANTED, TRIPPING[3], looping);
    assert SETUP + TRIPPING[..4] == SETUP + TRIPPING[..3] + [TRIPPING[3]];
    assert Apply(TRIP.op, HEALTHY) == TRIPPED;
    assert looping.trips - {0} == map[];
    Hop(SETUP + TRIPPING[..4], looping, TRIPPING[4], AFTER_TRIP);
    assert SETUP + TRIPPING == SETUP + TRIPPING[..4] + [TRIPPING[4]];
  }

  /**
   * Why cooldown safety needs its condition: a refresh loaded before the trip and stored after it erases
   * the window, though DNS kept the upstream, and the upstream is picked again at once.
   */
  lemma StaleStoreDropsTrip()
    ensures var steps := SETUP + TRIPPING + [DnsStore(0)];
            && ValidRun(WINDOW, INIT, steps) && RunFrom(WINDOW, INIT, steps) == AFTER_STORE
    ensures Opens(AFTER_STORE, 2, Gpu, 1, WINDOW) && Keeps(STALE.op, Gpu, 1)
    ensures CoolingUntil(AFTER_STORE.versions[3], Gpu, 1, WINDOW)
    ensures AFTER_STORE.clock < WINDOW && Overwrites(AFTER_STORE.log, 3, 2)
    ensures !CoolingUntil(AFTER_STORE.Current(), Gpu, 1, WINDOW)
    ensures PickGpu(AFTER_STORE.Current(), 0) == Some(Pick(1, Gpu))
  {
    TrippingRun();
    assert Apply(STALE.op, HEALTHY) == HEALTHY;
    Hop(SETUP + TRIPPING, AFTER_TRIP, DnsStore(0), AFTER_STORE);
    assert HEALTHY.gpu[0].addr == 1 && IsOkEligible(HEALTHY.gpu[0], 0);
  }

  // --- A refresh lost to a poll ---

  const ANSWER2 := Resolved([1, 2])
  const GROWN := PoolSnapshot([HEALTHY.gpu[0], Fresh(2, Gpu, 0)], [], 0)
  const GROW := Commit(MergeOp(ANSWER2, Failed, 0), 2)
  const STALE_POLL := Commit(PollOp(RESULTS, 0), 2)
  const AFTER_POLL := State(0, [EMPTY_SNAPSHOT, DISCOVERED, HEALTHY, GROWN, HEALTHY],
                            [MERGED, POLLED, GROW, STALE_POLL], DnsIdle, HealthIdle, map[])

  /** A poll whose second load precedes a refresh and whose store follows it drops the upstream just discovered. */
  lemma StalePollDropsUpstream() returns (steps: seq<Step>)
    ensures ValidRun(WINDOW, INIT, steps) && RunFrom(WINDOW, INIT, steps) == AFTER_POLL
    ensures Overwrites(AFTER_POLL.log, 3, 2)
    ensures Addrs(AFTER_POLL.versions[3].gpu) == [1, 2] && Addrs(AFTER_POLL.Current().gpu) == [1]
  {
    SetupRun();
    var s1 := BEFORE_TRIP.(health := Polling([1]));
    var s2 := BEFORE_TRIP.(health := HealthLoaded(RESULTS, 2, 0));
    var s3 := s2.(dns := DnsLoaded(ANSWER2, Failed, 2, 0));
    var s4 := AFTER_POLL.(versions := AFTER_POLL.versions[..4], log := AFTER_POLL.log[..3], health := s2.health);
    assert Addrs(HEALTHY.gpu + HEALTHY.cpu) == [1];
    Hop(SETUP, BEFORE_TRIP, HealthBegin, s1);
    Hop(SETUP + [HealthBegin], s1, HealthLoad(RESULTS), s2);
    Hop(SETUP + [HealthBegin] + [HealthLoad(RESULTS)], s2, DnsLoad(ANSWER2, Failed), s3);
    steps := SETUP + [HealthBegin] + [HealthLoad(RESULTS)] + [DnsLoad(ANSWER2, Failed)];
    assert Apply(GROW.op, HEALTHY) == GROWN;
    Hop(steps, s3, DnsStore(0), s4);
    assert Reports(RESULTS, 1) && Apply(STALE_POLL.op, HEALTHY) == HEALTHY;
    Hop(steps + [DnsStore(0)], s4, HealthStore(0), AFTER_POLL);
    steps := steps + [DnsStore(0)] + [HealthStore(0)];
  }

  // --- A window lost and restored ---

  const ERASED := AFTER_STORE.(health := HealthLoaded(RESULTS, 3, 0))

  lemma ErasedRun() returns (steps: seq<Step>)
    ensures ValidRun(WINDOW, INIT, steps) && RunFrom(WINDOW, INIT, steps) == ERASED
  {
    TrippingRun();
    var s1 := AFTER_TRIP.(health := Polling([1]));
    var s2 := AFTER_TRIP.(health := HealthLoaded(RESULTS, 3, 0));
    assert Addrs(TRIPPED.gpu + TRIPPED.cpu) == [1];
    Hop(SETUP + TRIPPING, AFTER_TRIP, HealthBegin, s1);
    Hop(SETUP + TRIPPING + [HealthBegin], s1, HealthLoad(RESULTS), s2);
    steps := SETUP + TRIPPING + [HealthBegin] + [HealthLoad(RESULTS)];
    assert Apply(STALE.op, HEALTHY) == HEALTHY;
    Hop(steps, s2, DnsStore(0), ERASED);
    steps := steps + [DnsStore(0)];
  }

  /**
   * Why a lost window need not stay lost: a poll loaded while it stood, and stored after the refresh that
   * erased it, restores it without any new trip.
   */
  lemma LatePollRestoresWindow() returns (steps: seq<Step>)
    ensures ValidRun(WINDOW, INIT, steps) && RunFrom(WINDOW, INIT, steps) == ERASED
    ensures NotCooling(ERASED.Current(), Gpu, 1, 0)
    ensures BringsBack(WINDOW, ERASED, [HealthStore(0)], Gpu, 1)
    ensures CoolingUntil(Do(WINDOW, ERASED, HealthStore(0)).Current(), Gpu, 1, WINDOW)
  {
    steps := ErasedRun();
    RunKeepsInv(WINDOW, INIT, steps);
    assert ERASED.versions[3] == TRIPPED;
    assert TRIPPED.Pool(Gpu)[0].addr == 1 && TRIPPED.Pool(Gpu)[0].InCooldown(0);
    PendingPollBringsBack(WINDOW, ERASED, Gpu, 1);
    ApplyKeepsCooldown(PollOp(RESULTS, 0), TRIPPED, Gpu, 1, WINDOW, 0);
  }

  // --- A window extended ---

  const LATER: Time := 10
  const LATE := Readings(LATER, LATER, LATER)
  const FIRST := PoolSnapshot(TRIPPED.gpu, [], LATER)
  const BETWEEN := PoolSnapshot(HEALTHY.gpu, [], LATER)
  const SECOND_WINDOW := PoolSnapshot([Upstream(1, Gpu, Ok, 0, 1, 0, Some(LATER + WINDOW))], [], LATER)
  const TRIP_FIRST := Commit(TripOp(1, WINDOW, LATE), 2)
  const SPANNING := Commit(MergeOp(ANSWER, Failed, LATER), 2)
  const TRIP_SECOND := Commit(TripOp(1, LATER + WINDOW, LATE), 4)

  /** Both trips have passed the fast path, and the refresh has loaded, before the first swap. */
  const BOTH_WANTED := State(LATER, [EMPTY_SNAPSHOT, DISCOVERED, HEALTHY], [MERGED, POLLED],
                             DnsLoaded(ANSWER, Failed, 2, 0), HealthIdle,
                             map[0 := Wanted(1, WINDOW), 1 := Wanted(1, LATER + WINDOW)])
  const FIRST_SWAPPED := State(LATER, [EMPTY_SNAPSHOT, DISCOVERED, HEALTHY, FIRST], [MERGED, POLLED, TRIP_FIRST],
                               DnsLoaded(ANSWER, Failed, 2, 0), HealthIdle, map[1 := Wanted(1, LATER + WINDOW)])
  const BOTH_SWAPPED := State(LATER, [EMPTY_SNAPSHOT, DISCOVERED, HEALTHY, FIRST, BETWEEN, SECOND_WINDOW],
                              [MERGED, POLLED, TRIP_FIRST, SPANNING, TRIP_SECOND], DnsIdle, HealthIdle, map[])

  lemma BothWantedRun() returns (steps: seq<Step>)
    ensures ValidRun(WINDOW, INIT, steps) && RunFrom(WINDOW, INIT, steps) == BOTH_WANTED
  {
    TripDecided();
    steps := SETUP + TRIPPING[..3];
    var s1 := WANTED.(clock := LATER);
    var s2 := s1.(trips := s1.trips[1 := Begun(1, LATER)]);
    Hop(steps, WANTED, Tick(LATER), s1);
    Hop(steps + [Tick(LATER)], s1, TripBegin(1, 1), s2);
    Hop(steps + [Tick(LATER)] + [TripBegin(1, 1)], s2, TripCheck(1), BOTH_WANTED);
    steps := steps + [Tick(LATER)] + [TripBegin(1, 1)] + [TripCheck(1)];
  }

  lemma FirstSwappedRun() returns (steps: seq<Step>)
    ensures ValidRun(WINDOW, INIT, steps) && RunFrom(WINDOW, INIT, steps) == FIRST_SWAPPED
  {
    steps := BothWantedRun();
    var looping := BOTH_WANTED.(trips := BOTH_WANTED.trips[0 := TripLoaded(1, WINDOW, 2, LATER)]);
    Hop(steps, BOTH_WANTED, TripLoad(0), looping);
    assert Apply(TRIP_FIRST.op, HEALTHY) == FIRST;
    assert looping.trips - {0} == map[1 := Wanted(1, LATER + WINDOW)];
    Hop(steps + [TripLoad(0)], looping, TripSwap(0, LATE), FIRST_SWAPPED);
    steps := steps + [TripLoad(0)] + [TripSwap(0, LATE)];
  }

  lemma BothSwappedRun() returns (steps: seq<Step>)
    ensures ValidRun(WINDOW, INIT, steps) && RunFrom(WINDOW, INIT, steps) == BOTH_SWAPPED
  {
    steps := FirstSwappedRun();
    var stored := BOTH_SWAPPED.(versions := BOTH_SWAPPED.versions[..5], log := BOTH_SWAPPED.log[..4],
                                trips := FIRST_SWAPPED.trips);
    var looping := stored.(trips := map[1 := TripLoaded(1, LATER + WINDOW, 4, LATER)]);
    assert Apply(SPANNING.op, HEALTHY) == BETWEEN;
    Hop(steps, FIRST_SWAPPED, DnsStore(LATER), stored);
    Hop(steps + [DnsStore(LATER)], stored, TripLoad(1), looping);
    assert Apply(TRIP_SECOND.op, BETWEEN) == SECOND_WINDOW;
    assert looping.trips - {1} == map[];
    Hop(steps + [DnsStore(LATER)] + [TripLoad(1)], looping, TripSwap(1, LATE), BOTH_SWAPPED);
    steps := steps + [DnsStore(LATER)] + [TripLoad(1)] + [TripSwap(1, LATE)];
  }

  /**
   * Why racing trips need their condition too: a refresh loaded before both and stored between their swaps
   * erases the window of the first, and the second opens one that ends later, before the first has ended.
   */
  lemma StaleStoreExtendsWindow() returns (steps: seq<Step>)
    ensures ValidRun(WINDOW, INIT, steps) && RunFrom(WINDOW, INIT, steps) == BOTH_SWAPPED
    ensures Opens(BOTH_SWAPPED, 2, Gpu, 1, WINDOW) && OnlyTrip(BOTH_SWAPPED.log, 2, 1, WINDOW)
    ensures TripsAgain(BOTH_SWAPPED.log, 4, 1) && BOTH_SWAPPED.clock < WINDOW
    ensures CoolingUntil(BOTH_SWAPPED.versions[3], Gpu, 1, WINDOW) && Overwrites(BOTH_SWAPPED.log, 3, 2)
    ensures CoolingUntil(BOTH_SWAPPED.Current(), Gpu, 1, LATER + WINDOW)
  {
    steps := BothSwappedRun();
    assert HEALTHY.gpu[0].addr == 1 && FirstMatch(HEALTHY.gpu, 1) == 0;
    assert TRIPPED.gpu[0].addr == 1 && FirstMatch(TRIPPED.gpu, 1) == 0;
    assert SECOND_WINDOW.gpu[0].addr == 1 && FirstMatch(SECOND_WINDOW.gpu, 1) == 0;
  }
}
