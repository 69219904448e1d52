/** DNS discovery: merging answers into the pools, and the adaptive refresh cadence. */
module Discovery {
  import opened Snapshot

  datatype ResolveResult = Resolved(addrs: seq<Addr>) | Failed {
    predicate HasAddrs() {
      Resolved? && addrs != []
    }
  }

  function Fresh(addr: Addr, poolType: PoolType, now: Time): Upstream {
    Upstream(addr, poolType, Unknown, 0, 0, now, None)
  }

  function KeepOrAdd(existing: seq<Upstream>, addr: Addr, poolType: PoolType, now: Time): Upstream {
    if Has(existing, addr) then existing[FirstMatch(existing, addr)] else Fresh(addr, poolType, now)
  }

  /** A failed lookup keeps the pool; a resolved one, even an empty one, replaces its membership. */
  function MergePool(existing: seq<Upstream>, result: ResolveResult, poolType: PoolType, now: Time): seq<Upstream> {
    match result
    case Failed => existing
    case Resolved(addrs) =>
      seq(|addrs|, i requires 0 <= i < |addrs| => KeepOrAdd(existing, addrs[i], poolType, now))
  }

  function Merge(s: PoolSnapshot, gpu: ResolveResult, cpu: ResolveResult, now: Time): PoolSnapshot {
    PoolSnapshot(MergePool(s.gpu, gpu, Gpu, now), MergePool(s.cpu, cpu, Cpu, now), now)
  }

  /** The plain store publishes the merge of what was loaded, whatever `late` published in between. */
  method Refresh(pool: ArcSwap, gpu: ResolveResult, cpu: ResolveResult, now: Time, late: Option<PoolSnapshot>)
    modifies pool
    ensures pool.snapshot == Merge(old(pool.snapshot), gpu, cpu, now)
    ensures pool.version == old(pool.version) + 1 + if late.Some? then 1 else 0
  {
    var current := pool.snapshot;
    var next := Merge(current, gpu, cpu, now);
    pool.Interfere(late);
    pool.Store(next);
  }

  /** Membership and order after a merge are the answer's, or the old ones when the lookup failed. */
  lemma MergeMembership(existing: seq<Upstream>, result: ResolveResult, poolType: PoolType, now: Time)
    ensures Addrs(MergePool(existing, result, poolType, now)) ==
            if result.Resolved? then result.addrs else Addrs(existing)
  {
    if result.Resolved? {
      var merged := MergePool(existing, result, poolType, now);
      assert forall i :: 0 <= i < |merged| ==> merged[i].addr == result.addrs[i];
    }
  }

  /**
   * What the entries of a merged pool carry: after a failed lookup what they did; else each listed address its
   * whole first entry, cooldown included, or, if it is new, nothing but its address, its pool and the time.
   */
  lemma MergeCarries(existing: seq<Upstream>, result: ResolveResult, poolType: PoolType, now: Time)
    ensures result.Failed? ==> MergePool(existing, result, poolType, now) == existing
    ensures result.Resolved? ==>
              var merged := MergePool(existing, result, poolType, now);
              && |merged| == |result.addrs|
              && forall i :: 0 <= i < |merged| ==>
                   var u, addr := merged[i], result.addrs[i];
                   if addr in Addrs(existing) then
                     u == existing[FirstMatch(existing, addr)]
                   else
                     && u.addr == addr && u.poolType == poolType && u.status == Unknown && u.queueDepth == 0
                     && u.liveWorkers == 0 && u.lastSeen == now && u.cooldownUntil.None?
  {
    if result.Resolved? {
      forall i | 0 <= i < |result.addrs|
        ensures Has(existing, result.addrs[i]) <==> result.addrs[i] in Addrs(existing)
      {
        HasIffListed(existing, result.addrs[i]);
      }
    }
  }

  /** The entry an address is found at after a merge. */
  lemma MergedMatch(existing: seq<Upstream>, result: ResolveResult, poolType: PoolType, now: Time, addr: Addr)
    ensures var merged := MergePool(existing, result, poolType, now);
            && (Has(merged, addr) <==> if result.Resolved? then addr in result.addrs else Has(existing, addr))
            && (Has(merged, addr) ==>
                  merged[FirstMatch(merged, addr)] ==
                  if Has(existing, addr) then existing[FirstMatch(existing, addr)] else Fresh(addr, poolType, now))
  {
    MergeMembership(existing, result, poolType, now);
    HasIffListed(MergePool(existing, result, poolType, now), addr);
    HasIffListed(existing, addr);
  }

  // --- Cadence ---

  const SECOND: Time := 1_000_000_000
  const INITIAL_RETRY_INTERVAL: Time := 2 * SECOND
  /** The largest representable duration; multiplication saturates there. */
  const DURATION_MAX: Time := 0x1_0000_0000_0000_0000 * SECOND - 1

  function Min(a: nat, b: nat): nat {
    if a <= b then a else b
  }

  function Max(a: nat, b: nat): nat {
    if a <= b then b else a
  }

  function SaturatingDouble(d: Time): Time {
    Min(2 * d, DURATION_MAX)
  }

  function Pow2(k: nat): nat {
    if k == 0 then 1 else 2 * Pow2(k - 1)
  }

  function ComputeNextInterval(previous: Time, wasHealthy: bool, isHealthy: bool, max: Time): Time {
    var initial := Min(INITIAL_RETRY_INTERVAL, max);
    if isHealthy then max
    else if wasHealthy then initial
    else Max(Min(SaturatingDouble(previous), max), initial)
  }

  function Healthy(results: (ResolveResult, ResolveResult)): bool {
    results.0.HasAddrs() || results.1.HasAddrs()
  }

  /** Loop state after a history of refreshes: the next sleep and the last health verdict. */
  datatype Cadence = Cadence(sleepFor: Time, lastHealthy: bool)

  function After(history: seq<bool>, max: Time): Cadence {
    if history == [] then Cadence(0, true)
    else
      var before := After(history[..|history| - 1], max);
      var healthy := history[|history| - 1];
      Cadence(ComputeNextInterval(before.sleepFor, before.lastHealthy, healthy, max), healthy)
  }

  /** A history that ends healthy, or is empty, followed by k unhealthy refreshes. */
  function Outage(before: seq<bool>, k: nat): seq<bool> {
    before + seq(k, i => false)
  }

  predicate EndsHealthy(history: seq<bool>) {
    history == [] || history[|history| - 1]
  }

  /** One more unhealthy refresh in the outage. */
  lemma OutageStep(before: seq<bool>, k: nat, max: Time)
    requires k > 0
    ensures var previous := After(Outage(before, k - 1), max);
            After(Outage(before, k), max) ==
            Cadence(ComputeNextInterval(previous.sleepFor, previous.lastHealthy, false, max), false)
  {
    var history := Outage(before, k);
    assert history[..|history| - 1] == Outage(before, k - 1);
  }

  /** After any history, the k-th unhealthy refresh in a row schedules min(2 s * 2^(k-1), max). */
  lemma {:induction false} OutageSleep(before: seq<bool>, k: nat, max: Time)
    requires EndsHealthy(before) && k > 0 && max <= DURATION_MAX
    ensures After(Outage(before, k), max) == Cadence(Min(INITIAL_RETRY_INTERVAL * Pow2(k - 1), max), false)
  {
    OutageStep(before, k, max);
    if k == 1 {
      assert Outage(before, 0) == before;
      FirstUnhealthy(before, max);
    } else {
      OutageSleep(before, k - 1, max);
      AtLeastInitial(k - 2);
      NextUnhealthy(INITIAL_RETRY_INTERVAL * Pow2(k - 2), max);
    }
  }

  lemma FirstUnhealthy(before: seq<bool>, max: Time)
    requires EndsHealthy(before)
    ensures After(before, max).lastHealthy
    ensures forall previous: Time ::
              ComputeNextInterval(previous, true, false, max) == Min(INITIAL_RETRY_INTERVAL * Pow2(0), max)
  {
  }

  lemma AtLeastInitial(k: nat)
    ensures INITIAL_RETRY_INTERVAL * Pow2(k) >= INITIAL_RETRY_INTERVAL
    ensures INITIAL_RETRY_INTERVAL * Pow2(k + 1) == 2 * (INITIAL_RETRY_INTERVAL * Pow2(k))
  {
    PowPositive(k);
  }

  /** One more unhealthy refresh doubles the interval up to the cap. */
  lemma NextUnhealthy(reached: nat, max: Time)
    requires max <= DURATION_MAX && reached >= INITIAL_RETRY_INTERVAL
    ensures ComputeNextInterval(Min(reached, max), false, false, max) == Min(2 * reached, max)
  {
  }

  /** The refresh found an address in either pool. */
  predicate Listed(results: (ResolveResult, ResolveResult)) {
    || (results.0.Resolved? && |results.0.addrs| > 0)
    || (results.1.Resolved? && |results.1.addrs| > 0)
  }

  /** Refreshes a to b - 1 found nothing, the first of them after a refresh that did or at the start. */
  ghost predicate OutageSpan(results: seq<(ResolveResult, ResolveResult)>, a: nat, b: nat) {
    && a < b <= |results|
    && (a == 0 || Listed(results[a - 1]))
    && forall k :: a <= k < b ==> !Listed(results[k])
  }

  lemma HealthyResult(history: seq<bool>, k: nat, max: Time)
    requires k < |history| && history[k]
    ensures After(history[..k + 1], max) == Cadence(max, true)
  {
    assert history[..k + 1][..k] == history[..k];
  }

  lemma OutageResults(history: seq<bool>, a: nat, b: nat, max: Time)
    requires a < b <= |history| && max <= DURATION_MAX
    requires (a == 0 || history[a - 1]) && forall k :: a <= k < b ==> !history[k]
    ensures After(history[..b], max).sleepFor == Min(2_000_000_000 * Pow2(b - a - 1), max)
  {
    assert history[..b] == Outage(history[..a], b - a);
    OutageSleep(history[..a], b - a, max);
  }

  /** The waits of the loop, read off what the refreshes found. */
  lemma SleepsByResults(results: seq<(ResolveResult, ResolveResult)>, history: seq<bool>, max: Time, waits: seq<Time>)
    requires |history| == |results| && |waits| == |results| + 1
    requires forall k :: 0 <= k < |results| ==> history[k] == Healthy(results[k])
    requires forall k :: 0 <= k < |waits| ==> waits[k] == After(history[..k], max).sleepFor
    ensures waits[0] == 0
    ensures forall k :: 0 <= k < |results| && Listed(results[k]) ==> waits[k + 1] == max
    ensures max <= DURATION_MAX ==>
              forall a: nat, b: nat :: OutageSpan(results, a, b) ==>
                waits[b] == Min(2_000_000_000 * Pow2(b - a - 1), max)
  {
    forall k | 0 <= k < |results|
      ensures history[k] == Listed(results[k])
      ensures Listed(results[k]) ==> waits[k + 1] == max
    {
      if history[k] {
        HealthyResult(history, k, max);
      }
    }
    forall a: nat, b: nat | OutageSpan(results, a, b) && max <= DURATION_MAX
      ensures waits[b] == Min(2_000_000_000 * Pow2(b - a - 1), max)
    {
      OutageResults(history, a, b, max);
    }
  }

  /** The discovery loop over finitely many refreshes; `sleeps[k]` is what refresh k waited for. */
  method Run(results: seq<(ResolveResult, ResolveResult)>, max: Time) returns (sleeps: seq<Time>, next: Time)
    ensures |sleeps| == |results|
    ensures (sleeps + [next])[0] == 0
    ensures forall k :: 0 <= k < |results| && Listed(results[k]) ==> (sleeps + [next])[k + 1] == max
    ensures max <= DURATION_MAX ==>
              forall a: nat, b: nat :: OutageSpan(results, a, b) ==>
                (sleeps + [next])[b] == Min(2_000_000_000 * Pow2(b - a - 1), max)
    ensures var history := seq(|results|, i requires 0 <= i < |results| => Healthy(results[i]));
            && (forall k :: 0 <= k < |sleeps| ==> sleeps[k] == After(history[..k], max).sleepFor)
            && next == After(history, max).sleepFor
  {
    ghost var history := seq(|results|, i requires 0 <= i < |results| => Healthy(results[i]));
    sleeps := [];
    var sleepFor, lastHealthy := 0, true;
    for i := 0 to |results|
      invariant |sleeps| == i
      invariant Cadence(sleepFor, lastHealthy) == After(history[..i], max)
      invariant forall k :: 0 <= k < i ==> sleeps[k] == After(history[..k], max).sleepFor
    {
      sleeps := sleeps + [sleepFor];
      var healthy := results[i].0.HasAddrs() || results[i].1.HasAddrs();
      assert history[..i + 1][..i] == history[..i];
      sleepFor := ComputeNextInterval(sleepFor, lastHealthy, healthy, max);
      lastHealthy := healthy;
    }
    assert history[..|results|] == history;
    next := sleepFor;
    SleepsByResults(results, history, max, sleeps + [next]);
  }

  /** Neither the lower clamp nor the saturation ever changes a value the loop can reach. */
  lemma ClampUnobservable(before: seq<bool>, k: nat, max: Time)
    requires EndsHealthy(before) && k > 0 && max <= DURATION_MAX
    ensures var previous := After(Outage(before, k), max).sleepFor;
            ComputeNextInterval(previous, false, false, max) == Min(2 * previous, max)
  {
    OutageSleep(before, k, max);
    PowPositive(k - 1);
  }

  lemma PowPositive(k: nat)
    ensures Pow2(k) >= 1
  {
  }

  /** Total time scheduled by the first m refreshes of an outage. */
  function OutageTotal(before: seq<bool>, m: nat, max: Time): Time {
    if m == 0 then 0 else OutageTotal(before, m - 1, max) + After(Outage(before, m), max).sleepFor
  }

  /** How many of the first m backoff steps 2^j s, j >= 1, stay below the refresh interval. */
  function ShortSteps(m: nat, max: Time): nat {
    if m == 0 then 0
    else ShortSteps(m - 1, max) + if SECOND * Pow2(m) < max then 1 else 0
  }

  /** In doubled steps of one second: what the m-th unhealthy refresh schedules. */
  lemma StepLength(before: seq<bool>, m: nat, max: Time)
    requires EndsHealthy(before) && m > 0 && max <= DURATION_MAX
    ensures After(Outage(before, m), max).sleepFor == Min(SECOND * Pow2(m), max)
  {
    OutageSleep(before, m, max);
    InSeconds(m - 1);
  }

  lemma InSeconds(k: nat)
    ensures INITIAL_RETRY_INTERVAL * Pow2(k) == SECOND * Pow2(k + 1)
  {
  }

  /** A step is either counted as short or takes the whole interval. */
  lemma CountStep(full: int, total: nat, step: nat, max: Time)
    requires full * max <= total
    ensures (full + if step < max then 0 else 1) * max <= total + Min(step, max)
  {
    OneMore(full, max);
  }

  lemma {:induction false} OutageLength(before: seq<bool>, m: nat, max: Time)
    requires EndsHealthy(before) && max <= DURATION_MAX
    ensures (m - ShortSteps(m, max)) * max <= OutageTotal(before, m, max)
  {
    if m > 0 {
      OutageLength(before, m - 1, max);
      StepLength(before, m, max);
      CountStep(m - 1 - ShortSteps(m - 1, max), OutageTotal(before, m - 1, max), SECOND * Pow2(m), max);
    }
  }

  /** An outage of total length L holds at most c + L / max refreshes. */
  lemma OutageBound(before: seq<bool>, m: nat, max: Time)
    requires EndsHealthy(before) && max <= DURATION_MAX
    ensures (m - ShortSteps(m, max)) * max <= OutageTotal(before, m, max)
    ensures max > 0 ==> m <= ShortSteps(m, max) + OutageTotal(before, m, max) / max
  {
    OutageLength(before, m, max);
    if max > 0 {
      QuotientBound(m - ShortSteps(m, max), OutageTotal(before, m, max), max);
    }
  }

  lemma OneMore(k: int, d: nat)
    ensures (k + 1) * d == k * d + d
  {
  }

  lemma QuotientBound(k: int, total: nat, d: nat)
    requires d > 0 && k * d <= total
    ensures k <= total / d
  {
    assert total < (total / d + 1) * d;
    CancelFactor(k, total / d + 1, d);
  }

  lemma CancelFactor(a: int, b: int, d: nat)
    requires a * d < b * d
    ensures a < b
  {
  }

  /** ShortSteps settles at the number of steps below `max`, so the bound is one for the whole outage. */
  lemma {:induction false} ShortStepsSettle(m: nat, n: nat, max: Time)
    requires m <= n && SECOND * Pow2(m + 1) >= max
    ensures ShortSteps(n, max) == ShortSteps(m, max)
  {
    if m < n {
      ShortStepsSettle(m, n - 1, max);
      PowMonotone(m + 1, n);
    }
  }

  lemma {:induction false} PowMonotone(j: nat, k: nat)
    requires j <= k
    ensures Pow2(j) <= Pow2(k)
  {
    if j < k {
      PowMonotone(j, k - 1);
    }
  }
}
