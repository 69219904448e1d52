/** Routing policy: which upstream a snapshot offers at a clock reading. */
module Policy {
  import opened Snapshot

  datatype Pick = Pick(addr: Addr, poolType: PoolType)

  predicate IsOkEligible(u: Upstream, now: Time) {
    u.status == Ok && !u.InCooldown(now)
  }

  predicate IsLoadingEligible(u: Upstream, now: Time) {
    u.status == Loading && u.liveWorkers > 0 && !u.InCooldown(now)
  }

  predicate Eligible(u: Upstream, now: Time) {
    IsOkEligible(u, now) || IsLoadingEligible(u, now)
  }

  /** The filters the pick functions use. */
  datatype Filter = OkOnly | LoadingOnly | OkExcept(excluded: seq<Addr>) | LoadingExcept(excluded: seq<Addr>)

  predicate Passes(f: Filter, u: Upstream, now: Time) {
    match f
    case OkOnly => IsOkEligible(u, now)
    case LoadingOnly => IsLoadingEligible(u, now)
    case OkExcept(excluded) => u.addr !in excluded && IsOkEligible(u, now)
    case LoadingExcept(excluded) => u.addr !in excluded && IsLoadingEligible(u, now)
  }

  /** Filter, then `min_by_key` on queue depth: the first of the least loaded. */
  function LeastLoaded(pool: seq<Upstream>, f: Filter, now: Time): (r: Option<nat>)
    ensures r.None? ==> forall i :: 0 <= i < |pool| ==> !Passes(f, pool[i], now)
    ensures r.Some? ==> r.value < |pool| && Passes(f, pool[r.value], now)
    ensures r.Some? ==> forall i :: 0 <= i < |pool| && Passes(f, pool[i], now) ==>
                                      || pool[r.value].queueDepth < pool[i].queueDepth
                                      || (pool[r.value].queueDepth == pool[i].queueDepth && r.value <= i)
  {
    if pool == [] then None
    else
      var last := |pool| - 1;
      var best := LeastLoaded(pool[..last], f, now);
      if Passes(f, pool[last], now) && (best.None? || pool[last].queueDepth < pool[best.value].queueDepth)
      then Some(last) else best
  }

  function OrElse(first: Option<Pick>, second: Option<Pick>): Option<Pick> {
    if first.Some? then first else second
  }

  function ToPick(pool: seq<Upstream>, poolType: PoolType, index: Option<nat>): Option<Pick>
    requires index.Some? ==> index.value < |pool|
  {
    if index.Some? then Some(Pick(pool[index.value].addr, poolType)) else None
  }

  function PickOk(pool: seq<Upstream>, poolType: PoolType, now: Time): Option<Pick> {
    ToPick(pool, poolType, LeastLoaded(pool, OkOnly, now))
  }

  function PickLoading(pool: seq<Upstream>, poolType: PoolType, now: Time): Option<Pick> {
    ToPick(pool, poolType, LeastLoaded(pool, LoadingOnly, now))
  }

  function PickBest(s: PoolSnapshot, now: Time): Option<Pick> {
    OrElse(PickOk(s.gpu, Gpu, now),
           OrElse(PickOk(s.cpu, Cpu, now),
                  OrElse(PickLoading(s.gpu, Gpu, now), PickLoading(s.cpu, Cpu, now))))
  }

  function PickGpu(s: PoolSnapshot, now: Time): Option<Pick> {
    OrElse(PickOk(s.gpu, Gpu, now), PickLoading(s.gpu, Gpu, now))
  }

  function PickCpu(s: PoolSnapshot, now: Time): Option<Pick> {
    OrElse(PickOk(s.cpu, Cpu, now), PickLoading(s.cpu, Cpu, now))
  }

  /** Position chosen by `pick_tier` under an exclusion list. */
  function PickTierIndex(pool: seq<Upstream>, now: Time, excluded: seq<Addr>): (r: Option<nat>)
    ensures r.Some? ==> r.value < |pool|
  {
    var ok := LeastLoaded(pool, OkExcept(excluded), now);
    if ok.Some? then ok
    else LeastLoaded(pool, LoadingExcept(excluded), now)
  }

  function PickGpuExcludingSet(s: PoolSnapshot, excluded: seq<Addr>, now: Time): Option<Pick> {
    ToPick(s.gpu, Gpu, PickTierIndex(s.gpu, now, excluded))
  }

  // --- The reference order ---

  /** One routable entry: its pool and its position there. */
  datatype Candidate = Candidate(poolType: PoolType, index: nat)

  predicate InSnapshot(s: PoolSnapshot, c: Candidate) {
    c.index < |s.Pool(c.poolType)|
  }

  function Entry(s: PoolSnapshot, c: Candidate): Upstream
    requires InSnapshot(s, c)
  {
    s.Pool(c.poolType)[c.index]
  }

  /** Ok before Loading, and within a status GPU before CPU. */
  function Tier(status: Status, poolType: PoolType): nat {
    match status
    case Ok => if poolType == Gpu then 0 else 1
    case Loading => if poolType == Gpu then 2 else 3
    case _ => 4
  }

  datatype Key = Key(tier: nat, depth: nat, position: nat) {
    predicate AtMost(other: Key) {
      || tier < other.tier
      || (tier == other.tier && depth < other.depth)
      || (tier == other.tier && depth == other.depth && position <= other.position)
    }
  }

  function KeyOf(s: PoolSnapshot, c: Candidate): Key
    requires InSnapshot(s, c)
  {
    Key(Tier(Entry(s, c).status, c.poolType), Entry(s, c).queueDepth, c.index)
  }

  predicate Routable(s: PoolSnapshot, c: Candidate, now: Time) {
    InSnapshot(s, c) && Eligible(Entry(s, c), now)
  }

  /** The least routable entry of the pools in `scope`. */
  ghost predicate IsArgmin(s: PoolSnapshot, scope: set<PoolType>, c: Candidate, now: Time) {
    && c.poolType in scope
    && Routable(s, c, now)
    && forall d: Candidate :: d.poolType in scope && Routable(s, d, now) ==> KeyOf(s, c).AtMost(KeyOf(s, d))
  }

  predicate Names(s: PoolSnapshot, c: Candidate, p: Pick) {
    InSnapshot(s, c) && p == Pick(Entry(s, c).addr, c.poolType)
  }

  /** Distinct candidates have distinct keys, so there is at most one argmin. */
  lemma ArgminUnique(s: PoolSnapshot, scope: set<PoolType>, c: Candidate, d: Candidate, now: Time)
    requires IsArgmin(s, scope, c, now) && IsArgmin(s, scope, d, now)
    ensures c == d
  {
    assert KeyOf(s, c).AtMost(KeyOf(s, d)) && KeyOf(s, d).AtMost(KeyOf(s, c));
  }

  /** `p` names the argmin over the pools in `scope`, and is absent exactly when nothing is routable. */
  ghost predicate ChoosesArgmin(s: PoolSnapshot, scope: set<PoolType>, p: Option<Pick>, now: Time) {
    match p
    case None => forall c: Candidate :: c.poolType in scope ==> !Routable(s, c, now)
    case Some(pick) => exists c: Candidate :: IsArgmin(s, scope, c, now) && Names(s, c, pick)
  }

  /** The least loaded entry of one stage is the argmin, once all better stages came up empty. */
  lemma StageIsArgmin(s: PoolSnapshot, scope: set<PoolType>, t: PoolType, f: Filter, r: Option<nat>, now: Time)
    requires t in scope && (f == OkOnly || f == LoadingOnly) && r == LeastLoaded(s.Pool(t), f, now) && r.Some?
    requires var tier := Tier(if f == OkOnly then Ok else Loading, t);
             forall d: Candidate :: d.poolType in scope && Routable(s, d, now) ==>
                                      Tier(Entry(s, d).status, d.poolType) >= tier
    ensures IsArgmin(s, scope, Candidate(t, r.value), now)
  {
  }

  lemma EmptyStage(s: PoolSnapshot, t: PoolType, f: Filter, now: Time)
    requires LeastLoaded(s.Pool(t), f, now).None?
    ensures forall d: Candidate :: d.poolType == t && InSnapshot(s, d) ==> !Passes(f, Entry(s, d), now)
  {
  }

  /** The staged chain of `pick` is one lexicographic argmin over (tier, depth, position) of both pools. */
  lemma PickIsArgmin(s: PoolSnapshot, now: Time)
    ensures ChoosesArgmin(s, {Gpu, Cpu}, PickBest(s, now), now)
  {
    var gpuOk, cpuOk := LeastLoaded(s.gpu, OkOnly, now), LeastLoaded(s.cpu, OkOnly, now);
    var gpuLoading, cpuLoading := LeastLoaded(s.gpu, LoadingOnly, now), LeastLoaded(s.cpu, LoadingOnly, now);
    if gpuOk.Some? {
      StageIsArgmin(s, {Gpu, Cpu}, Gpu, OkOnly, gpuOk, now);
    } else {
      EmptyStage(s, Gpu, OkOnly, now);
      if cpuOk.Some? {
        StageIsArgmin(s, {Gpu, Cpu}, Cpu, OkOnly, cpuOk, now);
      } else {
        EmptyStage(s, Cpu, OkOnly, now);
        if gpuLoading.Some? {
          StageIsArgmin(s, {Gpu, Cpu}, Gpu, LoadingOnly, gpuLoading, now);
        } else {
          EmptyStage(s, Gpu, LoadingOnly, now);
          if cpuLoading.Some? {
            StageIsArgmin(s, {Gpu, Cpu}, Cpu, LoadingOnly, cpuLoading, now);
          } else {
            EmptyStage(s, Cpu, LoadingOnly, now);
          }
        }
      }
    }
  }

  lemma PickGpuIsArgmin(s: PoolSnapshot, now: Time)
    ensures ChoosesArgmin(s, {Gpu}, PickGpu(s, now), now)
  {
    var ok := LeastLoaded(s.gpu, OkOnly, now);
    var loading := LeastLoaded(s.gpu, LoadingOnly, now);
    if ok.Some? {
      assert IsArgmin(s, {Gpu}, Candidate(Gpu, ok.value), now);
    } else if loading.Some? {
      assert IsArgmin(s, {Gpu}, Candidate(Gpu, loading.value), now);
    }
  }

  lemma PickCpuIsArgmin(s: PoolSnapshot, now: Time)
    ensures ChoosesArgmin(s, {Cpu}, PickCpu(s, now), now)
  {
    var ok := LeastLoaded(s.cpu, OkOnly, now);
    var loading := LeastLoaded(s.cpu, LoadingOnly, now);
    if ok.Some? {
      assert IsArgmin(s, {Cpu}, Candidate(Cpu, ok.value), now);
    } else if loading.Some? {
      assert IsArgmin(s, {Cpu}, Candidate(Cpu, loading.value), now);
    }
  }

  /** Letting time pass on a fixed snapshot only adds candidates, and the choice never gets worse. */
  lemma ClockOnlyHelps(s: PoolSnapshot, scope: set<PoolType>, now: Time, later: Time)
    requires now <= later
    ensures forall c: Candidate :: Routable(s, c, now) ==> Routable(s, c, later)
    ensures forall c, d: Candidate :: IsArgmin(s, scope, c, now) && IsArgmin(s, scope, d, later) ==>
                                        KeyOf(s, d).AtMost(KeyOf(s, c))
  {
    forall c: Candidate | Routable(s, c, now)
      ensures Routable(s, c, later)
    {
      assert Entry(s, c).InCooldown(later) ==> Entry(s, c).InCooldown(now);
    }
  }

  /** What the pick functions can return, on the fields of an upstream. */
  predicate CanServe(u: Upstream, now: Time) {
    && (u.status == Ok || (u.status == Loading && u.liveWorkers > 0))
    && (u.cooldownUntil.None? || u.cooldownUntil.value <= now)
  }

  lemma EligibleOnFields(u: Upstream, now: Time)
    ensures Eligible(u, now) <==> CanServe(u, now)
    ensures IsOkEligible(u, now) <==> CanServe(u, now) && u.status == Ok
  {
  }

  /** Entry i of pool t goes before entry j of pool v: Ok first, then GPU, then the shorter queue. */
  predicate Precedes(s: PoolSnapshot, t: PoolType, i: nat, v: PoolType, j: nat)
    requires i < |s.Pool(t)| && j < |s.Pool(v)|
  {
    var a, b := s.Pool(t)[i], s.Pool(v)[j];
    if a.status != b.status then a.status == Ok
    else if t != v then t == Gpu
    else a.queueDepth < b.queueDepth || (a.queueDepth == b.queueDepth && i <= j)
  }

  /** `pick` on the fields: nothing iff no upstream can serve, else the address of the first one that can. */
  lemma PickOnFields(s: PoolSnapshot, now: Time)
    ensures PickBest(s, now).None? <==>
            forall t: PoolType, i: nat :: i < |s.Pool(t)| ==> !CanServe(s.Pool(t)[i], now)
    ensures PickBest(s, now).Some? ==>
              var t := PickBest(s, now).value.poolType;
              exists i: nat :: i < |s.Pool(t)| && CanServe(s.Pool(t)[i], now) &&
                s.Pool(t)[i].addr == PickBest(s, now).value.addr &&
                forall v: PoolType, j: nat :: j < |s.Pool(v)| && CanServe(s.Pool(v)[j], now) ==> Precedes(s, t, i, v, j)
  {
    PickIsArgmin(s, now);
    if PickBest(s, now).Some? {
      var c: Candidate :| IsArgmin(s, {Gpu, Cpu}, c, now) && Names(s, c, PickBest(s, now).value);
      var t, i := c.poolType, c.index;
      EligibleOnFields(s.Pool(t)[i], now);
      forall v: PoolType, j: nat | j < |s.Pool(v)| && CanServe(s.Pool(v)[j], now)
        ensures Precedes(s, t, i, v, j)
      {
        EligibleOnFields(s.Pool(v)[j], now);
        assert Routable(s, Candidate(v, j), now);
        assert KeyOf(s, c).AtMost(KeyOf(s, Candidate(v, j)));
      }
    } else {
      forall t: PoolType, i: nat | i < |s.Pool(t)|
        ensures !CanServe(s.Pool(t)[i], now)
      {
        EligibleOnFields(s.Pool(t)[i], now);
        assert !Routable(s, Candidate(t, i), now);
      }
    }
  }

  // --- Exclusion ---

  predicate Open(pool: seq<Upstream>, i: nat, now: Time, excluded: seq<Addr>) {
    i < |pool| && Eligible(pool[i], now) && pool[i].addr !in excluded
  }

  function GpuKey(pool: seq<Upstream>, i: nat): Key
    requires i < |pool|
  {
    Key(Tier(pool[i].status, Gpu), pool[i].queueDepth, i)
  }

  /** `pick_tier` returns the least entry that is eligible and not excluded. */
  lemma PickTierIsLeast(pool: seq<Upstream>, now: Time, excluded: seq<Addr>)
    ensures var r := PickTierIndex(pool, now, excluded);
            && (r.None? ==> forall i :: 0 <= i < |pool| ==> !Open(pool, i, now, excluded))
            && (r.Some? ==> Open(pool, r.value, now, excluded))
            && (r.Some? ==> forall i :: 0 <= i < |pool| && Open(pool, i, now, excluded) ==>
                                          GpuKey(pool, r.value).AtMost(GpuKey(pool, i)))
  {
  }

  /** Without exclusions it is `pick_gpu`. */
  lemma EmptyExclusionIsPickGpu(s: PoolSnapshot, now: Time)
    ensures PickGpuExcludingSet(s, [], now) == PickGpu(s, now)
  {
    PickTierIsLeast(s.gpu, now, []);
    PickGpuIsArgmin(s, now);
    var r := PickTierIndex(s.gpu, now, []);
    if r.Some? {
      var mine := Candidate(Gpu, r.value);
      assert Routable(s, mine, now);
      assert KeyOf(s, mine) == GpuKey(s.gpu, r.value);
      forall d: Candidate | d.poolType in {Gpu} && Routable(s, d, now)
        ensures KeyOf(s, mine).AtMost(KeyOf(s, d))
      {
        assert Open(s.gpu, d.index, now, []);
        assert KeyOf(s, d) == GpuKey(s.gpu, d.index);
      }
      assert PickGpu(s, now).Some?;
      var c: Candidate :| IsArgmin(s, {Gpu}, c, now) && Names(s, c, PickGpu(s, now).value);
      ArgminUnique(s, {Gpu}, c, mine, now);
    } else {
      assert forall i :: 0 <= i < |s.gpu| ==> !Eligible(s.gpu[i], now) by {
        forall i | 0 <= i < |s.gpu|
          ensures !Eligible(s.gpu[i], now)
        {
          assert !Open(s.gpu, i, now, []);
        }
      }
    }
  }

  function OpenSet(pool: seq<Upstream>, now: Time, excluded: seq<Addr>): set<nat> {
    set i: nat | i < |pool| && Open(pool, i, now, excluded)
  }

  /** Positions found by picking again and again, each time excluding what was picked before. */
  function Enumerate(pool: seq<Upstream>, now: Time, excluded: seq<Addr>): seq<nat>
    decreases |OpenSet(pool, now, excluded)|
  {
    PickTierIsLeast(pool, now, excluded);
    var r := PickTierIndex(pool, now, excluded);
    if r.None? then []
    else
      var wider := excluded + [pool[r.value].addr];
      ExclusionShrinks(pool, now, excluded, r.value);
      [r.value] + Enumerate(pool, now, wider)
  }

  lemma ExclusionShrinks(pool: seq<Upstream>, now: Time, excluded: seq<Addr>, i: nat)
    requires Open(pool, i, now, excluded)
    ensures |OpenSet(pool, now, excluded + [pool[i].addr])| < |OpenSet(pool, now, excluded)|
  {
    var before, after := OpenSet(pool, now, excluded), OpenSet(pool, now, excluded + [pool[i].addr]);
    assert after <= before - {i};
    SubsetSize(after, before - {i});
  }

  lemma SubsetSize(a: set<nat>, b: set<nat>)
    requires a <= b
    ensures |a| <= |b|
  {
    if a != {} {
      var x :| x in a;
      SubsetSize(a - {x}, b - {x});
    }
  }

  /** Strictly increasing in key: every position before another one has the smaller key. */
  ghost predicate SortedByKey(pool: seq<Upstream>, order: seq<nat>) {
    && (forall a :: 0 <= a < |order| ==> order[a] < |pool|)
    && forall a, b :: 0 <= a < b < |order| ==>
         order[a] != order[b] && GpuKey(pool, order[a]).AtMost(GpuKey(pool, order[b]))
  }

  lemma PrependLeast(pool: seq<Upstream>, first: nat, rest: seq<nat>)
    requires first < |pool| && SortedByKey(pool, rest)
    requires forall i :: i in rest ==> i != first && i < |pool| && GpuKey(pool, first).AtMost(GpuKey(pool, i))
    ensures SortedByKey(pool, [first] + rest)
  {
    var order := [first] + rest;
    forall b | 0 < b < |order|
      ensures order[b] in rest && order[b] == rest[b - 1]
    {
    }
  }

  lemma ExclusionDropsOne(pool: seq<Upstream>, now: Time, excluded: seq<Addr>, first: nat)
    requires Distinct(Addrs(pool)) && Open(pool, first, now, excluded)
    ensures forall i: nat ::
              Open(pool, i, now, excluded + [pool[first].addr]) <==> i != first && Open(pool, i, now, excluded)
  {
    assert forall i :: 0 <= i < |pool| ==> Addrs(pool)[i] == pool[i].addr;
  }

  /**
   * With distinct addresses, repeated exclusion lists exactly the open positions, in strictly
   * increasing key order; so it is the stable sort of the eligible upstreams, and then nothing.
   */
  lemma {:induction false} EnumerateIsSortedEligible(pool: seq<Upstream>, now: Time, excluded: seq<Addr>)
    requires Distinct(Addrs(pool))
    ensures forall i: nat :: i in Enumerate(pool, now, excluded) <==> Open(pool, i, now, excluded)
    ensures SortedByKey(pool, Enumerate(pool, now, excluded))
    decreases |OpenSet(pool, now, excluded)|
  {
    PickTierIsLeast(pool, now, excluded);
    var r := PickTierIndex(pool, now, excluded);
    if r.Some? {
      var first := r.value;
      var wider := excluded + [pool[first].addr];
      ExclusionShrinks(pool, now, excluded, first);
      ExclusionDropsOne(pool, now, excluded, first);
      EnumerateIsSortedEligible(pool, now, wider);
      PrependLeast(pool, first, Enumerate(pool, now, wider));
    }
  }

  // --- Candidates of a hedged request ---

  /** The hedge target: another GPU when there is one, else the CPU choice. */
  function Secondary(s: PoolSnapshot, primary: Option<Pick>, exclusionNow: Time, cpu: Option<Pick>): Option<Pick> {
    OrElse(if primary.Some? then PickGpuExcludingSet(s, [primary.value.addr], exclusionNow) else None, cpu)
  }

  /** A GPU hedge target is never the primary; the CPU is raced only if no other GPU is eligible. */
  lemma SecondaryDiffers(s: PoolSnapshot, gpuNow: Time, cpuNow: Time, exclusionNow: Time)
    requires PickGpu(s, gpuNow).Some?
    ensures var primary := PickGpu(s, gpuNow);
            var secondary := Secondary(s, primary, exclusionNow, PickCpu(s, cpuNow));
            && (secondary.Some? && secondary.value.poolType == Gpu ==> secondary.value.addr != primary.value.addr)
            && (secondary.None? || secondary.value.poolType == Cpu <==>
                  forall i :: 0 <= i < |s.gpu| ==> !Open(s.gpu, i, exclusionNow, [primary.value.addr]))
  {
    PickTierIsLeast(s.gpu, exclusionNow, [PickGpu(s, gpuNow).value.addr]);
  }
}
