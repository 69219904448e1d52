/** Cooldown of failing upstreams: `trip` and its in-place pool update. */
module CircuitBreaker {
  import opened Snapshot

  function TripEntry(u: Upstream, until: Time, now: Time): Upstream {
    if u.InCooldown(now) then u else u.(cooldownUntil := Some(until))
  }

  predicate Trips(pool: seq<Upstream>, addr: Addr, now: Time) {
    Has(pool, addr) && !pool[FirstMatch(pool, addr)].InCooldown(now)
  }

  /** Only the first upstream with the address is touched, and only outside a running cooldown. */
  function TripPool(pool: seq<Upstream>, addr: Addr, until: Time, now: Time): seq<Upstream> {
    var i := FirstMatch(pool, addr);
    if i < |pool| then pool[i := TripEntry(pool[i], until, now)] else pool
  }

  /** Clock readings of one pass of the update closure: one per pool, then the stamp. */
  datatype Readings = Readings(gpuNow: Time, cpuNow: Time, stamp: Time) {
    function For(t: PoolType): Time {
      match t
      case Gpu => gpuNow
      case Cpu => cpuNow
    }
  }

  function TripSnapshot(s: PoolSnapshot, addr: Addr, until: Time, at: Readings): PoolSnapshot {
    PoolSnapshot(
      TripPool(s.gpu, addr, until, at.gpuNow),
      TripPool(s.cpu, addr, until, at.cpuNow),
      if Trips(s.gpu, addr, at.gpuNow) || Trips(s.cpu, addr, at.cpuNow) then at.stamp else s.updatedAt)
  }

  /** Some entry with the address, in either pool, is cooling down. */
  predicate AlreadyCooled(s: PoolSnapshot, addr: Addr, now: Time) {
    exists u :: u in s.gpu + s.cpu && u.addr == addr && u.InCooldown(now)
  }

  method TripPoolInPlace(pool: array<Upstream>, addr: Addr, until: Time, now: Time) returns (changed: bool)
    modifies pool
    ensures pool[..] == TripPool(old(pool[..]), addr, until, now)
    ensures changed <==> Trips(old(pool[..]), addr, now)
  {
    var i := 0;
    while i < pool.Length && pool[i].addr != addr
      invariant 0 <= i <= pool.Length
      invariant forall j :: 0 <= j < i ==> pool[j].addr != addr
    {
      i := i + 1;
    }
    assert i == FirstMatch(pool[..], addr);
    if i == pool.Length || pool[i].InCooldown(now) {
      assert TripPool(pool[..], addr, until, now) == pool[..];
      return false;
    }
    pool[i] := pool[i].(cooldownUntil := Some(until));
    return true;
  }

  method ScanCooled(s: PoolSnapshot, addr: Addr, now: Time) returns (cooled: bool)
    ensures cooled <==> AlreadyCooled(s, addr, now)
  {
    var all := s.gpu + s.cpu;
    for i := 0 to |all|
      invariant forall j :: 0 <= j < i ==> !(all[j].addr == addr && all[j].InCooldown(now))
    {
      if all[i].addr == addr && all[i].InCooldown(now) {
        return true;
      }
    }
    return false;
  }

  /** The snapshot the last compare-and-swap of an rcu loop works from. */
  function LastPublished(first: PoolSnapshot, rivals: seq<PoolSnapshot>): PoolSnapshot {
    if rivals == [] then first else rivals[|rivals| - 1]
  }

  /**
   * `rivals` are the publications other tasks slip in between a load and the swap that follows it;
   * `readings(k)` is what the clock shows during pass k of the update closure.
   */
  method Trip(pool: ArcSwap, addr: Addr, duration: Time, now: Time,
              rivals: seq<PoolSnapshot>, readings: nat -> Readings)
    modifies pool
    ensures duration == 0 || AlreadyCooled(old(pool.snapshot), addr, now) ==>
              pool.snapshot == old(pool.snapshot) && pool.version == old(pool.version)
    ensures duration > 0 && !AlreadyCooled(old(pool.snapshot), addr, now) ==>
              && pool.snapshot ==
                 TripSnapshot(LastPublished(old(pool.snapshot), rivals), addr, now + duration, readings(|rivals|))
              && pool.version == old(pool.version) + |rivals| + 1
  {
    if duration == 0 {
      return;
    }
    var alreadyCooled := ScanCooled(pool.snapshot, addr, now);
    if alreadyCooled {
      return;
    }
    var until := now + duration;
    var swapped := false;
    var k := 0;
    while !swapped
      invariant k <= |rivals| + 1
      invariant !swapped ==> k <= |rivals| && pool.version == old(pool.version) + k
      invariant !swapped ==> pool.snapshot == LastPublished(old(pool.snapshot), rivals[..k])
      invariant swapped ==> pool.version == old(pool.version) + |rivals| + 1
      invariant swapped ==> pool.snapshot ==
                            TripSnapshot(LastPublished(old(pool.snapshot), rivals), addr, until, readings(|rivals|))
      decreases |rivals| + 1 - k, !swapped
    {
      var seen, seenVersion := pool.snapshot, pool.version;
      var next := UpdateClosure(seen, addr, until, readings(k));
      pool.Interfere(if k < |rivals| then Some(rivals[k]) else None);
      assert k == |rivals| ==> rivals[..k] == rivals;
      swapped := pool.CompareAndSwap(seenVersion, next);
      k := k + 1;
    }
  }

  method UpdateClosure(s: PoolSnapshot, addr: Addr, until: Time, at: Readings) returns (next: PoolSnapshot)
    ensures next == TripSnapshot(s, addr, until, at)
  {
    var gpu := new Upstream[|s.gpu|](i requires 0 <= i < |s.gpu| => s.gpu[i]);
    var cpu := new Upstream[|s.cpu|](i requires 0 <= i < |s.cpu| => s.cpu[i]);
    assert gpu[..] == s.gpu && cpu[..] == s.cpu;
    var gpuChanged := TripPoolInPlace(gpu, addr, until, at.gpuNow);
    var cpuChanged := TripPoolInPlace(cpu, addr, until, at.cpuNow);
    next := PoolSnapshot(gpu[..], cpu[..], if gpuChanged || cpuChanged then at.stamp else s.updatedAt);
  }

  /** The early return looks at every entry of both pools, at its address and at the end of its cooldown. */
  lemma AlreadyCooledOnFields(s: PoolSnapshot, addr: Addr, now: Time)
    ensures AlreadyCooled(s, addr, now) <==>
            exists t: PoolType, i :: 0 <= i < |s.Pool(t)| && s.Pool(t)[i].addr == addr &&
              s.Pool(t)[i].cooldownUntil.Some? && s.Pool(t)[i].cooldownUntil.value > now
  {
    var all := s.gpu + s.cpu;
    if AlreadyCooled(s, addr, now) {
      var u :| u in all && u.addr == addr && u.InCooldown(now);
      var k :| 0 <= k < |all| && all[k] == u;
      if k < |s.gpu| {
        assert s.Pool(Gpu)[k] == u;
      } else {
        assert s.Pool(Cpu)[k - |s.gpu|] == u;
      }
    }
    if t: PoolType, i :| 0 <= i < |s.Pool(t)| && s.Pool(t)[i].addr == addr &&
                         s.Pool(t)[i].cooldownUntil.Some? && s.Pool(t)[i].cooldownUntil.value > now {
      assert s.Pool(t)[i] in all;
    }
  }

  /** A trip that has nothing to change leaves the snapshot as it is; any other stamps it. */
  lemma TripStamps(s: PoolSnapshot, addr: Addr, until: Time, at: Readings)
    requires at.gpuNow < until && at.cpuNow < until
    ensures var next := TripSnapshot(s, addr, until, at);
            if next.gpu == s.gpu && next.cpu == s.cpu then next == s else next.updatedAt == at.stamp
  {
    var next := TripSnapshot(s, addr, until, at);
    if Trips(s.gpu, addr, at.gpuNow) {
      assert next.gpu[FirstMatch(s.gpu, addr)].InCooldown(at.gpuNow);
    }
    if Trips(s.cpu, addr, at.cpuNow) {
      assert next.cpu[FirstMatch(s.cpu, addr)].InCooldown(at.cpuNow);
    }
  }

  /** What one trip leaves behind, entry by entry. */
  lemma TripPoolEffect(pool: seq<Upstream>, addr: Addr, until: Time, now: Time)
    ensures Addrs(TripPool(pool, addr, until, now)) == Addrs(pool)
    ensures forall i :: 0 <= i < |pool| ==>
              var after := TripPool(pool, addr, until, now)[i];
              && after.(cooldownUntil := pool[i].cooldownUntil) == pool[i]
              && (pool[i].InCooldown(now) ==> after == pool[i])
              && (after != pool[i] ==> pool[i].addr == addr && after.cooldownUntil == Some(until))
    ensures Has(pool, addr) ==> TripPool(pool, addr, until, now)[FirstMatch(pool, addr)].cooldownUntil ==
                                if pool[FirstMatch(pool, addr)].InCooldown(now)
                                then pool[FirstMatch(pool, addr)].cooldownUntil else Some(until)
  {
    assert |TripPool(pool, addr, until, now)| == |pool|;
  }

  /**
   * The early return of `trip` agrees with running the update at the same clock value exactly when
   * an address that is cooling anywhere is cooling at its first entry in every pool that lists it.
   */
  lemma FastPathExact(s: PoolSnapshot, addr: Addr, duration: Time, now: Time)
    requires duration > 0 && AlreadyCooled(s, addr, now)
    ensures TripSnapshot(s, addr, now + duration, Readings(now, now, now)) == s
            <==> (forall t: PoolType :: Has(s.Pool(t), addr) ==>
                                          s.Pool(t)[FirstMatch(s.Pool(t), addr)].InCooldown(now))
  {
    var next := TripSnapshot(s, addr, now + duration, Readings(now, now, now));
    forall t: PoolType
      ensures next.Pool(t) == TripPool(s.Pool(t), addr, now + duration, now)
      ensures Trips(s.Pool(t), addr, now) ==> next.Pool(t) != s.Pool(t)
      ensures !Trips(s.Pool(t), addr, now) ==> next.Pool(t) == s.Pool(t)
    {
      var pool, i := s.Pool(t), FirstMatch(s.Pool(t), addr);
      if Trips(pool, addr, now) {
        assert next.Pool(t)[i].InCooldown(now) && !pool[i].InCooldown(now);
      }
    }
    if forall t: PoolType :: !Trips(s.Pool(t), addr, now) {
      assert next.Pool(Gpu) == s.Pool(Gpu) && next.Pool(Cpu) == s.Pool(Cpu);
      assert !Trips(s.Pool(Gpu), addr, now) && !Trips(s.Pool(Cpu), addr, now);
    }
  }

  /** In particular they agree when the address names at most one entry across both pools. */
  lemma FastPathSound(s: PoolSnapshot, addr: Addr, duration: Time, now: Time)
    requires duration > 0 && AlreadyCooled(s, addr, now)
    requires forall i, j :: 0 <= i < j < |s.gpu + s.cpu| ==>
                              !((s.gpu + s.cpu)[i].addr == addr == (s.gpu + s.cpu)[j].addr)
    ensures TripSnapshot(s, addr, now + duration, Readings(now, now, now)) == s
  {
    var all := s.gpu + s.cpu;
    var u :| u in all && u.addr == addr && u.InCooldown(now);
    var k :| 0 <= k < |all| && all[k] == u;
    forall t: PoolType | Has(s.Pool(t), addr)
      ensures s.Pool(t)[FirstMatch(s.Pool(t), addr)].InCooldown(now)
    {
      var i := FirstMatch(s.Pool(t), addr) + if t == Gpu then 0 else |s.gpu|;
      assert all[i].addr == addr;
    }
    FastPathExact(s, addr, duration, now);
  }

  const SPLIT_ADDRESS := PoolSnapshot(
    [Upstream(7, Gpu, Ok, 0, 1, 0, Some(5))],
    [Upstream(7, Cpu, Ok, 0, 1, 0, None)],
    0)

  /** One address in both pools, cooling in one only: the early return leaves the other entry routable. */
  lemma FastPathCanSkipAPool()
    ensures AlreadyCooled(SPLIT_ADDRESS, 7, 0)
    ensures TripSnapshot(SPLIT_ADDRESS, 7, 0 + 10, Readings(0, 0, 0)) != SPLIT_ADDRESS
    ensures !SPLIT_ADDRESS.cpu[0].InCooldown(0)
  {
    var s := SPLIT_ADDRESS;
    assert s.gpu[0] in s.gpu + s.cpu;
    assert !s.Pool(Cpu)[FirstMatch(s.Pool(Cpu), 7)].InCooldown(0);
    FastPathExact(s, 7, 10, 0);
  }
}
