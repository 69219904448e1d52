/** Health polling: collecting results and applying them to the pools. */
module Health {
  import opened Snapshot

  datatype PollResult = PollResult(addr: Addr, status: Status, queueDepth: nat, liveWorkers: nat)

  /** Position of the first result for an address, or the number of results. */
  function FirstResult(results: seq<PollResult>, addr: Addr): (i: nat)
    ensures i <= |results|
    ensures i < |results| ==> results[i].addr == addr
    ensures forall j :: 0 <= j < i ==> results[j].addr != addr
  {
    if |results| == 0 || results[0].addr == addr then 0 else 1 + FirstResult(results[1..], addr)
  }

  predicate Reports(results: seq<PollResult>, addr: Addr) {
    FirstResult(results, addr) < |results|
  }

  function UpdateEntry(u: Upstream, results: seq<PollResult>, now: Time): Upstream {
    if Reports(results, u.addr) then
      var r := results[FirstResult(results, u.addr)];
      Upstream(u.addr, u.poolType, r.status, r.queueDepth, r.liveWorkers, now, u.cooldownUntil)
    else u
  }

  function UpdatePool(pool: seq<Upstream>, results: seq<PollResult>, now: Time): seq<Upstream> {
    seq(|pool|, i requires 0 <= i < |pool| => UpdateEntry(pool[i], results, now))
  }

  function ApplyUpdates(s: PoolSnapshot, results: seq<PollResult>, now: Time): PoolSnapshot {
    PoolSnapshot(UpdatePool(s.gpu, results, now), UpdatePool(s.cpu, results, now), now)
  }

  /** The results of the tasks that joined, in completion order; a task that failed to join has none. */
  function Joined(tasks: seq<Option<PollResult>>): seq<PollResult> {
    if tasks == [] then []
    else Joined(tasks[..|tasks| - 1]) +
         match tasks[|tasks| - 1] { case Some(r) => [r] case None => [] }
  }

  /** Each result is there as often as tasks joined with it, in whatever order the tasks completed. */
  lemma {:induction false} JoinedCounts(tasks: seq<Option<PollResult>>, r: PollResult)
    ensures multiset(Joined(tasks))[r] == multiset(tasks)[Some(r)]
  {
    if tasks != [] {
      var before, last := tasks[..|tasks| - 1], tasks[|tasks| - 1];
      assert tasks == before + [last];
      JoinedCounts(before, r);
      OneCountMore(before, last, Some(r));
      match last
      case Some(found) =>
        assert Joined(tasks) == Joined(before) + [found];
        OneCountMore(Joined(before), found, r);
      case None =>
        assert Joined(tasks) == Joined(before);
    }
  }

  lemma OneCountMore<T>(items: seq<T>, last: T, x: T)
    ensures multiset(items + [last])[x] == multiset(items)[x] + if last == x then 1 else 0
  {
  }

  /** Results keep the order in which their tasks completed. */
  lemma {:induction false} JoinedInOrder(a: seq<Option<PollResult>>, b: seq<Option<PollResult>>)
    ensures Joined(a + b) == Joined(a) + Joined(b)
  {
    if b == [] {
      assert a + b == a;
    } else {
      var n := |b| - 1;
      assert (a + b)[..|a| + n] == a + b[..n];
      JoinedInOrder(a, b[..n]);
    }
  }

  method PollConcurrent(tasks: seq<Option<PollResult>>) returns (results: seq<PollResult>)
    ensures results == Joined(tasks)
    ensures forall r :: multiset(results)[r] == multiset(tasks)[Some(r)]
  {
    results := [];
    for i := 0 to |tasks|
      invariant results == Joined(tasks[..i])
    {
      assert tasks[..i + 1][..i] == tasks[..i];
      if tasks[i].Some? {
        results := results + [tasks[i].value];
      }
    }
    assert tasks[..|tasks|] == tasks;
    forall r: PollResult {
      JoinedCounts(tasks, r);
    }
  }

  /**
   * One polling round. `during` is published while the polls run and is seen by the second load;
   * `late` is published between that load and the plain store, and is overwritten by it.
   */
  method PollAll(pool: ArcSwap, tasks: seq<Addr> -> seq<Option<PollResult>>, now: Time,
                 during: Option<PoolSnapshot>, late: Option<PoolSnapshot>)
    modifies pool
    ensures var addrs := Addrs(old(pool.snapshot).gpu + old(pool.snapshot).cpu);
            var base := if during.Some? then during.value else old(pool.snapshot);
            && (addrs == [] ==> pool.snapshot == old(pool.snapshot) && pool.version == old(pool.version))
            && (addrs != [] ==>
                  && pool.snapshot == ApplyUpdates(base, Joined(tasks(addrs)), now)
                  && pool.version == old(pool.version) + 1 + (if during.Some? then 1 else 0)
                                                           + (if late.Some? then 1 else 0))
  {
    var snapshot := pool.snapshot;
    var addrs := Addrs(snapshot.gpu + snapshot.cpu);
    if addrs == [] {
      return;
    }
    pool.Interfere(during);
    var results := PollConcurrent(tasks(addrs));
    var current := pool.snapshot;
    var next := ApplyUpdates(current, results, now);
    pool.Interfere(late);
    pool.Store(next);
  }

  /** The poll time is stamped on exactly the upstreams that had a result, whatever its status. */
  lemma LastSeenIsStamped(pool: seq<Upstream>, results: seq<PollResult>, now: Time, i: nat)
    requires i < |pool| && pool[i].lastSeen < now
    ensures UpdatePool(pool, results, now)[i].lastSeen == now <==> pool[i].addr in ResultAddrs(results)
  {
    assert forall j :: 0 <= j < |results| ==> ResultAddrs(results)[j] == results[j].addr;
    if Reports(results, pool[i].addr) {
      assert ResultAddrs(results)[FirstResult(results, pool[i].addr)] == pool[i].addr;
    }
  }

  /**
   * A reported upstream takes status, depth and workers from its first result and is stamped; another is left
   * as it was. Address, pool type and cooldown never change.
   */
  lemma UpdateEffect(pool: seq<Upstream>, results: seq<PollResult>, now: Time, i: nat)
    requires i < |pool|
    ensures |UpdatePool(pool, results, now)| == |pool|
    ensures var u, next := pool[i], UpdatePool(pool, results, now)[i];
            && (u.addr !in ResultAddrs(results) ==> next == u)
            && forall k :: 0 <= k < |results| && results[k].addr == u.addr && u.addr !in ResultAddrs(results[..k]) ==>
                 && next.status == results[k].status && next.queueDepth == results[k].queueDepth
                 && next.liveWorkers == results[k].liveWorkers && next.lastSeen == now
                 && next.addr == u.addr && next.poolType == u.poolType && next.cooldownUntil == u.cooldownUntil
  {
    var u := pool[i];
    if Reports(results, u.addr) {
      var first := FirstResult(results, u.addr);
      assert ResultAddrs(results)[first] == u.addr;
      forall k | 0 <= k < |results| && results[k].addr == u.addr && u.addr !in ResultAddrs(results[..k])
        ensures k == first
      {
        assert forall j :: 0 <= j < k ==> ResultAddrs(results[..k])[j] == results[j].addr;
      }
    }
  }

  /** A poll never moves an upstream and never touches a cooldown. */
  lemma UpdateKeeps(pool: seq<Upstream>, results: seq<PollResult>, now: Time)
    ensures Addrs(UpdatePool(pool, results, now)) == Addrs(pool)
    ensures forall i :: 0 <= i < |pool| ==>
              && UpdatePool(pool, results, now)[i].poolType == pool[i].poolType
              && UpdatePool(pool, results, now)[i].cooldownUntil == pool[i].cooldownUntil
  {
    assert |UpdatePool(pool, results, now)| == |pool|;
  }

  function ResultAddrs(results: seq<PollResult>): seq<Addr> {
    seq(|results|, i requires 0 <= i < |results| => results[i].addr)
  }

  /** When each address answers once, the order in which the answers arrive does not matter. */
  lemma CompletionOrderIrrelevant(pool: seq<Upstream>, a: seq<PollResult>, b: seq<PollResult>, now: Time)
    requires multiset(a) == multiset(b)
    requires Distinct(ResultAddrs(a))
    ensures UpdatePool(pool, a, now) == UpdatePool(pool, b, now)
  {
    assert forall i :: 0 <= i < |a| ==> ResultAddrs(a)[i] == a[i].addr;
    forall u: Upstream
      ensures UpdateEntry(u, a, now) == UpdateEntry(u, b, now)
    {
      assert forall r :: r in a <==> r in multiset(a);
      assert forall r :: r in b <==> r in multiset(b);
      var i, j := FirstResult(a, u.addr), FirstResult(b, u.addr);
      if i < |a| {
        assert a[i] in multiset(b);
        assert a[i] in b;
      }
      if j < |b| {
        assert b[j] in multiset(a);
        assert b[j] in a;
      }
    }
  }

  /**
   * When no two results are for one address, a polling round publishes the same snapshot in whatever
   * order its tasks complete, tasks that failed to join included.
   */
  lemma RoundOrderIrrelevant(s: PoolSnapshot, a: seq<Option<PollResult>>, b: seq<Option<PollResult>>, now: Time)
    requires multiset(a) == multiset(b)
    requires Distinct(ResultAddrs(Joined(a)))
    ensures ApplyUpdates(s, Joined(a), now) == ApplyUpdates(s, Joined(b), now)
  {
    forall r: PollResult
      ensures multiset(Joined(a))[r] == multiset(Joined(b))[r]
    {
      JoinedCounts(a, r);
      JoinedCounts(b, r);
    }
    assert multiset(Joined(a)) == multiset(Joined(b));
    CompletionOrderIrrelevant(s.gpu, Joined(a), Joined(b), now);
    CompletionOrderIrrelevant(s.cpu, Joined(a), Joined(b), now);
  }
}
