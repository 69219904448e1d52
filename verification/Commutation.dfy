/** How the three snapshot writers commute, with exact conditions. */
module Commutation {
  import opened Snapshot
  import opened CircuitBreaker
  import opened Discovery
  import opened Health

  /** An upstream without its poll timestamp. */
  function Untimed(u: Upstream): Upstream {
    u.(lastSeen := 0)
  }

  /** Equal entry by entry, poll timestamps aside. */
  predicate Alike(p: seq<Upstream>, q: seq<Upstream>) {
    |p| == |q| && forall i :: 0 <= i < |p| ==> Untimed(p[i]) == Untimed(q[i])
  }

  lemma UpdateTripCommute(pool: seq<Upstream>, results: seq<PollResult>, polled: Time,
                          addr: Addr, until: Time, now: Time)
    ensures UpdatePool(TripPool(pool, addr, until, now), results, polled) ==
            TripPool(UpdatePool(pool, results, polled), addr, until, now)
  {
    UpdateKeeps(pool, results, polled);
    SameAddrsSameMatch(pool, UpdatePool(pool, results, polled), addr);
    TripPoolEffect(pool, addr, until, now);
    var i := FirstMatch(pool, addr);
    if i < |pool| {
      assert UpdateEntry(TripEntry(pool[i], until, now), results, polled) ==
             TripEntry(UpdateEntry(pool[i], results, polled), until, now);
    }
    assert |TripPool(pool, addr, until, now)| == |pool| == |UpdatePool(pool, results, polled)|;
    assert forall j :: 0 <= j < |pool| && j != i ==>
      TripPool(pool, addr, until, now)[j] == pool[j] &&
      TripPool(UpdatePool(pool, results, polled), addr, until, now)[j] == UpdateEntry(pool[j], results, polled);
  }

  /** The result for an address says what a newly discovered upstream says anyway. */
  predicate SaysNothing(results: seq<PollResult>, addr: Addr) {
    Reports(results, addr) ==>
      var r := results[FirstResult(results, addr)];
      r.status == Unknown && r.queueDepth == 0 && r.liveWorkers == 0
  }

  /** No poll result tells something about an address the answer adds to the pool. */
  ghost predicate NewAddressesUnpolled(pool: seq<Upstream>, answer: ResolveResult, results: seq<PollResult>) {
    answer.Resolved? ==>
      forall i :: 0 <= i < |answer.addrs| && !Has(pool, answer.addrs[i]) ==> SaysNothing(results, answer.addrs[i])
  }

  lemma MergedEntry(pool: seq<Upstream>, answer: ResolveResult, t: PoolType, merged: Time,
                    results: seq<PollResult>, polled: Time, i: nat)
    requires answer.Resolved? && i < |answer.addrs|
    ensures var addr := answer.addrs[i];
            var updateLast := UpdatePool(MergePool(pool, answer, t, merged), results, polled);
            var mergeLast := MergePool(UpdatePool(pool, results, polled), answer, t, merged);
            && i < |updateLast| && i < |mergeLast|
            && (Has(pool, addr) ==> updateLast[i] == mergeLast[i])
            && (!Has(pool, addr) ==> (Untimed(updateLast[i]) == Untimed(mergeLast[i]) <==> SaysNothing(results, addr)))
  {
    UpdateKeeps(pool, results, polled);
    SameAddrsSameMatch(pool, UpdatePool(pool, results, polled), answer.addrs[i]);
  }

  /** Polling and merging commute, timestamps aside, exactly when no poll speaks about an added address. */
  lemma UpdateMergeCommute(pool: seq<Upstream>, answer: ResolveResult, t: PoolType, merged: Time,
                           results: seq<PollResult>, polled: Time)
    ensures Alike(UpdatePool(MergePool(pool, answer, t, merged), results, polled),
                  MergePool(UpdatePool(pool, results, polled), answer, t, merged))
            <==> NewAddressesUnpolled(pool, answer, results)
  {
    if answer.Resolved? {
      forall i | 0 <= i < |answer.addrs|
        ensures Untimed(UpdatePool(MergePool(pool, answer, t, merged), results, polled)[i]) ==
                Untimed(MergePool(UpdatePool(pool, results, polled), answer, t, merged)[i])
                <==> (Has(pool, answer.addrs[i]) || SaysNothing(results, answer.addrs[i]))
      {
        MergedEntry(pool, answer, t, merged, results, polled, i);
      }
    }
  }

  predicate Repeated(addrs: seq<Addr>, addr: Addr) {
    exists i, j :: 0 <= i < j < |addrs| && addrs[i] == addr && addrs[j] == addr
  }

  /**
   * The trip finds the address in the pool the answer keeps it in, and the answer lists it once,
   * unless the trip has nothing to change.
   */
  predicate TripSurvivesMerge(pool: seq<Upstream>, answer: ResolveResult, addr: Addr, until: Time, now: Time) {
    answer.Resolved? && addr in answer.addrs ==>
      && Has(pool, addr)
      && (!Repeated(answer.addrs, addr) ||
          TripEntry(pool[FirstMatch(pool, addr)], until, now) == pool[FirstMatch(pool, addr)])
  }

  lemma TripMergeEntry(pool: seq<Upstream>, answer: ResolveResult, t: PoolType, merged: Time,
                       addr: Addr, until: Time, now: Time, i: nat)
    requires answer.Resolved? && i < |answer.addrs|
    ensures var tripLast := TripPool(MergePool(pool, answer, t, merged), addr, until, now);
            var mergeLast := MergePool(TripPool(pool, addr, until, now), answer, t, merged);
            var first := FirstMatch(MergePool(pool, answer, t, merged), addr);
            var kept := KeepOrAdd(pool, answer.addrs[i], t, merged);
            && |tripLast| == |mergeLast| == |answer.addrs|
            && tripLast[i] == (if i == first then TripEntry(kept, until, now) else kept)
            && mergeLast[i] == (if answer.addrs[i] == addr && Has(pool, addr)
                                then TripEntry(kept, until, now) else kept)
  {
    TripPoolEffect(pool, addr, until, now);
    SameAddrsSameMatch(pool, TripPool(pool, addr, until, now), answer.addrs[i]);
  }

  /** Tripping and merging commute exactly under `TripSurvivesMerge`. */
  lemma TripMergeCommute(pool: seq<Upstream>, answer: ResolveResult, t: PoolType, merged: Time,
                         addr: Addr, until: Time, now: Time)
    ensures TripPool(MergePool(pool, answer, t, merged), addr, until, now) ==
            MergePool(TripPool(pool, addr, until, now), answer, t, merged)
            <==> TripSurvivesMerge(pool, answer, addr, until, now)
  {
    if answer.Resolved? {
      var merge1 := MergePool(pool, answer, t, merged);
      var tripLast := TripPool(merge1, addr, until, now);
      var mergeLast := MergePool(TripPool(pool, addr, until, now), answer, t, merged);
      MergeMembership(pool, answer, t, merged);
      HasIffListed(merge1, addr);
      forall i | 0 <= i < |answer.addrs|
        ensures |tripLast| == |mergeLast| == |answer.addrs|
        ensures tripLast[i] == mergeLast[i] <==>
                (answer.addrs[i] == addr ==>
                   if i == FirstMatch(merge1, addr) then Has(pool, addr)
                   else Has(pool, addr) ==>
                        TripEntry(pool[FirstMatch(pool, addr)], until, now) == pool[FirstMatch(pool, addr)])
      {
        assert merge1[i].addr == answer.addrs[i] by { assert Addrs(merge1)[i] == merge1[i].addr; }
        TripMergeEntry(pool, answer, t, merged, addr, until, now, i);
      }
      if addr in answer.addrs {
        FirstListed(pool, answer, t, merged, addr);
      }
      if TripSurvivesMerge(pool, answer, addr, until, now) {
        assert tripLast == mergeLast;
      } else {
        var first := FirstMatch(merge1, addr);
        if Has(pool, addr) {
          var i, j :| 0 <= i < j < |answer.addrs| && answer.addrs[i] == addr && answer.addrs[j] == addr;
          assert tripLast[j] != mergeLast[j];
        } else {
          assert tripLast[first] != mergeLast[first];
        }
      }
    }
  }

  /** The first merged entry of a listed address sits at its first place in the answer. */
  lemma FirstListed(pool: seq<Upstream>, answer: ResolveResult, t: PoolType, merged: Time, addr: Addr)
    requires answer.Resolved? && addr in answer.addrs
    ensures var first := FirstMatch(MergePool(pool, answer, t, merged), addr);
            && first < |answer.addrs| && answer.addrs[first] == addr
            && forall i :: 0 <= i < first ==> answer.addrs[i] != addr
  {
    var merge1 := MergePool(pool, answer, t, merged);
    MergeMembership(pool, answer, t, merged);
    HasIffListed(merge1, addr);
    assert forall i :: 0 <= i < |merge1| ==> merge1[i].addr == Addrs(merge1)[i] == answer.addrs[i];
  }
}
