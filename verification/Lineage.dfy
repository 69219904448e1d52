/**
 * Which commits a published snapshot reflects, where its entries come from, and what happens to a
 * cooldown when plain stores and compare-and-swap mix.
 */
module Lineage {
  import opened Snapshot
  import opened CircuitBreaker
  import opened Discovery
  import opened Health
  import opened Policy
  import opened Interleaving

  // --- Lineage ---

  /** Every commit was computed from a version that existed before it. */
  ghost predicate Ordered(log: seq<Commit>) {
    forall k :: 0 <= k < |log| ==> log[k].base <= k
  }

  /** The commits whose effect version v carries, oldest first. */
  ghost function LineageOf(log: seq<Commit>, v: nat): seq<nat>
    requires Ordered(log) && v <= |log|
    decreases v
  {
    if v == 0 then [] else LineageOf(log, log[v - 1].base) + [v - 1]
  }

  ghost predicate Ascending(ks: seq<nat>, bound: nat) {
    && (forall i :: 0 <= i < |ks| ==> ks[i] < bound)
    && forall i, j :: 0 <= i < j < |ks| ==> ks[i] < ks[j]
  }

  ghost function OpsOf(log: seq<Commit>, ks: seq<nat>): seq<Op>
    requires forall i :: 0 <= i < |ks| ==> ks[i] < |log|
  {
    seq(|ks|, i requires 0 <= i < |ks| => log[ks[i]].op)
  }

  ghost function ApplyAll(ops: seq<Op>, s: PoolSnapshot): PoolSnapshot {
    if ops == [] then s else Apply(ops[|ops| - 1], ApplyAll(ops[..|ops| - 1], s))
  }

  lemma {:induction false} LineageAscending(log: seq<Commit>, v: nat)
    requires Ordered(log) && v <= |log|
    ensures Ascending(LineageOf(log, v), v)
    decreases v
  {
    if v > 0 {
      LineageAscending(log, log[v - 1].base);
    }
  }

  ghost function OpsBehind(log: seq<Commit>, v: nat): seq<Op>
    requires Ordered(log) && v <= |log|
  {
    LineageAscending(log, v);
    OpsOf(log, LineageOf(log, v))
  }

  lemma OpsBehindStep(log: seq<Commit>, v: nat)
    requires Ordered(log) && 0 < v <= |log|
    ensures OpsBehind(log, v) == OpsBehind(log, log[v - 1].base) + [log[v - 1].op]
  {
    LineageAscending(log, v);
    LineageAscending(log, log[v - 1].base);
  }

  /** Commit k was loaded before commit j was published and stored after it. */
  ghost predicate Overwrites(log: seq<Commit>, k: nat, j: nat) {
    k < |log| && log[k].base <= j < k
  }

  /** A published snapshot is the serial application of its lineage. */
  lemma {:induction false} VersionIsSerial(s: State, v: nat)
    requires LogConsistent(s) && v <= |s.log|
    ensures s.versions[v] == ApplyAll(OpsBehind(s.log, v), EMPTY_SNAPSHOT)
    decreases v
  {
    if v > 0 {
      var base := s.log[v - 1].base;
      VersionIsSerial(s, base);
      OpsBehindStep(s.log, v);
      var ops := OpsBehind(s.log, v);
      assert ops[..|ops| - 1] == OpsBehind(s.log, base);
      assert s.versions[v - 1 + 1] == Apply(s.log[v - 1].op, s.versions[base]);
    } else {
      assert OpsBehind(s.log, 0) == [];
    }
  }

  /** A commit is missing from a version exactly when some commit of its lineage overwrote it. */
  lemma {:induction false} MissingExactly(log: seq<Commit>, v: nat, j: nat)
    requires Ordered(log) && j < v <= |log|
    ensures j !in LineageOf(log, v) <==> exists k :: k in LineageOf(log, v) && Overwrites(log, k, j)
    decreases v
  {
    var base := log[v - 1].base;
    var older := LineageOf(log, base);
    LineageAscending(log, base);
    assert LineageOf(log, v) == older + [v - 1];
    assert v - 1 in LineageOf(log, v);
    if j == v - 1 {
      assert forall k :: k in LineageOf(log, v) ==> k <= j;
    } else if base <= j {
      assert Overwrites(log, v - 1, j);
      assert j !in older;
    } else {
      MissingExactly(log, base, j);
      assert forall k :: k in LineageOf(log, v) <==> k in older || k == v - 1;
      assert !Overwrites(log, v - 1, j);
    }
  }

  /**
   * In every interleaving each published snapshot equals the serial application, in commit order, of
   * a subsequence of the commit log; a commit is missing exactly when a store of that subsequence was
   * loaded before it and stored after it; and such a store is never an rcu commit.
   */
  lemma LineageTheorem(cooldown: Time, steps: seq<Step>, v: nat)
    requires ValidRun(cooldown, INIT, steps)
    requires v < |RunFrom(cooldown, INIT, steps).versions|
    ensures var s := RunFrom(cooldown, INIT, steps);
            && s.Sized() && Ordered(s.log)
            && Ascending(LineageOf(s.log, v), v)
            && s.versions[v] == ApplyAll(OpsBehind(s.log, v), EMPTY_SNAPSHOT)
            && (forall j: nat :: j < v ==>
                  (j !in LineageOf(s.log, v) <==> exists k :: k in LineageOf(s.log, v) && Overwrites(s.log, k, j)))
            && (forall k: nat, j: nat :: Overwrites(s.log, k, j) ==> !s.log[k].op.TripOp?)
  {
    RunKeepsInv(cooldown, INIT, steps);
    var s := RunFrom(cooldown, INIT, steps);
    LineageAscending(s.log, v);
    VersionIsSerial(s, v);
    forall j: nat | j < v
      ensures j !in LineageOf(s.log, v) <==> exists k :: k in LineageOf(s.log, v) && Overwrites(s.log, k, j)
    {
      MissingExactly(s.log, v, j);
    }
  }

  // --- Cooldown over whole runs ---

  /** After the operation DNS still lists the address in this pool. */
  predicate Keeps(op: Op, t: PoolType, addr: Addr) {
    op.MergeOp? ==>
      var answer := if t == Gpu then op.gpu else op.cpu;
      answer.Resolved? ==> addr in answer.addrs
  }

  /** The pool's entry for the address is cooling until exactly `until`. */
  predicate CoolingUntil(s: PoolSnapshot, t: PoolType, addr: Addr, until: Time) {
    && Has(s.Pool(t), addr)
    && s.Pool(t)[FirstMatch(s.Pool(t), addr)].cooldownUntil == Some(until)
  }

  lemma ApplyKeepsCooldown(op: Op, s: PoolSnapshot, t: PoolType, addr: Addr, until: Time, clock: Time)
    requires CoolingUntil(s, t, addr, until) && Keeps(op, t, addr)
    requires ReadBefore(op, clock) && clock < until
    ensures CoolingUntil(Apply(op, s), t, addr, until)
  {
    var pool, next := s.Pool(t), Apply(op, s).Pool(t);
    match op
    case MergeOp(gpu, cpu, now) =>
      MergedMatch(pool, if t == Gpu then gpu else cpu, t, now, addr);
    case PollOp(results, now) =>
      UpdateKeeps(pool, results, now);
      SameAddrsSameMatch(pool, next, addr);
    case TripOp(other, otherUntil, at) =>
      TripPoolEffect(pool, other, otherUntil, at.For(t));
      SameAddrsSameMatch(pool, next, addr);
  }

  /** Commit j is a trip of the address that found its entry outside a cooldown, and opened a window. */
  ghost predicate Opens(s: State, j: nat, t: PoolType, addr: Addr, until: Time) {
    && s.Sized() && j < |s.log| && s.log[j].op.TripOp?
    && s.log[j].op.addr == addr && s.log[j].op.until == until
    && Trips(s.versions[j].Pool(t), addr, s.log[j].op.at.For(t))
  }

  lemma TripCools(s: PoolSnapshot, t: PoolType, addr: Addr, until: Time, at: Readings)
    requires Trips(s.Pool(t), addr, at.For(t))
    ensures CoolingUntil(TripSnapshot(s, addr, until, at), t, addr, until)
  {
    TripPoolEffect(s.Pool(t), addr, until, at.For(t));
    SameAddrsSameMatch(s.Pool(t), TripSnapshot(s, addr, until, at).Pool(t), addr);
  }

  lemma CooledIsLeftAlone(s: PoolSnapshot, t: PoolType, addr: Addr, until: Time, lateUntil: Time, late: Readings)
    requires CoolingUntil(s, t, addr, until) && late.For(t) < until
    ensures TripSnapshot(s, addr, lateUntil, late).Pool(t) == s.Pool(t)
  {
  }

  /** A trip that commits on a listed entry outside a running cooldown cools it until its instant. */
  lemma TripCommitCools(s: State, j: nat, t: PoolType, addr: Addr, until: Time)
    requires LogConsistent(s) && Opens(s, j, t, addr, until)
    ensures CoolingUntil(s.versions[j + 1], t, addr, until)
  {
    assert s.versions[j + 1] == Apply(s.log[j].op, s.versions[j]);
    TripCools(s.versions[j], t, addr, until, s.log[j].op.at);
  }

  /** Every commit after j in the lineage of version v leaves the address listed. */
  ghost predicate KeptSince(log: seq<Commit>, v: nat, j: nat, t: PoolType, addr: Addr)
    requires Ordered(log) && v <= |log|
  {
    forall k :: k in LineageOf(log, v) && j < k < |log| ==> Keeps(log[k].op, t, addr)
  }

  /**
   * A cooldown set by commit j is still exactly the same in every version that descends from j, until
   * it ends, as long as DNS has kept the entry: no trip, poll or merge shortens or extends it.
   */
  lemma {:induction false} CooldownPersists(s: State, j: nat, v: nat, t: PoolType, addr: Addr, until: Time)
    requires LogConsistent(s) && j < v <= |s.log|
    requires j in LineageOf(s.log, v)
    requires CoolingUntil(s.versions[j + 1], t, addr, until)
    requires KeptSince(s.log, v, j, t, addr)
    requires s.clock < until
    ensures CoolingUntil(s.versions[v], t, addr, until)
    decreases v
  {
    if v > j + 1 {
      var base, op := s.log[v - 1].base, s.log[v - 1].op;
      LineageAscending(s.log, base);
      assert LineageOf(s.log, v) == LineageOf(s.log, base) + [v - 1];
      assert j in LineageOf(s.log, base);
      assert v - 1 in LineageOf(s.log, v);
      CooldownPersists(s, j, base, t, addr, until);
      assert s.versions[v - 1 + 1] == Apply(op, s.versions[base]);
      ApplyKeepsCooldown(op, s.versions[base], t, addr, until, s.clock);
    }
  }

  /** An operation after which an entry is cooling found it so, or is the trip that opened the window. */
  lemma CoolingComesFrom(op: Op, s: PoolSnapshot, t: PoolType, addr: Addr, until: Time)
    requires CoolingUntil(Apply(op, s), t, addr, until)
    ensures || (CoolingUntil(s, t, addr, until) && Keeps(op, t, addr))
            || (op.TripOp? && op.addr == addr && op.until == until && Trips(s.Pool(t), addr, op.at.For(t)))
  {
    var pool, next := s.Pool(t), Apply(op, s).Pool(t);
    match op
    case MergeOp(gpu, cpu, now) =>
      MergedMatch(pool, if t == Gpu then gpu else cpu, t, now, addr);
    case PollOp(results, now) =>
      UpdateKeeps(pool, results, now);
      SameAddrsSameMatch(pool, next, addr);
    case TripOp(other, otherUntil, at) =>
      TripPoolEffect(pool, other, otherUntil, at.For(t));
      SameAddrsSameMatch(pool, next, addr);
  }

  /** The trip that opened the window a version shows. */
  lemma {:induction false} CoolingHasOrigin(s: State, v: nat, t: PoolType, addr: Addr, until: Time) returns (j: nat)
    requires LogConsistent(s) && v <= |s.log| && CoolingUntil(s.versions[v], t, addr, until)
    ensures j in LineageOf(s.log, v) && Opens(s, j, t, addr, until) && KeptSince(s.log, v, j, t, addr)
    decreases v
  {
    assert v > 0;
    var base, op := s.log[v - 1].base, s.log[v - 1].op;
    LineageAscending(s.log, v);
    assert LineageOf(s.log, v) == LineageOf(s.log, base) + [v - 1];
    assert v - 1 in LineageOf(s.log, v);
    assert s.versions[v - 1 + 1] == Apply(op, s.versions[base]);
    CoolingComesFrom(op, s.versions[base], t, addr, until);
    if CoolingUntil(s.versions[base], t, addr, until) && Keeps(op, t, addr) {
      j := CoolingHasOrigin(s, base, t, addr, until);
      forall k | k in LineageOf(s.log, v) && j < k < |s.log|
        ensures Keeps(s.log[k].op, t, addr)
      {
        assert k in LineageOf(s.log, base) || k == v - 1;
      }
    } else {
      j := v - 1;
    }
  }

  /** Commit j is in version v, and every answer merged into v after it still listed the address. */
  ghost predicate WindowKept(log: seq<Commit>, v: nat, j: nat, t: PoolType, addr: Addr)
    requires Ordered(log) && v <= |log|
  {
    j in LineageOf(log, v) && KeptSince(log, v, j, t, addr)
  }

  /**
   * Exactly when a version shows a window that has not ended: some trip in its lineage opened it, and the
   * answers merged since kept the address.
   */
  lemma CooldownExactly(s: State, v: nat, t: PoolType, addr: Addr, until: Time)
    requires LogConsistent(s) && v <= |s.log| && s.clock < until
    ensures CoolingUntil(s.versions[v], t, addr, until) <==>
            exists j: nat :: Opens(s, j, t, addr, until) && WindowKept(s.log, v, j, t, addr)
  {
    if CoolingUntil(s.versions[v], t, addr, until) {
      var j := CoolingHasOrigin(s, v, t, addr, until);
      assert WindowKept(s.log, v, j, t, addr);
    }
    if j: nat :| Opens(s, j, t, addr, until) && WindowKept(s.log, v, j, t, addr) {
      LineageAscending(s.log, v);
      TripCommitCools(s, j, t, addr, until);
      CooldownPersists(s, j, v, t, addr, until);
    }
  }

  /** No other commit is a trip of the address for the same instant. */
  ghost predicate OnlyTrip(log: seq<Commit>, j: nat, addr: Addr, until: Time) {
    forall k :: 0 <= k < |log| && k != j && log[k].op.TripOp? ==> !(log[k].op.addr == addr && log[k].op.until == until)
  }

  /** No commit of version v's lineage overwrote commit j, or came after it with an answer without the address. */
  ghost predicate Undisturbed(log: seq<Commit>, v: nat, j: nat, t: PoolType, addr: Addr)
    requires Ordered(log) && v <= |log|
  {
    forall k :: k in LineageOf(log, v) && k < |log| ==>
      !Overwrites(log, k, j) && (j < k ==> Keeps(log[k].op, t, addr))
  }

  lemma UndisturbedIsKept(log: seq<Commit>, v: nat, j: nat, t: PoolType, addr: Addr)
    requires Ordered(log) && j < v <= |log|
    ensures Undisturbed(log, v, j, t, addr) <==> WindowKept(log, v, j, t, addr)
  {
    MissingExactly(log, v, j);
    LineageAscending(log, v);
  }

  lemma OneOrigin(s: State, v: nat, j: nat, t: PoolType, addr: Addr, until: Time)
    requires LogConsistent(s) && v <= |s.log| && s.clock < until
    requires Opens(s, j, t, addr, until) && OnlyTrip(s.log, j, addr, until)
    ensures CoolingUntil(s.versions[v], t, addr, until) <==> WindowKept(s.log, v, j, t, addr)
  {
    CooldownExactly(s, v, t, addr, until);
  }

  lemma WindowKeptAt(s: State, v: nat, j: nat, t: PoolType, addr: Addr, until: Time)
    requires LogConsistent(s) && j < v <= |s.log| && s.clock < until
    requires Opens(s, j, t, addr, until) && OnlyTrip(s.log, j, addr, until)
    ensures CoolingUntil(s.versions[v], t, addr, until) <==> Undisturbed(s.log, v, j, t, addr)
  {
    UndisturbedIsKept(s.log, v, j, t, addr);
    OneOrigin(s, v, j, t, addr, until);
  }

  /**
   * What becomes of the window a trip opened, in every interleaving and every later version: until it ends
   * it is still there, with the same end, exactly when no store of that version's lineage was loaded before
   * the trip and published after it, and DNS has kept the address. A stale store that was itself
   * overwritten does no harm.
   */
  lemma WindowKeptExactly(cooldown: Time, steps: seq<Step>, v: nat, j: nat, t: PoolType, addr: Addr, until: Time)
    requires ValidRun(cooldown, INIT, steps)
    requires j < v < |RunFrom(cooldown, INIT, steps).versions|
    requires Opens(RunFrom(cooldown, INIT, steps), j, t, addr, until)
    requires OnlyTrip(RunFrom(cooldown, INIT, steps).log, j, addr, until)
    requires RunFrom(cooldown, INIT, steps).clock < until
    ensures var s := RunFrom(cooldown, INIT, steps);
            && Ordered(s.log) && v <= |s.log|
            && (CoolingUntil(s.versions[v], t, addr, until) <==> Undisturbed(s.log, v, j, t, addr))
  {
    RunKeepsInv(cooldown, INIT, steps);
    var s := RunFrom(cooldown, INIT, steps);
    WindowKeptAt(s, v, j, t, addr, until);
  }

  /** No store between commit j and version v was loaded before j. */
  ghost predicate NoStaleStore(log: seq<Commit>, j: nat, v: nat) {
    forall k :: j < k < v && k < |log| ==> log[k].base > j
  }

  lemma {:induction false} NoStaleStoreKeeps(log: seq<Commit>, j: nat, v: nat)
    requires Ordered(log) && j < v <= |log| && NoStaleStore(log, j, v)
    ensures j in LineageOf(log, v)
    decreases v
  {
    assert LineageOf(log, v) == LineageOf(log, log[v - 1].base) + [v - 1];
    if j < v - 1 {
      NoStaleStoreKeeps(log, j, log[v - 1].base);
    }
  }

  /** DNS never lists an address twice in one answer. */
  ghost predicate DuplicateFree(log: seq<Commit>) {
    forall k :: 0 <= k < |log| && log[k].op.MergeOp? ==>
      && (log[k].op.gpu.Resolved? ==> Distinct(log[k].op.gpu.addrs))
      && (log[k].op.cpu.Resolved? ==> Distinct(log[k].op.cpu.addrs))
  }

  /** Some pick function may return `p` from the snapshot at `now`. */
  ghost predicate Offered(s: PoolSnapshot, p: Pick, now: Time) {
    exists c: Candidate :: Routable(s, c, now) && Names(s, c, p)
  }

  /** Every pick function only returns what is offered. */
  lemma PicksAreOffered(s: PoolSnapshot, excluded: seq<Addr>, now: Time)
    ensures PickBest(s, now).Some? ==> Offered(s, PickBest(s, now).value, now)
    ensures PickGpu(s, now).Some? ==> Offered(s, PickGpu(s, now).value, now)
    ensures PickCpu(s, now).Some? ==> Offered(s, PickCpu(s, now).value, now)
    ensures PickGpuExcludingSet(s, excluded, now).Some? ==>
              Offered(s, PickGpuExcludingSet(s, excluded, now).value, now)
  {
    PickIsArgmin(s, now);
    PickGpuIsArgmin(s, now);
    PickCpuIsArgmin(s, now);
    PickTierIsLeast(s.gpu, now, excluded);
    var r := PickTierIndex(s.gpu, now, excluded);
    if r.Some? {
      var c := Candidate(Gpu, r.value);
      assert Routable(s, c, now) && Names(s, c, PickGpuExcludingSet(s, excluded, now).value);
    }
  }

  lemma CoolingNotOffered(s: PoolSnapshot, t: PoolType, addr: Addr, until: Time, now: Time)
    requires CoolingUntil(s, t, addr, until) && now < until && Distinct(Addrs(s.Pool(t)))
    ensures !Offered(s, Pick(addr, t), now)
  {
    var pool := s.Pool(t);
    assert forall i :: 0 <= i < |pool| ==> Addrs(pool)[i] == pool[i].addr;
    assert forall i :: 0 <= i < |pool| && pool[i].addr == addr ==> i == FirstMatch(pool, addr);
  }

  /** After commit j every answer merged has listed the address. */
  ghost predicate KeptAfter(log: seq<Commit>, j: nat, t: PoolType, addr: Addr) {
    forall k :: j < k < |log| ==> Keeps(log[k].op, t, addr)
  }

  lemma CalmIsUndisturbed(log: seq<Commit>, j: nat, t: PoolType, addr: Addr)
    requires Ordered(log) && j < |log|
    ensures NoStaleStore(log, j, |log|) && KeptAfter(log, j, t, addr) ==> Undisturbed(log, |log|, j, t, addr)
  {
    if NoStaleStore(log, j, |log|) && KeptAfter(log, j, t, addr) {
      NoStaleStoreKeeps(log, j, |log|);
      UndisturbedIsKept(log, |log|, j, t, addr);
    }
  }

  lemma UndisturbedCools(s: State, j: nat, t: PoolType, addr: Addr, until: Time)
    requires LogConsistent(s) && s.clock < until && Opens(s, j, t, addr, until)
    ensures Undisturbed(s.log, |s.log|, j, t, addr) ==> CoolingUntil(s.Current(), t, addr, until)
  {
    UndisturbedIsKept(s.log, |s.log|, j, t, addr);
    CooldownExactly(s, |s.log|, t, addr, until);
  }

  lemma OnlyTripNeedsCalm(s: State, j: nat, t: PoolType, addr: Addr, until: Time)
    requires LogConsistent(s) && s.clock < until && Opens(s, j, t, addr, until)
    ensures OnlyTrip(s.log, j, addr, until) && CoolingUntil(s.Current(), t, addr, until) ==>
              Undisturbed(s.log, |s.log|, j, t, addr)
  {
    assert s.Current() == s.versions[|s.log|];
    if OnlyTrip(s.log, j, addr, until) && CoolingUntil(s.Current(), t, addr, until) {
      WindowKeptAt(s, |s.log|, j, t, addr, until);
    }
  }

  lemma CoolingHides(s: State, t: PoolType, addr: Addr, until: Time, now: Time)
    requires LogConsistent(s) && now < until
    ensures CoolingUntil(s.Current(), t, addr, until) && DuplicateFree(s.log) ==>
              !Offered(s.Current(), Pick(addr, t), now)
  {
    if CoolingUntil(s.Current(), t, addr, until) && DuplicateFree(s.log) {
      AddressesDistinct(s, |s.log|, t);
      CoolingNotOffered(s.Current(), t, addr, until, now);
    }
  }

  /**
   * Cooldown safety, in every interleaving, of the window a trip opened and until it ends: while it is
   * undisturbed the entry stays cooled to exactly that instant, and, unless another trip sets the same
   * one, only then. It is undisturbed if no store loaded before the trip is published after it and DNS
   * keeps the address. While it stands no pick function returns the entry.
   */
  lemma CooldownSafety(cooldown: Time, steps: seq<Step>, j: nat, t: PoolType, addr: Addr, until: Time, now: Time)
    requires ValidRun(cooldown, INIT, steps)
    requires Opens(RunFrom(cooldown, INIT, steps), j, t, addr, until)
    requires RunFrom(cooldown, INIT, steps).clock <= now < until
    ensures var s := RunFrom(cooldown, INIT, steps);
            && s.Sized() && Ordered(s.log)
            && (Undisturbed(s.log, |s.log|, j, t, addr) ==> CoolingUntil(s.Current(), t, addr, until))
            && (OnlyTrip(s.log, j, addr, until) && CoolingUntil(s.Current(), t, addr, until) ==>
                  Undisturbed(s.log, |s.log|, j, t, addr))
            && (NoStaleStore(s.log, j, |s.log|) && KeptAfter(s.log, j, t, addr) ==>
                  Undisturbed(s.log, |s.log|, j, t, addr))
            && (CoolingUntil(s.Current(), t, addr, until) && DuplicateFree(s.log) ==>
                  !Offered(s.Current(), Pick(addr, t), now))
  {
    RunKeepsInv(cooldown, INIT, steps);
    var s := RunFrom(cooldown, INIT, steps);
    UndisturbedCools(s, j, t, addr, until);
    OnlyTripNeedsCalm(s, j, t, addr, until);
    CalmIsUndisturbed(s.log, j, t, addr);
    CoolingHides(s, t, addr, until, now);
  }

  // --- Racing trips ---

  /** Commit k is a later trip of the address. */
  ghost predicate TripsAgain(log: seq<Commit>, k: nat, addr: Addr) {
    k < |log| && log[k].op.TripOp? && log[k].op.addr == addr
  }

  lemma LateTripKeeps(s: State, k: nat, t: PoolType, addr: Addr, until: Time)
    requires LogConsistent(s) && TripsAgain(s.log, k, addr) && s.clock < until
    requires CoolingUntil(s.versions[k], t, addr, until)
    ensures CoolingUntil(s.versions[k + 1], t, addr, until)
    ensures s.versions[k + 1].Pool(t) == s.versions[k].Pool(t)
  {
    var op := s.log[k].op;
    assert s.versions[k + 1] == Apply(op, s.versions[k]);
    CooledIsLeftAlone(s.versions[k], t, addr, until, op.until, op.at);
  }

  lemma LateTripRestoresNothing(s: State, j: nat, k: nat, t: PoolType, addr: Addr, until: Time)
    requires LogConsistent(s) && TripsAgain(s.log, k, addr) && j < k && OnlyTrip(s.log, j, addr, until)
    requires CoolingUntil(s.versions[k + 1], t, addr, until)
    ensures CoolingUntil(s.versions[k], t, addr, until)
  {
    assert s.versions[k + 1] == Apply(s.log[k].op, s.versions[k]);
    CoolingComesFrom(s.log[k].op, s.versions[k], t, addr, until);
  }

  /**
   * When a later trip leaves the window of an earlier one alone, in every interleaving and while that window
   * has not ended: exactly if, when the later trip swaps, the window is undisturbed; and then the pool
   * stays as it is. Otherwise the trip finds the window gone, and may open another with a later end.
   */
  lemma LateTripExactly(cooldown: Time, steps: seq<Step>, j: nat, k: nat, t: PoolType, addr: Addr, until: Time)
    requires ValidRun(cooldown, INIT, steps)
    requires Opens(RunFrom(cooldown, INIT, steps), j, t, addr, until)
    requires OnlyTrip(RunFrom(cooldown, INIT, steps).log, j, addr, until)
    requires j < k && TripsAgain(RunFrom(cooldown, INIT, steps).log, k, addr)
    requires RunFrom(cooldown, INIT, steps).clock < until
    ensures var s := RunFrom(cooldown, INIT, steps);
            && s.Sized() && Ordered(s.log)
            && (CoolingUntil(s.versions[k + 1], t, addr, until) <==> Undisturbed(s.log, k, j, t, addr))
            && (Undisturbed(s.log, k, j, t, addr) ==> s.versions[k + 1].Pool(t) == s.versions[k].Pool(t))
  {
    RunKeepsInv(cooldown, INIT, steps);
    var s := RunFrom(cooldown, INIT, steps);
    WindowKeptExactly(cooldown, steps, k, j, t, addr, until);
    if CoolingUntil(s.versions[k], t, addr, until) {
      LateTripKeeps(s, k, t, addr, until);
    }
    if CoolingUntil(s.versions[k + 1], t, addr, until) {
      LateTripRestoresNothing(s, j, k, t, addr, until);
    }
  }

  lemma UndisturbedIsIdle(s: State, j: nat, k: nat, t: PoolType, addr: Addr, until: Time)
    requires LogConsistent(s) && j < k && TripsAgain(s.log, k, addr) && s.clock < until
    requires Opens(s, j, t, addr, until) && Undisturbed(s.log, k, j, t, addr)
    ensures !Trips(s.versions[k].Pool(t), addr, s.log[k].op.at.For(t))
  {
    UndisturbedIsKept(s.log, k, j, t, addr);
    CooldownExactly(s, k, t, addr, until);
  }

  lemma IdleTrip(s: State, k: nat, addr: Addr)
    requires LogConsistent(s) && TripsAgain(s.log, k, addr)
    requires forall t: PoolType :: !Trips(s.versions[k].Pool(t), addr, s.log[k].op.at.For(t))
    ensures s.versions[k + 1] == s.versions[k]
  {
    var op, before := s.log[k].op, s.versions[k];
    assert s.versions[k + 1] == Apply(op, before);
    assert !Trips(before.Pool(Gpu), addr, op.at.For(Gpu)) && !Trips(before.Pool(Cpu), addr, op.at.For(Cpu));
  }

  /**
   * If in every pool that lists the address the earlier trip opened a window that is undisturbed, the later
   * trip changes nothing at all, stamp included.
   */
  lemma LateTripChangesNothing(cooldown: Time, steps: seq<Step>, j: nat, k: nat, addr: Addr, until: Time)
    requires ValidRun(cooldown, INIT, steps)
    requires j < k && TripsAgain(RunFrom(cooldown, INIT, steps).log, k, addr)
    requires RunFrom(cooldown, INIT, steps).clock < until
    ensures var s := RunFrom(cooldown, INIT, steps);
            && s.Sized() && Ordered(s.log)
            && ((forall t: PoolType :: Has(s.versions[k].Pool(t), addr) ==>
                   Opens(s, j, t, addr, until) && Undisturbed(s.log, k, j, t, addr)) ==>
                s.versions[k + 1] == s.versions[k])
  {
    RunKeepsInv(cooldown, INIT, steps);
    var s := RunFrom(cooldown, INIT, steps);
    if forall t: PoolType :: Has(s.versions[k].Pool(t), addr) ==>
         Opens(s, j, t, addr, until) && Undisturbed(s.log, k, j, t, addr) {
      forall t: PoolType
        ensures !Trips(s.versions[k].Pool(t), addr, s.log[k].op.at.For(t))
      {
        if Has(s.versions[k].Pool(t), addr) {
          UndisturbedIsIdle(s, j, k, t, addr, until);
        }
      }
      IdleTrip(s, k, addr);
    }
  }

  // --- Provenance of routable entries ---

  function AnswerFor(op: Op, t: PoolType): ResolveResult
    requires op.MergeOp?
  {
    if t == Gpu then op.gpu else op.cpu
  }

  /** The most recent resolved answer for a pool; empty before the first. */
  ghost function LatestAnswer(ops: seq<Op>, t: PoolType): seq<Addr> {
    if ops == [] then []
    else
      var op := ops[|ops| - 1];
      if op.MergeOp? && AnswerFor(op, t).Resolved? then AnswerFor(op, t).addrs
      else LatestAnswer(ops[..|ops| - 1], t)
  }

  /** The most recent poll result for an address since DNS last introduced it to the pool. */
  ghost function LastReport(ops: seq<Op>, t: PoolType, addr: Addr): Option<PollResult> {
    if ops == [] then None
    else
      var op, before := ops[|ops| - 1], ops[..|ops| - 1];
      if op.MergeOp? && AnswerFor(op, t).Resolved? && addr !in LatestAnswer(before, t) then None
      else if op.PollOp? && Reports(op.results, addr) then Some(op.results[FirstResult(op.results, addr)])
      else LastReport(before, t, addr)
  }

  /** Health fields as the last report left them, or as discovery introduced them. */
  predicate Reflects(u: Upstream, report: Option<PollResult>) {
    match report
    case None => u.status == Unknown && u.queueDepth == 0 && u.liveWorkers == 0
    case Some(r) => u.status == r.status && u.queueDepth == r.queueDepth && u.liveWorkers == r.liveWorkers
  }

  /** One pool, membership and health, as the operations explain it. */
  ghost predicate PoolExplained(pool: seq<Upstream>, ops: seq<Op>, t: PoolType) {
    && Addrs(pool) == LatestAnswer(ops, t)
    && forall i :: 0 <= i < |pool| ==>
         pool[i].poolType == t && Reflects(pool[i], LastReport(ops, t, pool[i].addr))
  }

  ghost predicate Explained(s: PoolSnapshot, ops: seq<Op>) {
    forall t: PoolType :: PoolExplained(s.Pool(t), ops, t)
  }

  lemma MergeExplained(op: Op, pool: seq<Upstream>, ops: seq<Op>, t: PoolType)
    requires op.MergeOp? && PoolExplained(pool, ops, t)
    ensures PoolExplained(MergePool(pool, AnswerFor(op, t), t, op.now), ops + [op], t)
  {
    var more, answer := ops + [op], AnswerFor(op, t);
    var next := MergePool(pool, answer, t, op.now);
    assert more[..|more| - 1] == ops;
    MergeMembership(pool, answer, t, op.now);
    if answer.Resolved? {
      forall i | 0 <= i < |next|
        ensures next[i].poolType == t && Reflects(next[i], LastReport(more, t, next[i].addr))
      {
        assert next[i] == KeepOrAdd(pool, answer.addrs[i], t, op.now);
        HasIffListed(pool, answer.addrs[i]);
      }
    }
  }

  lemma PollExplained(op: Op, pool: seq<Upstream>, ops: seq<Op>, t: PoolType)
    requires op.PollOp? && PoolExplained(pool, ops, t)
    ensures PoolExplained(UpdatePool(pool, op.results, op.now), ops + [op], t)
  {
    var more := ops + [op];
    assert more[..|more| - 1] == ops;
    UpdateKeeps(pool, op.results, op.now);
  }

  lemma TripExplained(op: Op, pool: seq<Upstream>, ops: seq<Op>, t: PoolType, now: Time)
    requires op.TripOp? && PoolExplained(pool, ops, t)
    ensures PoolExplained(TripPool(pool, op.addr, op.until, now), ops + [op], t)
  {
    var more := ops + [op];
    assert more[..|more| - 1] == ops;
    TripPoolEffect(pool, op.addr, op.until, now);
    var next := TripPool(pool, op.addr, op.until, now);
    forall i | 0 <= i < |next|
      ensures next[i].poolType == t && Reflects(next[i], LastReport(more, t, next[i].addr))
    {
      assert next[i].(cooldownUntil := pool[i].cooldownUntil) == pool[i];
    }
  }

  lemma ApplyExplained(op: Op, s: PoolSnapshot, ops: seq<Op>)
    requires Explained(s, ops)
    ensures Explained(Apply(op, s), ops + [op])
  {
    forall t: PoolType
      ensures PoolExplained(Apply(op, s).Pool(t), ops + [op], t)
    {
      assert PoolExplained(s.Pool(t), ops, t);
      match op
      case MergeOp(_, _, _) => MergeExplained(op, s.Pool(t), ops, t);
      case PollOp(_, _) => PollExplained(op, s.Pool(t), ops, t);
      case TripOp(_, _, at) => TripExplained(op, s.Pool(t), ops, t, at.For(t));
    }
  }

  /** Membership and health of a serially built snapshot, read off the operations alone. */
  lemma {:induction false} SerialExplained(ops: seq<Op>)
    ensures Explained(ApplyAll(ops, EMPTY_SNAPSHOT), ops)
  {
    if ops != [] {
      var before := ops[..|ops| - 1];
      SerialExplained(before);
      ApplyExplained(ops[|ops| - 1], ApplyAll(before, EMPTY_SNAPSHOT), before);
      assert before + [ops[|ops| - 1]] == ops;
    }
  }

  /**
   * In every interleaving, an address any pick function returns is in the latest resolved answer for
   * its pool, and the last poll result applied to it was Ok, or Loading with live workers.
   */
  lemma PickProvenance(cooldown: Time, steps: seq<Step>, v: nat, p: Pick, now: Time)
    requires ValidRun(cooldown, INIT, steps)
    requires v < |RunFrom(cooldown, INIT, steps).versions|
    requires Offered(RunFrom(cooldown, INIT, steps).versions[v], p, now)
    ensures Ordered(RunFrom(cooldown, INIT, steps).log) && v <= |RunFrom(cooldown, INIT, steps).log|
    ensures var ops := OpsBehind(RunFrom(cooldown, INIT, steps).log, v);
            var report := LastReport(ops, p.poolType, p.addr);
            && p.addr in LatestAnswer(ops, p.poolType)
            && report.Some?
            && (report.value.status == Ok || (report.value.status == Loading && report.value.liveWorkers > 0))
  {
    RunKeepsInv(cooldown, INIT, steps);
    var s := RunFrom(cooldown, INIT, steps);
    var ops := OpsBehind(s.log, v);
    VersionIsSerial(s, v);
    SerialExplained(ops);
    var c: Candidate :| Routable(s.versions[v], c, now) && Names(s.versions[v], c, p);
    var pool := s.versions[v].Pool(c.poolType);
    assert PoolExplained(pool, ops, c.poolType);
    assert Addrs(pool)[c.index] == pool[c.index].addr;
  }

  /** Polls, trips and failed lookups change neither membership nor order. */
  lemma OnlyAnswersMove(op: Op, s: PoolSnapshot, t: PoolType)
    requires op.MergeOp? ==> AnswerFor(op, t).Failed?
    ensures Addrs(Apply(op, s).Pool(t)) == Addrs(s.Pool(t))
  {
    match op
    case MergeOp(_, _, _) =>
    case PollOp(results, now) => UpdateKeeps(s.Pool(t), results, now);
    case TripOp(addr, until, at) =>
      TripPoolEffect(s.Pool(t), addr, until, at.For(t));
  }

  lemma AddressesDistinct(s: State, v: nat, t: PoolType)
    requires LogConsistent(s) && v <= |s.log| && DuplicateFree(s.log)
    ensures Distinct(Addrs(s.versions[v].Pool(t)))
  {
    VersionIsSerial(s, v);
    var ops := OpsBehind(s.log, v);
    SerialExplained(ops);
    assert PoolExplained(s.versions[v].Pool(t), ops, t);
    LineageAscending(s.log, v);
    assert forall i :: 0 <= i < |ops| ==> ops[i] == s.log[LineageOf(s.log, v)[i]].op;
    LatestAnswerDistinct(ops, t);
  }

  lemma {:induction false} LatestAnswerDistinct(ops: seq<Op>, t: PoolType)
    requires forall i :: 0 <= i < |ops| && ops[i].MergeOp? && AnswerFor(ops[i], t).Resolved? ==>
                           Distinct(AnswerFor(ops[i], t).addrs)
    ensures Distinct(LatestAnswer(ops, t))
  {
    if ops != [] {
      LatestAnswerDistinct(ops[..|ops| - 1], t);
    }
  }
}
