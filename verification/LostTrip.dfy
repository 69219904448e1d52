/** When a cooldown that is gone stays gone. */
module LostTrip {
  import opened Snapshot
  import opened CircuitBreaker
  import opened Discovery
  import opened Health
  import opened Interleaving

  predicate NotCooling(s: PoolSnapshot, t: PoolType, addr: Addr, now: Time) {
    forall i :: 0 <= i < |s.Pool(t)| && s.Pool(t)[i].addr == addr ==> !s.Pool(t)[i].InCooldown(now)
  }

  /** The end of the window a running trip may still open. */
  function WindowEnd(cooldown: Time, task: TripTask): Time {
    match task
    case Begun(_, now) => now + cooldown
    case Wanted(_, until) => until
    case TripLoaded(_, until, _, _) => until
  }

  /**
   * No entry of the address is cooling now, and nothing under way can bring a window back: not the merge
   * discovery is about to store, not the pool a poll is about to update, not a trip that is running.
   */
  ghost predicate Gone(cooldown: Time, s: State, t: PoolType, addr: Addr, now: Time)
    requires Inv(s)
  {
    && NotCooling(s.Current(), t, addr, now)
    && (s.dns.DnsLoaded? ==>
          NotCooling(Merge(s.versions[s.dns.base], s.dns.gpu, s.dns.cpu, s.dns.at), t, addr, now))
    && (s.health.HealthLoaded? ==> NotCooling(s.versions[s.health.base], t, addr, now))
    && forall id :: id in s.trips && s.trips[id].addr == addr ==> WindowEnd(cooldown, s.trips[id]) <= now
  }

  // --- It stays gone ---

  /** Only a trip of the address, for an instant still to come, opens a window. */
  lemma ApplyOpensNothing(op: Op, s: PoolSnapshot, t: PoolType, addr: Addr, now: Time)
    requires NotCooling(s, t, addr, now)
    requires op.TripOp? && op.addr == addr ==> op.until <= now
    ensures NotCooling(Apply(op, s), t, addr, now)
  {
    var pool, next := s.Pool(t), Apply(op, s).Pool(t);
    forall i | 0 <= i < |next| && next[i].addr == addr
      ensures !next[i].InCooldown(now)
    {
      match op
      case MergeOp(gpu, cpu, merged) =>
        var answer := if t == Gpu then gpu else cpu;
        if answer.Resolved? {
          assert next[i] == KeepOrAdd(pool, answer.addrs[i], t, merged);
        }
      case PollOp(results, polled) =>
        assert next[i] == UpdateEntry(pool[i], results, polled);
      case TripOp(other, until, at) =>
        TripPoolEffect(pool, other, until, at.For(t));
    }
  }

  /** When a merge is stamped makes no difference to what is cooling. */
  lemma StampIrrelevant(s: PoolSnapshot, gpu: ResolveResult, cpu: ResolveResult, a: Time, b: Time,
                        t: PoolType, addr: Addr, now: Time)
    requires NotCooling(Merge(s, gpu, cpu, a), t, addr, now)
    ensures NotCooling(Merge(s, gpu, cpu, b), t, addr, now)
  {
    var p, q := Merge(s, gpu, cpu, a).Pool(t), Merge(s, gpu, cpu, b).Pool(t);
    var answer := if t == Gpu then gpu else cpu;
    if answer.Resolved? {
      forall i | 0 <= i < |q| && q[i].addr == addr
        ensures !q[i].InCooldown(now)
      {
        assert p[i] == KeepOrAdd(s.Pool(t), answer.addrs[i], t, a);
        assert q[i] == KeepOrAdd(s.Pool(t), answer.addrs[i], t, b);
      }
    }
  }

  lemma StepKeepsGone(cooldown: Time, s: State, step: Step, t: PoolType, addr: Addr, now: Time)
    requires Inv(s) && Enabled(s, step) && Gone(cooldown, s, t, addr, now)
    requires step.TripBegin? ==> step.addr != addr
    ensures Inv(Do(cooldown, s, step)) && Gone(cooldown, Do(cooldown, s, step), t, addr, now)
  {
    StepKeepsInv(cooldown, s, step);
    match step
    case DnsLoad(gpu, cpu) => ApplyOpensNothing(MergeOp(gpu, cpu, s.clock), s.Current(), t, addr, now);
    case DnsStore(stamp) =>
      StampIrrelevant(s.versions[s.dns.base], s.dns.gpu, s.dns.cpu, s.dns.at, stamp, t, addr, now);
    case HealthStore(stamp) =>
      ApplyOpensNothing(PollOp(s.health.results, stamp), s.versions[s.health.base], t, addr, now);
    case TripSwap(id, at) =>
      ApplyOpensNothing(TripOp(s.trips[id].addr, s.trips[id].until, at), s.Current(), t, addr, now);
    case _ =>
  }

  /** No trip of the address begins. */
  predicate Untripped(steps: seq<Step>, addr: Addr) {
    forall i :: 0 <= i < |steps| && steps[i].TripBegin? ==> steps[i].addr != addr
  }

  lemma {:induction false} RunKeepsGone(cooldown: Time, s: State, steps: seq<Step>, t: PoolType, addr: Addr, now: Time)
    requires Inv(s) && Gone(cooldown, s, t, addr, now)
    requires ValidRun(cooldown, s, steps) && Untripped(steps, addr)
    ensures var last := RunFrom(cooldown, s, steps); Inv(last) && Gone(cooldown, last, t, addr, now)
    decreases |steps|
  {
    if steps != [] {
      StepKeepsGone(cooldown, s, steps[0], t, addr, now);
      RunKeepsGone(cooldown, Do(cooldown, s, steps[0]), steps[1..], t, addr, now);
    }
  }

  // --- Otherwise it can come back ---

  /** After these steps, none of which begins a trip, an entry of the address is cooling. */
  ghost predicate BringsBack(cooldown: Time, s: State, steps: seq<Step>, t: PoolType, addr: Addr) {
    && ValidRun(cooldown, s, steps)
    && Untripped(steps, addr)
    && var last := RunFrom(cooldown, s, steps);
       last.Sized() && !NotCooling(last.Current(), t, addr, last.clock)
  }

  lemma PendingMergeBringsBack(cooldown: Time, s: State, t: PoolType, addr: Addr)
    requires Inv(s) && s.dns.DnsLoaded?
    requires !NotCooling(Merge(s.versions[s.dns.base], s.dns.gpu, s.dns.cpu, s.dns.at), t, addr, s.clock)
    ensures BringsBack(cooldown, s, [DnsStore(s.clock)], t, addr)
  {
    var merged := Merge(s.versions[s.dns.base], s.dns.gpu, s.dns.cpu, s.clock);
    if NotCooling(merged, t, addr, s.clock) {
      StampIrrelevant(s.versions[s.dns.base], s.dns.gpu, s.dns.cpu, s.clock, s.dns.at, t, addr, s.clock);
    }
    OneStep(cooldown, s, DnsStore(s.clock));
  }

  lemma PendingPollBringsBack(cooldown: Time, s: State, t: PoolType, addr: Addr)
    requires Inv(s) && s.health.HealthLoaded? && !NotCooling(s.versions[s.health.base], t, addr, s.clock)
    ensures BringsBack(cooldown, s, [HealthStore(s.clock)], t, addr)
  {
    var pool := s.versions[s.health.base].Pool(t);
    UpdateKeeps(pool, s.health.results, s.clock);
    var i :| 0 <= i < |pool| && pool[i].addr == addr && pool[i].InCooldown(s.clock);
    var next := UpdatePool(pool, s.health.results, s.clock);
    assert next[i].addr == addr && next[i].InCooldown(s.clock);
    assert ApplyUpdates(s.versions[s.health.base], s.health.results, s.clock).Pool(t) == next;
    OneStep(cooldown, s, HealthStore(s.clock));
  }

  /** A whole refresh, at one instant, of both pools with the same answer. */
  function Refreshing(answer: seq<Addr>, now: Time): seq<Step> {
    [DnsLoad(Resolved(answer), Resolved(answer)), DnsStore(now)]
  }

  function Refreshed(s: State, answer: seq<Addr>): State
    requires s.Sized()
  {
    s.Publish(MergeOp(Resolved(answer), Resolved(answer), s.clock), |s.log|)
  }

  lemma RefreshRuns(cooldown: Time, s: State, answer: seq<Addr>)
    requires Inv(s) && s.dns.DnsIdle?
    ensures ValidRun(cooldown, s, Refreshing(answer, s.clock))
    ensures RunFrom(cooldown, s, Refreshing(answer, s.clock)) == Refreshed(s, answer)
  {
    var load, store := DnsLoad(Resolved(answer), Resolved(answer)), DnsStore(s.clock);
    OneStep(cooldown, s, load);
    Extend(cooldown, s, [load], store);
    assert [load] + [store] == Refreshing(answer, s.clock);
  }

  /** Both pools list just the address, and its entries are fresh. */
  predicate OnlyFresh(s: PoolSnapshot, addr: Addr) {
    forall t: PoolType :: |s.Pool(t)| == 1 && s.Pool(t)[0].addr == addr && s.Pool(t)[0].cooldownUntil.None?
  }

  /** The pools can be emptied and the address discovered anew, trips staying where they are. */
  lemma StartOver(cooldown: Time, s: State, addr: Addr) returns (steps: seq<Step>)
    requires Inv(s) && s.dns.DnsIdle?
    ensures ValidRun(cooldown, s, steps) && forall i :: 0 <= i < |steps| ==> !steps[i].TripBegin?
    ensures var last := RunFrom(cooldown, s, steps);
            && Inv(last) && last.clock == s.clock && last.trips == s.trips && |last.log| > |s.log|
            && OnlyFresh(last.Current(), addr)
  {
    RefreshRuns(cooldown, s, []);
    RunKeepsInv(cooldown, s, Refreshing([], s.clock));
    var empty := Refreshed(s, []);
    RefreshRuns(cooldown, empty, [addr]);
    RunJoin(cooldown, s, Refreshing([], s.clock), Refreshing([addr], s.clock));
    steps := Refreshing([], s.clock) + Refreshing([addr], s.clock);
    RunKeepsInv(cooldown, s, steps);
    assert |empty.Current().gpu| == 0 && |empty.Current().cpu| == 0;
  }

  lemma TripOfFresh(s: PoolSnapshot, addr: Addr, until: Time, now: Time, t: PoolType)
    requires OnlyFresh(s, addr) && until > now
    ensures !NotCooling(TripSnapshot(s, addr, until, Readings(now, now, now)), t, addr, now)
  {
    var pool := s.Pool(t);
    assert FirstMatch(pool, addr) == 0;
    var next := TripSnapshot(s, addr, until, Readings(now, now, now)).Pool(t);
    assert next == TripPool(pool, addr, until, now);
    assert next[0].addr == addr && next[0].InCooldown(now);
  }

  /** A running trip that wants a window gets it: its swap meets no rival. */
  lemma WantedOpens(cooldown: Time, s: State, id: nat, t: PoolType, addr: Addr)
    requires Inv(s) && id in s.trips && s.trips[id].Wanted? && s.trips[id].until > s.clock
    requires s.trips[id].addr == addr && OnlyFresh(s.Current(), addr)
    ensures BringsBack(cooldown, s, [TripLoad(id), TripSwap(id, Readings(s.clock, s.clock, s.clock))], t, addr)
  {
    var load, swap, until := TripLoad(id), TripSwap(id, Readings(s.clock, s.clock, s.clock)), s.trips[id].until;
    OneStep(cooldown, s, load);
    Extend(cooldown, s, [load], swap);
    assert [load] + [swap] == [load, swap];
    TripOfFresh(s.Current(), addr, until, s.clock, t);
    var last := RunFrom(cooldown, s, [load, swap]);
    assert last.Current() == TripSnapshot(s.Current(), addr, until, Readings(s.clock, s.clock, s.clock));
  }

  /** Whatever a running trip has done so far, over fresh pools it comes to want its window. */
  lemma ComesToWant(cooldown: Time, s: State, id: nat) returns (steps: seq<Step>)
    requires Inv(s) && id in s.trips && OnlyFresh(s.Current(), s.trips[id].addr)
    requires s.trips[id].TripLoaded? ==> s.trips[id].base < |s.log|
    ensures ValidRun(cooldown, s, steps) && forall i :: 0 <= i < |steps| ==> !steps[i].TripBegin?
    ensures var last := RunFrom(cooldown, s, steps);
            && last.clock == s.clock && last.versions == s.versions && last.log == s.log
            && id in last.trips
            && last.trips[id] == Wanted(s.trips[id].addr, WindowEnd(cooldown, s.trips[id]))
  {
    match s.trips[id]
    case Begun(addr, now) =>
      assert s.Current().Pool(Gpu)[0].cooldownUntil.None? && s.Current().Pool(Cpu)[0].cooldownUntil.None?;
      assert !AlreadyCooled(s.Current(), addr, now);
      OneStep(cooldown, s, TripCheck(id));
      steps := [TripCheck(id)];
    case Wanted(_, _) =>
      steps := [];
    case TripLoaded(_, _, _, _) =>
      OneStep(cooldown, s, TripSwap(id, Readings(s.clock, s.clock, s.clock)));
      steps := [TripSwap(id, Readings(s.clock, s.clock, s.clock))];
  }

  lemma RunningTripBringsBack(cooldown: Time, s: State, id: nat, t: PoolType) returns (steps: seq<Step>)
    requires Inv(s) && s.dns.DnsIdle? && id in s.trips && WindowEnd(cooldown, s.trips[id]) > s.clock
    ensures BringsBack(cooldown, s, steps, t, s.trips[id].addr)
  {
    var anew := StartOver(cooldown, s, s.trips[id].addr);
    var s1 := RunFrom(cooldown, s, anew);
    var wanting := ComesToWant(cooldown, s1, id);
    RunJoin(cooldown, s, anew, wanting);
    RunKeepsInv(cooldown, s1, wanting);
    var s2 := RunFrom(cooldown, s1, wanting);
    var swapping := [TripLoad(id), TripSwap(id, Readings(s2.clock, s2.clock, s2.clock))];
    WantedOpens(cooldown, s2, id, t, s.trips[id].addr);
    RunJoin(cooldown, s, anew + wanting, swapping);
    steps := anew + wanting + swapping;
  }

  lemma BringsBackLater(cooldown: Time, s: State, step: Step, rest: seq<Step>, t: PoolType, addr: Addr)
    requires Enabled(s, step) && !step.TripBegin? && BringsBack(cooldown, Do(cooldown, s, step), rest, t, addr)
    ensures BringsBack(cooldown, s, [step] + rest, t, addr)
  {
    OneStep(cooldown, s, step);
    RunJoin(cooldown, s, [step], rest);
  }

  lemma NotGoneComesBack(cooldown: Time, s: State, t: PoolType, addr: Addr) returns (steps: seq<Step>)
    requires Inv(s) && !Gone(cooldown, s, t, addr, s.clock)
    ensures BringsBack(cooldown, s, steps, t, addr)
  {
    if !NotCooling(s.Current(), t, addr, s.clock) {
      steps := [];
    } else if s.dns.DnsLoaded? &&
              !NotCooling(Merge(s.versions[s.dns.base], s.dns.gpu, s.dns.cpu, s.dns.at), t, addr, s.clock) {
      PendingMergeBringsBack(cooldown, s, t, addr);
      steps := [DnsStore(s.clock)];
    } else if s.health.HealthLoaded? && !NotCooling(s.versions[s.health.base], t, addr, s.clock) {
      PendingPollBringsBack(cooldown, s, t, addr);
      steps := [HealthStore(s.clock)];
    } else {
      var id :| id in s.trips && s.trips[id].addr == addr && WindowEnd(cooldown, s.trips[id]) > s.clock;
      if s.dns.DnsLoaded? {
        var flushed := Do(cooldown, s, DnsStore(s.clock));
        StepKeepsInv(cooldown, s, DnsStore(s.clock));
        var rest := RunningTripBringsBack(cooldown, flushed, id, t);
        BringsBackLater(cooldown, s, DnsStore(s.clock), rest, t, addr);
        steps := [DnsStore(s.clock)] + rest;
      } else {
        steps := RunningTripBringsBack(cooldown, s, id, t);
      }
    }
  }

  /**
   * A window that is gone stays gone, in every continuation in which no trip of the address begins, exactly
   * when nothing under way can bring it back: no merge or poll loaded while it stood, no trip still
   * running. Refreshes and polls that start later never restore it.
   */
  lemma LostTripStaysLost(cooldown: Time, s: State, t: PoolType, addr: Addr)
    requires Inv(s)
    ensures Gone(cooldown, s, t, addr, s.clock) <==>
            forall steps: seq<Step> :: !BringsBack(cooldown, s, steps, t, addr)
  {
    if Gone(cooldown, s, t, addr, s.clock) {
      forall steps: seq<Step>
        ensures !BringsBack(cooldown, s, steps, t, addr)
      {
        if ValidRun(cooldown, s, steps) && Untripped(steps, addr) {
          RunKeepsGone(cooldown, s, steps, t, addr, s.clock);
          RunKeepsInv(cooldown, s, steps);
        }
      }
    } else {
      var steps := NotGoneComesBack(cooldown, s, t, addr);
    }
  }
}
