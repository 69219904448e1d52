/**
 * The shared snapshot as a step machine. Discovery and the health poller load, compute and store
 * plainly; any number of trips run an rcu loop. Steps of all tasks interleave freely with the clock.
 */
module Interleaving {
  import opened Snapshot
  import opened CircuitBreaker
  import opened Discovery
  import opened Health

  /** A snapshot transformer with everything it reads besides the snapshot. */
  datatype Op =
    | MergeOp(gpu: ResolveResult, cpu: ResolveResult, now: Time)
    | PollOp(results: seq<PollResult>, now: Time)
    | TripOp(addr: Addr, until: Time, at: Readings)

  function Apply(op: Op, s: PoolSnapshot): PoolSnapshot {
    match op
    case MergeOp(gpu, cpu, now) => Merge(s, gpu, cpu, now)
    case PollOp(results, now) => ApplyUpdates(s, results, now)
    case TripOp(addr, until, at) => TripSnapshot(s, addr, until, at)
  }

  /** No clock reading of the operation lies after `clock`. */
  predicate ReadBefore(op: Op, clock: Time) {
    match op
    case MergeOp(_, _, now) => now <= clock
    case PollOp(_, now) => now <= clock
    case TripOp(_, _, at) => at.gpuNow <= clock && at.cpuNow <= clock && at.stamp <= clock
  }

  /** A publication: the operation and the version it was applied to. */
  datatype Commit = Commit(op: Op, base: nat)

  datatype DnsTask = DnsIdle | DnsLoaded(gpu: ResolveResult, cpu: ResolveResult, base: nat, at: Time)

  datatype HealthTask =
    | HealthIdle
    | Polling(addrs: seq<Addr>)
    | HealthLoaded(results: seq<PollResult>, base: nat, at: Time)

  datatype TripTask =
    | Begun(addr: Addr, now: Time)
    | Wanted(addr: Addr, until: Time)
    | TripLoaded(addr: Addr, until: Time, base: nat, at: Time)

  /** `versions[0]` is the initial snapshot and commit k publishes `versions[k + 1]`. */
  datatype State = State(
    clock: Time,
    versions: seq<PoolSnapshot>,
    log: seq<Commit>,
    dns: DnsTask,
    health: HealthTask,
    trips: map<nat, TripTask>)
  {
    ghost predicate Sized() {
      |versions| == |log| + 1
    }

    function Current(): PoolSnapshot
      requires |versions| > 0
    {
      versions[|versions| - 1]
    }

    /** Publish `next`, computed by `op` from version `base`. */
    function Publish(op: Op, base: nat): State
      requires base < |versions|
    {
      this.(versions := versions + [Apply(op, versions[base])], log := log + [Commit(op, base)])
    }
  }

  const INIT := State(0, [EMPTY_SNAPSHOT], [], DnsIdle, HealthIdle, map[])

  datatype Step =
    | Tick(elapsed: Time)
    | DnsLoad(gpu: ResolveResult, cpu: ResolveResult)
    | DnsStore(now: Time)
    | HealthBegin
    | HealthLoad(results: seq<PollResult>)
    | HealthStore(now: Time)
    | TripBegin(id: nat, addr: Addr)
    | TripCheck(id: nat)
    | TripLoad(id: nat)
    | TripSwap(id: nat, at: Readings)

  /** When a step may happen; a task reads the clock between its load and its publication. */
  predicate Enabled(s: State, step: Step) {
    && |s.versions| == |s.log| + 1
    && match step
       case Tick(_) => true
       case DnsLoad(_, _) => s.dns.DnsIdle?
       case DnsStore(now) => s.dns.DnsLoaded? && s.dns.base < |s.versions| && s.dns.at <= now <= s.clock
       case HealthBegin => s.health.HealthIdle?
       case HealthLoad(results) => s.health.Polling? && forall r :: r in results ==> r.addr in s.health.addrs
       case HealthStore(now) => s.health.HealthLoaded? && s.health.base < |s.versions| && s.health.at <= now <= s.clock
       case TripBegin(id, _) => id !in s.trips
       case TripCheck(id) => id in s.trips && s.trips[id].Begun?
       case TripLoad(id) => id in s.trips && s.trips[id].Wanted?
       case TripSwap(id, at) =>
         && id in s.trips && s.trips[id].TripLoaded? && s.trips[id].base < |s.versions|
         && s.trips[id].at <= at.gpuNow <= at.cpuNow <= at.stamp <= s.clock
  }

  /** `cooldown` is the configured window; zero turns tripping off. */
  function Do(cooldown: Time, s: State, step: Step): State
    requires Enabled(s, step)
  {
    match step
    case Tick(elapsed) => s.(clock := s.clock + elapsed)
    case DnsLoad(gpu, cpu) => s.(dns := DnsLoaded(gpu, cpu, |s.log|, s.clock))
    case DnsStore(now) => s.Publish(MergeOp(s.dns.gpu, s.dns.cpu, now), s.dns.base).(dns := DnsIdle)
    case HealthBegin =>
      var addrs := Addrs(s.Current().gpu + s.Current().cpu);
      if addrs == [] then s else s.(health := Polling(addrs))
    case HealthLoad(results) => s.(health := HealthLoaded(results, |s.log|, s.clock))
    case HealthStore(now) => s.Publish(PollOp(s.health.results, now), s.health.base).(health := HealthIdle)
    case TripBegin(id, addr) =>
      if cooldown == 0 then s else s.(trips := s.trips[id := Begun(addr, s.clock)])
    case TripCheck(id) =>
      var task := s.trips[id];
      if AlreadyCooled(s.Current(), task.addr, task.now) then s.(trips := s.trips - {id})
      else s.(trips := s.trips[id := Wanted(task.addr, task.now + cooldown)])
    case TripLoad(id) =>
      var task := s.trips[id];
      s.(trips := s.trips[id := TripLoaded(task.addr, task.until, |s.log|, s.clock)])
    case TripSwap(id, at) =>
      var task := s.trips[id];
      if task.base == |s.log| then
        s.Publish(TripOp(task.addr, task.until, at), task.base).(trips := s.trips - {id})
      else
        s.(trips := s.trips[id := Wanted(task.addr, task.until)])
  }

  predicate ValidRun(cooldown: Time, s: State, steps: seq<Step>)
    decreases |steps|
  {
    steps == [] || (Enabled(s, steps[0]) && ValidRun(cooldown, Do(cooldown, s, steps[0]), steps[1..]))
  }

  function RunFrom(cooldown: Time, s: State, steps: seq<Step>): State
    requires ValidRun(cooldown, s, steps)
    decreases |steps|
  {
    if steps == [] then s else RunFrom(cooldown, Do(cooldown, s, steps[0]), steps[1..])
  }

  /** A refresh or a poll stamps the snapshot with its time, whether or not it changed anything. */
  lemma StoresStamp(op: Op, s: PoolSnapshot)
    requires !op.TripOp?
    ensures Apply(op, s).updatedAt == op.now
  {
  }

  // --- What every interleaving keeps ---

  ghost predicate LogConsistent(s: State) {
    && s.Sized()
    && s.versions[0] == EMPTY_SNAPSHOT
    && forall k :: 0 <= k < |s.log| ==>
         && s.log[k].base <= k
         && (s.log[k].op.TripOp? ==> s.log[k].base == k)
         && s.versions[k + 1] == Apply(s.log[k].op, s.versions[s.log[k].base])
         && ReadBefore(s.log[k].op, s.clock)
  }

  ghost predicate TasksConsistent(s: State) {
    && (s.dns.DnsLoaded? ==> s.dns.base <= |s.log| && s.dns.at <= s.clock)
    && (s.health.HealthLoaded? ==> s.health.base <= |s.log| && s.health.at <= s.clock)
    && forall id :: id in s.trips ==>
         && (s.trips[id].Begun? ==> s.trips[id].now <= s.clock)
         && (s.trips[id].TripLoaded? ==> s.trips[id].base <= |s.log| && s.trips[id].at <= s.clock)
  }

  ghost predicate Inv(s: State) {
    LogConsistent(s) && TasksConsistent(s)
  }

  lemma PublishKeepsLog(s: State, op: Op, base: nat)
    requires LogConsistent(s) && base <= |s.log| && (op.TripOp? ==> base == |s.log|) && ReadBefore(op, s.clock)
    ensures LogConsistent(s.Publish(op, base))
  {
    var next := s.Publish(op, base);
    assert forall k :: 0 <= k < |s.log| ==> next.log[k] == s.log[k];
    assert forall v :: 0 <= v < |s.versions| ==> next.versions[v] == s.versions[v];
  }

  lemma StepKeepsLog(cooldown: Time, s: State, step: Step)
    requires Inv(s) && Enabled(s, step)
    ensures LogConsistent(Do(cooldown, s, step))
  {
    match step
    case DnsStore(now) => PublishKeepsLog(s, MergeOp(s.dns.gpu, s.dns.cpu, now), s.dns.base);
    case HealthStore(now) => PublishKeepsLog(s, PollOp(s.health.results, now), s.health.base);
    case TripSwap(id, at) =>
      var task := s.trips[id];
      if task.base == |s.log| {
        PublishKeepsLog(s, TripOp(task.addr, task.until, at), task.base);
      }
    case _ =>
  }

  lemma StepKeepsInv(cooldown: Time, s: State, step: Step)
    requires Inv(s) && Enabled(s, step)
    ensures Inv(Do(cooldown, s, step))
    ensures s.log <= Do(cooldown, s, step).log
    ensures s.versions <= Do(cooldown, s, step).versions
    ensures s.clock <= Do(cooldown, s, step).clock
  {
    StepKeepsLog(cooldown, s, step);
  }

  /** Published versions are never revised, and the invariant holds in every reachable state. */
  lemma {:induction false} RunKeepsInv(cooldown: Time, s: State, steps: seq<Step>)
    requires Inv(s) && ValidRun(cooldown, s, steps)
    ensures var last := RunFrom(cooldown, s, steps);
            Inv(last) && s.log <= last.log && s.versions <= last.versions && s.clock <= last.clock
    decreases |steps|
  {
    if steps != [] {
      StepKeepsInv(cooldown, s, steps[0]);
      RunKeepsInv(cooldown, Do(cooldown, s, steps[0]), steps[1..]);
    }
  }

  lemma {:induction false} RunAppend(cooldown: Time, s: State, a: seq<Step>, b: seq<Step>)
    requires ValidRun(cooldown, s, a + b)
    ensures ValidRun(cooldown, s, a)
    ensures ValidRun(cooldown, RunFrom(cooldown, s, a), b)
    ensures RunFrom(cooldown, s, a + b) == RunFrom(cooldown, RunFrom(cooldown, s, a), b)
    decreases |a|
  {
    if a == [] {
      assert a + b == b;
    } else {
      assert (a + b)[1..] == a[1..] + b;
      RunAppend(cooldown, Do(cooldown, s, a[0]), a[1..], b);
    }
  }

  lemma OneStep(cooldown: Time, s: State, step: Step)
    requires Enabled(s, step)
    ensures ValidRun(cooldown, s, [step]) && RunFrom(cooldown, s, [step]) == Do(cooldown, s, step)
  {
    assert ValidRun(cooldown, Do(cooldown, s, step), [step][1..]);
  }

  lemma Extend(cooldown: Time, s: State, steps: seq<Step>, step: Step)
    requires ValidRun(cooldown, s, steps) && Enabled(RunFrom(cooldown, s, steps), step)
    ensures ValidRun(cooldown, s, steps + [step])
    ensures RunFrom(cooldown, s, steps + [step]) == Do(cooldown, RunFrom(cooldown, s, steps), step)
    decreases |steps|
  {
    if steps == [] {
      assert steps + [step] == [step];
    } else {
      assert (steps + [step])[1..] == steps[1..] + [step];
      Extend(cooldown, Do(cooldown, s, steps[0]), steps[1..], step);
    }
  }

  lemma {:induction false} RunJoin(cooldown: Time, s: State, a: seq<Step>, b: seq<Step>)
    requires ValidRun(cooldown, s, a) && ValidRun(cooldown, RunFrom(cooldown, s, a), b)
    ensures ValidRun(cooldown, s, a + b)
    ensures RunFrom(cooldown, s, a + b) == RunFrom(cooldown, RunFrom(cooldown, s, a), b)
    decreases |a|
  {
    if a == [] {
      assert a + b == b;
    } else {
      assert (a + b)[1..] == a[1..] + b;
      RunJoin(cooldown, Do(cooldown, s, a[0]), a[1..], b);
    }
  }

  // --- Bounded exclusion ---

  ghost predicate CooledUntil(s: PoolSnapshot, bound: Time) {
    forall t: PoolType, i :: 0 <= i < |s.Pool(t)| && s.Pool(t)[i].cooldownUntil.Some? ==>
                               s.Pool(t)[i].cooldownUntil.value <= bound
  }

  /** Every version, and every window a running trip may still open, ends by `bound`. */
  ghost predicate WindowsEndBy(cooldown: Time, s: State, bound: Time) {
    && (forall v :: 0 <= v < |s.versions| ==> CooledUntil(s.versions[v], bound))
    && forall id :: id in s.trips ==>
         match s.trips[id]
         case Begun(_, now) => now + cooldown <= bound
         case Wanted(_, until) => until <= bound
         case TripLoaded(_, until, _, _) => until <= bound
  }

  lemma ApplyKeepsBound(op: Op, s: PoolSnapshot, bound: Time)
    requires CooledUntil(s, bound)
    requires op.TripOp? ==> op.until <= bound
    ensures CooledUntil(Apply(op, s), bound)
  {
    var next := Apply(op, s);
    forall t: PoolType, i | 0 <= i < |next.Pool(t)| && next.Pool(t)[i].cooldownUntil.Some?
      ensures next.Pool(t)[i].cooldownUntil.value <= bound
    {
      var u, pool := next.Pool(t)[i], s.Pool(t);
      match op
      case MergeOp(gpu, cpu, now) =>
        var answer := if t == Gpu then gpu else cpu;
        if answer.Resolved? {
          assert u == KeepOrAdd(pool, answer.addrs[i], t, now);
          assert u == pool[FirstMatch(pool, answer.addrs[i])];
        }
      case PollOp(results, now) =>
        assert u == UpdateEntry(pool[i], results, now);
      case TripOp(addr, until, at) =>
        TripPoolEffect(pool, addr, until, at.For(t));
        assert pool[i].cooldownUntil.Some? ==> pool[i].cooldownUntil.value <= bound;
    }
  }

  lemma StepKeepsBound(cooldown: Time, s: State, step: Step, bound: Time)
    requires Inv(s) && Enabled(s, step) && WindowsEndBy(cooldown, s, bound)
    requires step.TripBegin? ==> s.clock + cooldown <= bound
    ensures WindowsEndBy(cooldown, Do(cooldown, s, step), bound)
  {
    match step
    case DnsStore(now) => ApplyKeepsBound(MergeOp(s.dns.gpu, s.dns.cpu, now), s.versions[s.dns.base], bound);
    case HealthStore(now) => ApplyKeepsBound(PollOp(s.health.results, now), s.versions[s.health.base], bound);
    case TripSwap(id, at) =>
      var task := s.trips[id];
      ApplyKeepsBound(TripOp(task.addr, task.until, at), s.versions[task.base], bound);
    case _ =>
  }

  lemma RaiseBound(cooldown: Time, s: State, low: Time, high: Time)
    requires WindowsEndBy(cooldown, s, low) && low <= high
    ensures WindowsEndBy(cooldown, s, high)
  {
    forall v | 0 <= v < |s.versions|
      ensures CooledUntil(s.versions[v], high)
    {
      assert CooledUntil(s.versions[v], low);
    }
  }

  /** Stale stores and retried swaps included, no cooldown ever ends later than one window from now. */
  lemma {:induction false} ExclusionBounded(cooldown: Time, s: State, steps: seq<Step>)
    requires Inv(s) && ValidRun(cooldown, s, steps) && WindowsEndBy(cooldown, s, s.clock + cooldown)
    ensures var last := RunFrom(cooldown, s, steps); WindowsEndBy(cooldown, last, last.clock + cooldown)
    decreases |steps|
  {
    if steps != [] {
      var next := Do(cooldown, s, steps[0]);
      StepKeepsInv(cooldown, s, steps[0]);
      StepKeepsBound(cooldown, s, steps[0], s.clock + cooldown);
      RaiseBound(cooldown, next, s.clock + cooldown, next.clock + cooldown);
      ExclusionBounded(cooldown, next, steps[1..]);
    }
  }

  /** From the start, in every interleaving. */
  lemma ReachableExclusionBounded(cooldown: Time, steps: seq<Step>)
    requires ValidRun(cooldown, INIT, steps)
    ensures var last := RunFrom(cooldown, INIT, steps);
            && last.Sized()
            && CooledUntil(last.Current(), last.clock + cooldown)
  {
    ExclusionBounded(cooldown, INIT, steps);
    RunKeepsInv(cooldown, INIT, steps);
    var last := RunFrom(cooldown, INIT, steps);
    assert CooledUntil(last.versions[|last.versions| - 1], last.clock + cooldown);
  }

  lemma {:induction false} NoNewTripsBounded(cooldown: Time, s: State, steps: seq<Step>, bound: Time)
    requires Inv(s) && ValidRun(cooldown, s, steps) && WindowsEndBy(cooldown, s, bound)
    requires forall i :: 0 <= i < |steps| ==> !steps[i].TripBegin?
    ensures WindowsEndBy(cooldown, RunFrom(cooldown, s, steps), bound)
    decreases |steps|
  {
    if steps != [] {
      StepKeepsInv(cooldown, s, steps[0]);
      StepKeepsBound(cooldown, s, steps[0], bound);
      NoNewTripsBounded(cooldown, Do(cooldown, s, steps[0]), steps[1..], bound);
    }
  }

  /** Once no new trip begins, one window later nothing is cooling, whatever else still interleaves. */
  lemma ExclusionExpires(cooldown: Time, before: seq<Step>, quiet: seq<Step>)
    requires ValidRun(cooldown, INIT, before + quiet)
    requires forall i :: 0 <= i < |quiet| ==> !quiet[i].TripBegin?
    ensures ValidRun(cooldown, INIT, before)
    ensures var mid, last := RunFrom(cooldown, INIT, before), RunFrom(cooldown, INIT, before + quiet);
            && last.Sized()
            && (last.clock >= mid.clock + cooldown ==>
                  forall t: PoolType, i :: 0 <= i < |last.Current().Pool(t)| ==>
                    !last.Current().Pool(t)[i].InCooldown(last.clock))
  {
    RunAppend(cooldown, INIT, before, quiet);
    RunKeepsInv(cooldown, INIT, before);
    RunKeepsInv(cooldown, INIT, before + quiet);
    ExclusionBounded(cooldown, INIT, before);
    var mid, last := RunFrom(cooldown, INIT, before), RunFrom(cooldown, INIT, before + quiet);
    NoNewTripsBounded(cooldown, mid, quiet, mid.clock + cooldown);
    assert CooledUntil(last.versions[|last.versions| - 1], mid.clock + cooldown);
  }
}
