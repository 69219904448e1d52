/** The steps of each task, taken in order, do what its method does: `Refresh`, `PollAll` and `Trip`. */
module Correspondence {
  import opened Snapshot
  import opened CircuitBreaker
  import opened Discovery
  import opened Health
  import opened Interleaving
  import Proxy

  predicate OfDns(step: Step) {
    step.DnsLoad? || step.DnsStore?
  }

  predicate OfHealth(step: Step) {
    step.HealthBegin? || step.HealthLoad? || step.HealthStore?
  }

  predicate OfTrip(step: Step, id: nat) {
    (step.TripBegin? || step.TripCheck? || step.TripLoad? || step.TripSwap?) && step.id == id
  }

  lemma OtherStep(cooldown: Time, s: State, step: Step, id: nat)
    requires Enabled(s, step)
    ensures !OfDns(step) ==> Do(cooldown, s, step).dns == s.dns
    ensures !OfHealth(step) ==> Do(cooldown, s, step).health == s.health
    ensures !OfTrip(step, id) && id in s.trips ==>
              id in Do(cooldown, s, step).trips && Do(cooldown, s, step).trips[id] == s.trips[id]
  {
  }

  /** Steps of other tasks leave a task where it stands. */
  lemma {:induction false} OthersPass(cooldown: Time, s: State, steps: seq<Step>, id: nat)
    requires ValidRun(cooldown, s, steps)
    ensures var last := RunFrom(cooldown, s, steps);
            && ((forall i :: 0 <= i < |steps| ==> !OfDns(steps[i])) ==> last.dns == s.dns)
            && ((forall i :: 0 <= i < |steps| ==> !OfHealth(steps[i])) ==> last.health == s.health)
            && ((forall i :: 0 <= i < |steps| ==> !OfTrip(steps[i], id)) && id in s.trips ==>
                  id in last.trips && last.trips[id] == s.trips[id])
    decreases |steps|
  {
    if steps != [] {
      OtherStep(cooldown, s, steps[0], id);
      OthersPass(cooldown, Do(cooldown, s, steps[0]), steps[1..], id);
      assert forall i :: 0 <= i < |steps| - 1 ==> steps[1..][i] == steps[i + 1];
    }
  }

  /** One step, then others, taken apart. */
  lemma Split(cooldown: Time, s: State, step: Step, mid: seq<Step>, rest: seq<Step>)
    requires Inv(s) && ValidRun(cooldown, s, [step] + (mid + rest))
    ensures Enabled(s, step) && Inv(Do(cooldown, s, step))
    ensures var first := Do(cooldown, s, step);
            && ValidRun(cooldown, first, mid) && ValidRun(cooldown, s, [step] + mid)
            && var second := RunFrom(cooldown, first, mid);
               && RunFrom(cooldown, s, [step] + mid) == second && Inv(second)
               && first.versions <= second.versions && first.clock <= second.clock
               && ValidRun(cooldown, second, rest)
               && RunFrom(cooldown, s, [step] + (mid + rest)) == RunFrom(cooldown, second, rest)
  {
    RunAppend(cooldown, s, [step], mid + rest);
    OneStep(cooldown, s, step);
    StepKeepsInv(cooldown, s, step);
    RunAppend(cooldown, Do(cooldown, s, step), mid, rest);
    RunKeepsInv(cooldown, Do(cooldown, s, step), mid);
    RunJoin(cooldown, s, [step], mid);
  }

  lemma LastStep(cooldown: Time, s: State, step: Step)
    requires ValidRun(cooldown, s, [step])
    ensures Enabled(s, step) && RunFrom(cooldown, s, [step]) == Do(cooldown, s, step)
  {
    OneStep(cooldown, s, step);
  }

  /** A refresh publishes the merge of what it loaded, whatever was published meanwhile, as `Refresh` does. */
  lemma RefreshCorresponds(cooldown: Time, s: State, gpu: ResolveResult, cpu: ResolveResult, mid: seq<Step>, now: Time)
    requires Inv(s) && ValidRun(cooldown, s, [DnsLoad(gpu, cpu)] + (mid + [DnsStore(now)]))
    requires forall i :: 0 <= i < |mid| ==> !OfDns(mid[i])
    ensures var last := RunFrom(cooldown, s, [DnsLoad(gpu, cpu)] + (mid + [DnsStore(now)]));
            && last.Sized() && last.dns.DnsIdle?
            && last.Current() == Merge(s.Current(), gpu, cpu, now)
            && s.clock <= now <= last.clock
  {
    Split(cooldown, s, DnsLoad(gpu, cpu), mid, [DnsStore(now)]);
    var first := Do(cooldown, s, DnsLoad(gpu, cpu));
    OthersPass(cooldown, first, mid, 0);
    var second := RunFrom(cooldown, first, mid);
    LastStep(cooldown, second, DnsStore(now));
    assert second.versions[|s.log|] == s.Current();
  }

  lemma StoreOfPoll(cooldown: Time, s: State, results: seq<PollResult>, during: seq<Step>, now: Time)
    requires Inv(s) && ValidRun(cooldown, s, [HealthLoad(results)] + (during + [HealthStore(now)]))
    requires forall i :: 0 <= i < |during| ==> !OfHealth(during[i])
    ensures var last := RunFrom(cooldown, s, [HealthLoad(results)] + (during + [HealthStore(now)]));
            && last.Sized() && last.health.HealthIdle?
            && last.Current() == ApplyUpdates(s.Current(), results, now)
            && s.clock <= now <= last.clock
  {
    Split(cooldown, s, HealthLoad(results), during, [HealthStore(now)]);
    var first := Do(cooldown, s, HealthLoad(results));
    OthersPass(cooldown, first, during, 0);
    var second := RunFrom(cooldown, first, during);
    LastStep(cooldown, second, HealthStore(now));
    assert second.versions[|s.log|] == s.Current();
  }

  /** The steps of a polling round, others running before its second load and before its store. */
  function PollSteps(before: seq<Step>, results: seq<PollResult>, during: seq<Step>, now: Time): seq<Step> {
    [HealthBegin] + (before + ([HealthLoad(results)] + (during + [HealthStore(now)])))
  }

  /**
   * A polling round asks the addresses of both pools as it found them, updates what its second load shows and
   * publishes that whatever came in between, as `PollAll` does; with both pools empty it does nothing.
   */
  lemma PollCorresponds(cooldown: Time, s: State, before: seq<Step>, results: seq<PollResult>,
                        during: seq<Step>, now: Time)
    requires Inv(s) && ValidRun(cooldown, s, PollSteps(before, results, during, now))
    requires forall i :: 0 <= i < |before| ==> !OfHealth(before[i])
    requires forall i :: 0 <= i < |during| ==> !OfHealth(during[i])
    ensures Addrs(s.Current().gpu) + Addrs(s.Current().cpu) != []
    ensures forall r :: r in results ==> r.addr in Addrs(s.Current().gpu) + Addrs(s.Current().cpu)
    ensures ValidRun(cooldown, s, [HealthBegin] + before)
    ensures var found, last := RunFrom(cooldown, s, [HealthBegin] + before),
                               RunFrom(cooldown, s, PollSteps(before, results, during, now));
            && found.Sized() && last.Sized() && last.health.HealthIdle?
            && last.Current() == ApplyUpdates(found.Current(), results, now)
            && found.clock <= now <= last.clock
  {
    var rest := [HealthLoad(results)] + (during + [HealthStore(now)]);
    Split(cooldown, s, HealthBegin, before, rest);
    var first := Do(cooldown, s, HealthBegin);
    OthersPass(cooldown, first, before, 0);
    assert Addrs(s.Current().gpu + s.Current().cpu) == Addrs(s.Current().gpu) + Addrs(s.Current().cpu);
    assert rest[0] == HealthLoad(results);
    StoreOfPoll(cooldown, RunFrom(cooldown, first, before), results, during, now);
  }

  lemma NothingToPoll(cooldown: Time, s: State)
    requires Inv(s) && s.health.HealthIdle? && s.Current().gpu == [] && s.Current().cpu == []
    ensures Do(cooldown, s, HealthBegin) == s
  {
  }

  /**
   * A trip compares what its one look at the pool shows with the clock it read before; cooling there, it is
   * over, else its window is to end one cooldown after that reading. Nothing is published.
   */
  lemma CheckCorresponds(cooldown: Time, s: State, id: nat, addr: Addr, mid: seq<Step>)
    requires Inv(s) && cooldown > 0 && ValidRun(cooldown, s, [TripBegin(id, addr)] + (mid + [TripCheck(id)]))
    requires forall i :: 0 <= i < |mid| ==> !OfTrip(mid[i], id)
    ensures ValidRun(cooldown, s, [TripBegin(id, addr)] + mid)
    ensures var seen, last := RunFrom(cooldown, s, [TripBegin(id, addr)] + mid),
                              RunFrom(cooldown, s, [TripBegin(id, addr)] + (mid + [TripCheck(id)]));
            && seen.Sized() && last.versions == seen.versions
            && if AlreadyCooled(seen.Current(), addr, s.clock) then id !in last.trips
               else id in last.trips && last.trips[id] == Wanted(addr, s.clock + cooldown)
  {
    Split(cooldown, s, TripBegin(id, addr), mid, [TripCheck(id)]);
    var first := Do(cooldown, s, TripBegin(id, addr));
    OthersPass(cooldown, first, mid, id);
    LastStep(cooldown, RunFrom(cooldown, first, mid), TripCheck(id));
  }

  /**
   * A swap publishes the trip of what the pass loaded if nothing was published since, and otherwise publishes
   * nothing and tries again: it never overwrites.
   */
  lemma SwapCorresponds(cooldown: Time, s: State, id: nat, mid: seq<Step>, at: Readings)
    requires Inv(s) && id in s.trips && ValidRun(cooldown, s, [TripLoad(id)] + (mid + [TripSwap(id, at)]))
    requires forall i :: 0 <= i < |mid| ==> !OfTrip(mid[i], id)
    ensures s.trips[id].Wanted? && ValidRun(cooldown, s, [TripLoad(id)] + mid)
    ensures var task := s.trips[id];
            var seen, last := RunFrom(cooldown, s, [TripLoad(id)] + mid),
                              RunFrom(cooldown, s, [TripLoad(id)] + (mid + [TripSwap(id, at)]));
            if seen.versions == s.versions then
              && last.versions == s.versions + [TripSnapshot(s.Current(), task.addr, task.until, at)]
              && id !in last.trips
            else
              && last.versions == seen.versions
              && id in last.trips && last.trips[id] == task
  {
    Split(cooldown, s, TripLoad(id), mid, [TripSwap(id, at)]);
    var first := Do(cooldown, s, TripLoad(id));
    OthersPass(cooldown, first, mid, id);
    LastStep(cooldown, RunFrom(cooldown, first, mid), TripSwap(id, at));
  }

  /** The steps of a trip nothing interrupts, with its early returns. */
  function TripSteps(cooldown: Time, s: State, id: nat, addr: Addr): seq<Step>
    requires s.Sized()
  {
    if cooldown == 0 then [TripBegin(id, addr)]
    else if AlreadyCooled(s.Current(), addr, s.clock) then [TripBegin(id, addr), TripCheck(id)]
    else [TripBegin(id, addr), TripCheck(id), TripLoad(id), TripSwap(id, Readings(s.clock, s.clock, s.clock))]
  }

  lemma Decides(cooldown: Time, s: State, id: nat, addr: Addr)
    requires s.Sized() && id !in s.trips && cooldown > 0
    ensures ValidRun(cooldown, s, [TripBegin(id, addr), TripCheck(id)])
    ensures RunFrom(cooldown, s, [TripBegin(id, addr), TripCheck(id)]) ==
            if AlreadyCooled(s.Current(), addr, s.clock) then s
            else s.(trips := s.trips[id := Wanted(addr, s.clock + cooldown)])
  {
    var begin, check := TripBegin(id, addr), TripCheck(id);
    OneStep(cooldown, s, begin);
    Extend(cooldown, s, [begin], check);
    assert [begin] + [check] == [begin, check];
    var begun := s.trips[id := Begun(addr, s.clock)];
    assert begun - {id} == s.trips;
    assert begun[id := Wanted(addr, s.clock + cooldown)] == s.trips[id := Wanted(addr, s.clock + cooldown)];
  }

  lemma Swaps(cooldown: Time, s: State, id: nat, task: TripTask, at: Readings)
    requires s.Sized() && id !in s.trips && task.Wanted? && at == Readings(s.clock, s.clock, s.clock)
    ensures var wanting := s.(trips := s.trips[id := task]);
            && ValidRun(cooldown, wanting, [TripLoad(id), TripSwap(id, at)])
            && RunFrom(cooldown, wanting, [TripLoad(id), TripSwap(id, at)]) ==
               s.Publish(TripOp(task.addr, task.until, at), |s.log|)
  {
    var wanting, load, swap := s.(trips := s.trips[id := task]), TripLoad(id), TripSwap(id, at);
    OneStep(cooldown, wanting, load);
    Extend(cooldown, wanting, [load], swap);
    assert [load] + [swap] == [load, swap];
    assert wanting.trips[id := TripLoaded(task.addr, task.until, |s.log|, s.clock)] - {id} == s.trips;
  }

  /** An uninterrupted trip can run in every state, and publishes exactly what `Trip` does, or nothing. */
  lemma TripCorresponds(cooldown: Time, s: State, id: nat, addr: Addr)
    requires s.Sized() && id !in s.trips
    ensures ValidRun(cooldown, s, TripSteps(cooldown, s, id, addr))
    ensures var last, at := RunFrom(cooldown, s, TripSteps(cooldown, s, id, addr)),
                            Readings(s.clock, s.clock, s.clock);
            && last.Sized() && last.trips == s.trips
            && last.Current() == Proxy.Tripped(s.Current(), addr, cooldown, s.clock, [], at)
            && (last.versions == s.versions || last.versions == s.versions + [last.Current()])
  {
    if cooldown == 0 {
      OneStep(cooldown, s, TripBegin(id, addr));
    } else {
      Decides(cooldown, s, id, addr);
      if !AlreadyCooled(s.Current(), addr, s.clock) {
        var at := Readings(s.clock, s.clock, s.clock);
        Swaps(cooldown, s, id, Wanted(addr, s.clock + cooldown), at);
        RunJoin(cooldown, s, [TripBegin(id, addr), TripCheck(id)], [TripLoad(id), TripSwap(id, at)]);
        assert TripSteps(cooldown, s, id, addr) ==
               [TripBegin(id, addr), TripCheck(id)] + [TripLoad(id), TripSwap(id, at)];
      }
    }
  }
}
