/** The hedged race of an inference request. */
module Race {
  import opened Snapshot
  import opened Discovery
  import opened Config
  import opened Policy
  import opened Proxy
  import opened Retry

  /** A racing future: it completes at some instant, or stays pending. */
  datatype Leg = Pending | Completes(outcome: Outcome, at: Time)

  datatype Side = Primary | Hedge

  datatype Finish = Never | Finish(reply: Reply, at: Time, side: Side)

  /** A winner is any response that is not a server error. */
  predicate IsWinner(o: Outcome) {
    o.Response? && !IsServerError(o.status)
  }

  predicate Wins(leg: Leg) {
    leg.Completes? && IsWinner(leg.outcome)
  }

  /**
   * The timed specification: the earliest winner, ties to the primary; else, once both have failed,
   * the primary's failure at the later completion; else the race is still on.
   */
  function RaceSpec(gpu: Leg, secondary: Leg): Finish {
    if Wins(gpu) && (Wins(secondary) ==> gpu.at <= secondary.at) then Finish(Answered(gpu.outcome), gpu.at, Primary)
    else if Wins(secondary) then Finish(Answered(secondary.outcome), secondary.at, Hedge)
    else if gpu.Completes? && secondary.Completes? then
      Finish(Answered(gpu.outcome), Max(gpu.at, secondary.at), Primary)
    else Never
  }

  /** It completes with a response whose status is not one of 500 to 599. */
  predicate Delivers(leg: Leg) {
    leg.Completes? && leg.outcome.Response? && (leg.outcome.status < 500 || leg.outcome.status > 599)
  }

  /** The primary's failure, else the other one, else the default. */
  function FailureReply(gpu: Option<Reply>, secondary: Option<Reply>): Reply {
    if gpu.Some? then gpu.value else if secondary.Some? then secondary.value else NoUpstreamAvailable
  }

  /**
   * The select loop: each round takes the enabled branch that is ready first, the primary when both are
   * ready in the same tick. `rounds` counts completions consumed.
   */
  method SelectWinner(gpu: Leg, secondary: Leg) returns (finish: Finish, rounds: nat)
    ensures finish == RaceSpec(gpu, secondary)
    ensures finish.Finish? ==> finish.reply != NoUpstreamAvailable
    ensures rounds <= 2
    ensures finish ==
            if Delivers(gpu) && (Delivers(secondary) ==> gpu.at <= secondary.at) then
              Finish(Answered(gpu.outcome), gpu.at, Primary)
            else if Delivers(secondary) then Finish(Answered(secondary.outcome), secondary.at, Hedge)
            else if gpu.Completes? && secondary.Completes? then
              Finish(Answered(gpu.outcome), if gpu.at >= secondary.at then gpu.at else secondary.at, Primary)
            else Never
  {
    var gpuDone, secondaryDone := false, false;
    var gpuFailure: Option<Reply>, secondaryFailure: Option<Reply> := None, None;
    var now: Time := 0;
    rounds := 0;
    while !(gpuDone && secondaryDone)
      invariant rounds == (if gpuDone then 1 else 0) + (if secondaryDone then 1 else 0)
      invariant gpuDone ==> gpu.Completes? && !IsWinner(gpu.outcome) && gpuFailure == Some(Answered(gpu.outcome))
      invariant secondaryDone ==> secondary.Completes? && !IsWinner(secondary.outcome)
      invariant gpuDone && !secondaryDone ==> now == gpu.at && (secondary.Completes? ==> gpu.at <= secondary.at)
      invariant secondaryDone && !gpuDone ==> now == secondary.at && (gpu.Completes? ==> secondary.at < gpu.at)
      invariant gpuDone && secondaryDone ==> now == Max(gpu.at, secondary.at)
      decreases !gpuDone, !secondaryDone
    {
      var gpuReady := !gpuDone && gpu.Completes?;
      var secondaryReady := !secondaryDone && secondary.Completes?;
      if gpuReady && (!secondaryReady || gpu.at <= secondary.at) {
        gpuDone, now, rounds := true, gpu.at, rounds + 1;
        if IsWinner(gpu.outcome) {
          return Finish(Answered(gpu.outcome), now, Primary), rounds;
        }
        gpuFailure := Some(Answered(gpu.outcome));
      } else if secondaryReady {
        secondaryDone, now, rounds := true, secondary.at, rounds + 1;
        if IsWinner(secondary.outcome) {
          return Finish(Answered(secondary.outcome), now, Hedge), rounds;
        }
        secondaryFailure := Some(Answered(secondary.outcome));
      } else {
        return Never, rounds;
      }
    }
    return Finish(FailureReply(gpuFailure, secondaryFailure), now, Primary), rounds;
  }

  // --- Everything the two legs do, call by call ---

  datatype Tagged = Tagged(side: Side, event: Event)

  /**
   * Both futures are polled primary first whenever time moves; a delivered response ends the race and
   * drops whatever the other leg had left.
   */
  function RaceLog(gpu: seq<Event>, hedge: seq<Event>): seq<Tagged>
    decreases |gpu| + |hedge|
  {
    if gpu == [] && hedge == [] then []
    else if hedge == [] || (gpu != [] && gpu[0].at <= hedge[0].at) then
      [Tagged(Primary, gpu[0])] + if gpu[0].Delivered? then [] else RaceLog(gpu[1..], hedge)
    else
      [Tagged(Hedge, hedge[0])] + if hedge[0].Delivered? then [] else RaceLog(gpu, hedge[1..])
  }

  function OfSide(log: seq<Tagged>, side: Side): seq<Event> {
    if log == [] then []
    else (if log[0].side == side then [log[0].event] else []) + OfSide(log[1..], side)
  }

  /** Time-ordered, with a completion only at the end: the shape of any forwarding. */
  predicate LegShaped(es: seq<Event>) {
    |es| <= 1 || (es[0].Called? && es[0].at <= es[1].at && LegShaped(es[1..]))
  }

  lemma {:induction false} ShapedFromOrder(es: seq<Event>)
    requires TimeOrdered(es) && forall i :: 0 <= i < |es| - 1 ==> es[i].Called?
    ensures LegShaped(es)
    decreases |es|
  {
    if |es| > 1 {
      assert forall i :: 0 <= i < |es| - 1 ==> es[1..][i] == es[i + 1];
      ShapedFromOrder(es[1..]);
    }
  }

  lemma {:induction false} HeadBeforeLast(es: seq<Event>)
    requires LegShaped(es) && es != []
    ensures es[0].at <= es[|es| - 1].at
    decreases |es|
  {
    if |es| > 1 {
      HeadBeforeLast(es[1..]);
    }
  }

  predicate EndsDelivered(es: seq<Event>) {
    es != [] && es[|es| - 1].Delivered?
  }

  /** When a leg completes and how. */
  function LegOf(es: seq<Event>): Leg {
    if es != [] && es[|es| - 1].Completes() then Completes(es[|es| - 1].outcome, es[|es| - 1].at) else Pending
  }

  /** A leg's completion carries the outcome its kind says. */
  predicate Honest(es: seq<Event>) {
    es != [] && es[|es| - 1].Completes() ==> (es[|es| - 1].Delivered? <==> IsWinner(es[|es| - 1].outcome))
  }

  /** What a leg does before an instant, and at it if inclusive. */
  function Before(es: seq<Event>, at: Time, inclusive: bool): seq<Event> {
    if es != [] && (es[0].at < at || (inclusive && es[0].at == at)) then [es[0]] + Before(es[1..], at, inclusive)
    else []
  }

  lemma {:induction false} BeforeIsPrefix(es: seq<Event>, at: Time, inclusive: bool)
    ensures Before(es, at, inclusive) <= es
    decreases |es|
  {
    if es != [] {
      BeforeIsPrefix(es[1..], at, inclusive);
      assert es == [es[0]] + es[1..];
    }
  }

  predicate EndsWith(log: seq<Tagged>, last: Tagged) {
    log != [] && log[|log| - 1] == last
  }

  lemma SideStep(side: Side, event: Event, rest: seq<Tagged>)
    ensures OfSide([Tagged(side, event)] + rest, side) == [event] + OfSide(rest, side)
    ensures OfSide([Tagged(side, event)] + rest, Opponent(side)) == OfSide(rest, Opponent(side))
  {
    assert ([Tagged(side, event)] + rest)[1..] == rest;
  }

  function Opponent(side: Side): Side {
    if side == Primary then Hedge else Primary
  }

  /** The log of a race one side won: all it did, what the other did until then, its response last. */
  predicate WonBy(log: seq<Tagged>, side: Side, mine: seq<Event>, other: seq<Event>) {
    && mine != []
    && OfSide(log, side) == mine
    && OfSide(log, Opponent(side)) == Before(other, mine[|mine| - 1].at, side == Hedge)
    && EndsWith(log, Tagged(side, mine[|mine| - 1]))
  }

  lemma WinnerLast(side: Side, mine: seq<Event>, other: seq<Event>)
    requires |mine| == 1
    requires other == [] || mine[0].at < other[0].at || (side == Primary && mine[0].at == other[0].at)
    ensures WonBy([Tagged(side, mine[0])], side, mine, other)
  {
    SideStep(side, mine[0], []);
    assert [Tagged(side, mine[0])] == [Tagged(side, mine[0])] + [];
  }

  lemma WinnerStep(rest: seq<Tagged>, side: Side, mine: seq<Event>, other: seq<Event>)
    requires |mine| > 1 && WonBy(rest, side, mine[1..], other)
    ensures WonBy([Tagged(side, mine[0])] + rest, side, mine, other)
  {
    SideStep(side, mine[0], rest);
  }

  lemma LoserStep(rest: seq<Tagged>, side: Side, mine: seq<Event>, other: seq<Event>)
    requires other != [] && WonBy(rest, side, mine, other[1..])
    requires other[0].at < mine[|mine| - 1].at || (side == Hedge && other[0].at == mine[|mine| - 1].at)
    ensures WonBy([Tagged(Opponent(side), other[0])] + rest, side, mine, other)
  {
    SideStep(Opponent(side), other[0], rest);
  }

  lemma {:induction false} PrimaryDelivers(gpu: seq<Event>, hedge: seq<Event>)
    requires LegShaped(gpu) && LegShaped(hedge) && EndsDelivered(gpu)
    requires EndsDelivered(hedge) ==> gpu[|gpu| - 1].at <= hedge[|hedge| - 1].at
    ensures WonBy(RaceLog(gpu, hedge), Primary, gpu, hedge)
    decreases |gpu| + |hedge|
  {
    HeadBeforeLast(gpu);
    if hedge == [] || gpu[0].at <= hedge[0].at {
      if |gpu| > 1 {
        PrimaryDelivers(gpu[1..], hedge);
        WinnerStep(RaceLog(gpu[1..], hedge), Primary, gpu, hedge);
      } else {
        WinnerLast(Primary, gpu, hedge);
      }
    } else {
      PrimaryDelivers(gpu, hedge[1..]);
      LoserStep(RaceLog(gpu, hedge[1..]), Primary, gpu, hedge);
    }
  }

  lemma {:induction false} HedgeDelivers(gpu: seq<Event>, hedge: seq<Event>)
    requires LegShaped(gpu) && LegShaped(hedge) && EndsDelivered(hedge)
    requires EndsDelivered(gpu) ==> hedge[|hedge| - 1].at < gpu[|gpu| - 1].at
    ensures WonBy(RaceLog(gpu, hedge), Hedge, hedge, gpu)
    decreases |gpu| + |hedge|
  {
    HeadBeforeLast(hedge);
    if gpu != [] && gpu[0].at <= hedge[0].at {
      HedgeDelivers(gpu[1..], hedge);
      LoserStep(RaceLog(gpu[1..], hedge), Hedge, hedge, gpu);
    } else if |hedge| > 1 {
      HedgeDelivers(gpu, hedge[1..]);
      WinnerStep(RaceLog(gpu, hedge[1..]), Hedge, hedge, gpu);
    } else {
      WinnerLast(Hedge, hedge, gpu);
    }
  }

  /** The log of a race nobody won: both sides ran to their ends. */
  predicate WonByNobody(log: seq<Tagged>, gpu: seq<Event>, hedge: seq<Event>) {
    OfSide(log, Primary) == gpu && OfSide(log, Hedge) == hedge
  }

  lemma NobodyStep(rest: seq<Tagged>, gpu: seq<Event>, hedge: seq<Event>)
    ensures gpu != [] && WonByNobody(rest, gpu[1..], hedge) ==>
              WonByNobody([Tagged(Primary, gpu[0])] + rest, gpu, hedge)
    ensures hedge != [] && WonByNobody(rest, gpu, hedge[1..]) ==>
              WonByNobody([Tagged(Hedge, hedge[0])] + rest, gpu, hedge)
  {
    if gpu != [] {
      SideStep(Primary, gpu[0], rest);
    }
    if hedge != [] {
      SideStep(Hedge, hedge[0], rest);
    }
  }

  lemma {:induction false} NobodyDelivers(gpu: seq<Event>, hedge: seq<Event>)
    requires LegShaped(gpu) && LegShaped(hedge) && !EndsDelivered(gpu) && !EndsDelivered(hedge)
    ensures WonByNobody(RaceLog(gpu, hedge), gpu, hedge)
    decreases |gpu| + |hedge|
  {
    if gpu == [] && hedge == [] {
    } else if hedge == [] || (gpu != [] && gpu[0].at <= hedge[0].at) {
      NobodyDelivers(gpu[1..], hedge);
      NobodyStep(RaceLog(gpu[1..], hedge), gpu, hedge);
    } else {
      NobodyDelivers(gpu, hedge[1..]);
      NobodyStep(RaceLog(gpu, hedge[1..]), gpu, hedge);
    }
  }

  function LastOf(es: seq<Event>): Event
    requires es != []
  {
    es[|es| - 1]
  }

  predicate PrimaryFirst(gpu: seq<Event>, hedge: seq<Event>) {
    EndsDelivered(gpu) && (EndsDelivered(hedge) ==> LastOf(gpu).at <= LastOf(hedge).at)
  }

  /** The verdict of the select loop, read off the two legs' last events. */
  lemma VerdictFromEnds(gpu: seq<Event>, hedge: seq<Event>)
    requires Honest(gpu) && Honest(hedge)
    ensures var finish := RaceSpec(LegOf(gpu), LegOf(hedge));
            if PrimaryFirst(gpu, hedge) then finish == Finish(Answered(LastOf(gpu).outcome), LastOf(gpu).at, Primary)
            else if EndsDelivered(hedge) then finish == Finish(Answered(LastOf(hedge).outcome), LastOf(hedge).at, Hedge)
            else if LegOf(gpu).Completes? && LegOf(hedge).Completes? then
              finish == Finish(Answered(LastOf(gpu).outcome), Max(LastOf(gpu).at, LastOf(hedge).at), Primary)
            else finish == Never
  {
  }

  /**
   * The call log agrees with that verdict. When the primary wins, the hedge did exactly what precedes
   * that instant; when the hedge wins, the primary also what falls on it; the winning response is the
   * last event; and when nobody wins, both legs ran to their ends.
   */
  lemma RaceLogExact(gpu: seq<Event>, hedge: seq<Event>)
    requires LegShaped(gpu) && LegShaped(hedge)
    ensures var log := RaceLog(gpu, hedge);
            if PrimaryFirst(gpu, hedge) then WonBy(log, Primary, gpu, hedge)
            else if EndsDelivered(hedge) then WonBy(log, Hedge, hedge, gpu)
            else WonByNobody(log, gpu, hedge)
  {
    if PrimaryFirst(gpu, hedge) {
      PrimaryDelivers(gpu, hedge);
    } else if EndsDelivered(hedge) {
      HedgeDelivers(gpu, hedge);
    } else {
      NobodyDelivers(gpu, hedge);
    }
  }

  /** After a delivered response nothing more happens on either side. */
  lemma {:induction false} NothingAfterWinner(gpu: seq<Event>, hedge: seq<Event>)
    ensures forall i :: 0 <= i < |RaceLog(gpu, hedge)| - 1 ==> !RaceLog(gpu, hedge)[i].event.Delivered?
    decreases |gpu| + |hedge|
  {
    if gpu == [] && hedge == [] {
    } else if hedge == [] || (gpu != [] && gpu[0].at <= hedge[0].at) {
      NothingAfterWinner(gpu[1..], hedge);
    } else {
      NothingAfterWinner(gpu, hedge[1..]);
    }
  }

  lemma {:induction false} CallsOfCut(done: seq<Event>, all: seq<Event>)
    requires done <= all
    ensures Calls(done) <= Calls(all)
    decreases |all|
  {
    if |done| < |all| {
      assert done <= all[..|all| - 1];
      CallsOfCut(done, all[..|all| - 1]);
    } else {
      assert done == all;
    }
  }

  /** What an inference request does to one side: a prefix of that leg's timeline. */
  lemma SidesArePrefixes(gpu: seq<Event>, hedge: seq<Event>)
    requires LegShaped(gpu) && LegShaped(hedge)
    ensures OfSide(RaceLog(gpu, hedge), Primary) <= gpu && OfSide(RaceLog(gpu, hedge), Hedge) <= hedge
  {
    RaceLogExact(gpu, hedge);
    if EndsDelivered(hedge) {
      BeforeIsPrefix(gpu, LastOf(hedge).at, true);
    }
    if EndsDelivered(gpu) {
      BeforeIsPrefix(hedge, LastOf(gpu).at, false);
    }
  }

  lemma TimelineIsHonest(cfg: RetryConfig, script: Script, start: Time)
    ensures LegShaped(Timeline(cfg, script, start)) && Honest(Timeline(cfg, script, start))
  {
    TimelineOrdered(cfg, script, start);
    RetryRefinement(cfg, script, start);
    ShapedFromOrder(Timeline(cfg, script, start));
    TimelineShape(cfg, script, start);
  }

  /** A trip is attempted for the leg's upstream. */
  predicate TripAttempted(es: seq<Event>) {
    exists i :: 0 <= i < |es| && es[i].Exhausted?
  }

  /** All n + 1 calls were made, answered and failed. */
  predicate RanOutOfRetries(es: seq<Event>, cfg: RetryConfig, script: Script) {
    AllFail(cfg, script) && Calls(es) == cfg.maxRetries + 1 && |es| == cfg.maxRetries + 2
  }

  lemma LegAccounting(cfg: RetryConfig, script: Script, start: Time, done: seq<Event>)
    requires done <= Timeline(cfg, script, start)
    ensures Calls(done) <= cfg.maxRetries + 1
    ensures TripAttempted(done) <==> RanOutOfRetries(done, cfg, script)
  {
    var all := Timeline(cfg, script, start);
    RetryRefinement(cfg, script, start);
    TimelineShape(cfg, script, start);
    CallsOfCut(done, all);
    if TripAttempted(done) {
      var i :| 0 <= i < |done| && done[i].Exhausted?;
      assert all[i].Exhausted?;
      assert done == all;
      assert Retries(script(FinalCall(cfg, script, 0)));
    }
    if RanOutOfRetries(done, cfg, script) {
      assert Retries(script(FinalCall(cfg, script, 0)));
      assert done == all;
      assert done[|done| - 1].Exhausted?;
    }
  }

  lemma {:induction false} HedgeStaysQuiet(gpu: seq<Event>, hedge: seq<Event>)
    requires LegShaped(gpu) && EndsDelivered(gpu)
    requires hedge == [] || gpu[|gpu| - 1].at <= hedge[0].at
    ensures OfSide(RaceLog(gpu, hedge), Hedge) == []
    decreases |gpu|
  {
    if |gpu| > 1 {
      HedgeStaysQuiet(gpu[1..], hedge);
      SideStep(Primary, gpu[0], RaceLog(gpu[1..], hedge));
    } else {
      SideStep(Primary, gpu[0], []);
    }
  }

  /**
   * Accounting of one race: at most 1 + R calls a side; no call to the hedge if the primary delivers by
   * the hedge delay; a side's upstream has a trip attempted iff all its 1 + R calls were answered with
   * failures before the race was over; and nothing follows the winning response.
   */
  lemma RaceAccounting(cfg: RetryConfig, delay: Time, primary: Script, secondary: Script)
    ensures var gpu, hedge := Timeline(cfg, primary, 0), Timeline(cfg, secondary, delay);
            var log := RaceLog(gpu, hedge);
            var g, h := OfSide(log, Primary), OfSide(log, Hedge);
            && Calls(g) <= cfg.maxRetries + 1 && Calls(h) <= cfg.maxRetries + 1
            && (TripAttempted(g) <==> RanOutOfRetries(g, cfg, primary))
            && (TripAttempted(h) <==> RanOutOfRetries(h, cfg, secondary))
            && (EndsDelivered(gpu) && gpu[|gpu| - 1].at <= delay ==> h == [])
            && (forall i :: 0 <= i < |log| - 1 ==> !log[i].event.Delivered?)
  {
    var gpu, hedge := Timeline(cfg, primary, 0), Timeline(cfg, secondary, delay);
    TimelineIsHonest(cfg, primary, 0);
    TimelineIsHonest(cfg, secondary, delay);
    SidesArePrefixes(gpu, hedge);
    LegAccounting(cfg, primary, 0, OfSide(RaceLog(gpu, hedge), Primary));
    LegAccounting(cfg, secondary, delay, OfSide(RaceLog(gpu, hedge), Hedge));
    NothingAfterWinner(gpu, hedge);
    TimelineOrdered(cfg, secondary, delay);
    if EndsDelivered(gpu) && gpu[|gpu| - 1].at <= delay {
      HedgeStaysQuiet(gpu, hedge);
    }
  }

  // --- The whole inference request ---

  datatype Plan = NoTarget | Direct(target: Pick) | Hedged(primary: Pick, secondary: Pick)

  /** Candidates read from one snapshot, each with its own clock reading. */
  function PlanOf(s: PoolSnapshot, gpuNow: Time, cpuNow: Time, exclusionNow: Time): Plan {
    var gpu := PickGpu(s, gpuNow);
    var secondary := Secondary(s, gpu, exclusionNow, PickCpu(s, cpuNow));
    match (gpu, secondary)
    case (None, None) => NoTarget
    case (None, Some(target)) => Direct(target)
    case (Some(target), None) => Direct(target)
    case (Some(primary), Some(other)) => Hedged(primary, other)
  }

  predicate NoneRoutable(pool: seq<Upstream>, now: Time) {
    forall i :: 0 <= i < |pool| ==> !Eligible(pool[i], now)
  }

  /** Every GPU but the one at `addr` is ineligible. */
  predicate NoOtherGpu(s: PoolSnapshot, addr: Addr, now: Time) {
    forall i :: 0 <= i < |s.gpu| ==> !Open(s.gpu, i, now, [addr])
  }

  /** The least eligible GPU at another address. */
  ghost predicate IsBestOther(s: PoolSnapshot, addr: Addr, p: Pick, now: Time) {
    exists i: nat :: Open(s.gpu, i, now, [addr]) && s.gpu[i].addr == p.addr &&
      forall j: nat :: Open(s.gpu, j, now, [addr]) ==> GpuKey(s.gpu, i).AtMost(GpuKey(s.gpu, j))
  }

  lemma NothingRoutable(s: PoolSnapshot, now: Time)
    ensures PickGpu(s, now).None? <==> NoneRoutable(s.gpu, now)
    ensures PickCpu(s, now).None? <==> NoneRoutable(s.cpu, now)
  {
    PickGpuIsArgmin(s, now);
    PickCpuIsArgmin(s, now);
    assert forall i: nat :: i < |s.gpu| ==> (Routable(s, Candidate(Gpu, i), now) <==> Eligible(s.gpu[i], now));
    assert forall i: nat :: i < |s.cpu| ==> (Routable(s, Candidate(Cpu, i), now) <==> Eligible(s.cpu[i], now));
  }

  /**
   * The primary is the best GPU; it is hedged by another GPU if one is eligible, else by the best CPU;
   * a request goes to one target only when there is no second, and fails only when nothing is routable.
   */
  lemma PlanExactly(s: PoolSnapshot, gpuNow: Time, cpuNow: Time, exclusionNow: Time)
    ensures match PlanOf(s, gpuNow, cpuNow, exclusionNow)
            case NoTarget => NoneRoutable(s.gpu, gpuNow) && NoneRoutable(s.cpu, cpuNow)
            case Direct(target) =>
              if target.poolType == Cpu then
                NoneRoutable(s.gpu, gpuNow) && ChoosesArgmin(s, {Cpu}, Some(target), cpuNow)
              else
                && ChoosesArgmin(s, {Gpu}, Some(target), gpuNow)
                && NoOtherGpu(s, target.addr, exclusionNow) && NoneRoutable(s.cpu, cpuNow)
            case Hedged(primary, secondary) =>
              && primary.poolType == Gpu && ChoosesArgmin(s, {Gpu}, Some(primary), gpuNow)
              && if secondary.poolType == Gpu then
                   secondary.addr != primary.addr && IsBestOther(s, primary.addr, secondary, exclusionNow)
                 else NoOtherGpu(s, primary.addr, exclusionNow) && ChoosesArgmin(s, {Cpu}, Some(secondary), cpuNow)
  {
    NothingRoutable(s, gpuNow);
    NothingRoutable(s, cpuNow);
    PickGpuIsArgmin(s, gpuNow);
    PickCpuIsArgmin(s, cpuNow);
    var gpu := PickGpu(s, gpuNow);
    if gpu.Some? {
      SecondaryDiffers(s, gpuNow, cpuNow, exclusionNow);
      PickTierIsLeast(s.gpu, exclusionNow, [gpu.value.addr]);
      var other := PickTierIndex(s.gpu, exclusionNow, [gpu.value.addr]);
      if other.Some? {
        assert Open(s.gpu, other.value, exclusionNow, [gpu.value.addr]);
      }
    }
  }

  /** The target a request is sent to first. */
  function FirstTarget(plan: Plan): Option<Pick> {
    match plan
    case NoTarget => None
    case Direct(target) => Some(target)
    case Hedged(primary, _) => Some(primary)
  }

  /** Some entry of the pool is Ok-eligible, or Loading-eligible. */
  predicate AnyOk(pool: seq<Upstream>, now: Time) {
    exists i :: 0 <= i < |pool| && IsOkEligible(pool[i], now)
  }

  predicate AnyLoading(pool: seq<Upstream>, now: Time) {
    exists i :: 0 <= i < |pool| && IsLoadingEligible(pool[i], now)
  }

  /**
   * An inference request goes first to what `pick` would choose, except exactly when the GPU pool has
   * only Loading upstreams to offer while an Ok CPU is there.
   */
  lemma FirstTargetVersusPick(s: PoolSnapshot, now: Time)
    ensures FirstTarget(PlanOf(s, now, now, now)) != PickBest(s, now) <==>
              !AnyOk(s.gpu, now) && AnyLoading(s.gpu, now) && AnyOk(s.cpu, now)
  {
  }

  const LOADING_GPU := Upstream(1, Gpu, Loading, 0, 1, 0, None)
  const OK_CPU := Upstream(2, Cpu, Ok, 0, 1, 0, None)

  /** A Loading GPU is primary over an Ok CPU, which is what `pick` chooses. */
  lemma LoadingGpuOverOkCpu()
    ensures var s := PoolSnapshot([LOADING_GPU], [OK_CPU], 0);
            && PlanOf(s, 0, 0, 0) == Hedged(Pick(1, Gpu), Pick(2, Cpu))
            && PickBest(s, 0) == Some(Pick(2, Cpu))
  {
    var s := PoolSnapshot([LOADING_GPU], [OK_CPU], 0);
    assert s.gpu[0] == LOADING_GPU && s.cpu[0] == OK_CPU;
    assert Passes(LoadingOnly, s.gpu[0], 0) && Passes(OkOnly, s.cpu[0], 0);
    PickTierIsLeast(s.gpu, 0, [1]);
  }

  function RequestLog(plan: Plan, cfg: RetryConfig, delay: Time, first: Script, second: Script): seq<Tagged> {
    match plan
    case NoTarget => []
    case Direct(_) => RaceLog(Timeline(cfg, first, 0), [])
    case Hedged(_, _) => RaceLog(Timeline(cfg, first, 0), Timeline(cfg, second, delay))
  }

  predicate Gave(es: seq<Event>) {
    es != [] && LastOf(es).Exhausted?
  }

  /**
   * What the caller gets, read off the calls made: the response that ended the race; else, once every
   * target was given up, the first target's failure when the last one was; else nothing yet.
   */
  function ReplyOf(log: seq<Tagged>): Finish {
    var g, h := OfSide(log, Primary), OfSide(log, Hedge);
    if log == [] then Finish(NoUpstreamAvailable, 0, Primary)
    else
      var last := log[|log| - 1];
      if last.event.Delivered? then Finish(Answered(last.event.outcome), last.event.at, last.side)
      else if Gave(g) && (h == [] || Gave(h)) then Finish(Answered(LastOf(g).outcome), last.event.at, Primary)
      else Never
  }

  /** A race nobody won ends with the later of the two ends. */
  lemma {:induction false} NobodyEndsLast(gpu: seq<Event>, hedge: seq<Event>)
    requires LegShaped(gpu) && LegShaped(hedge) && !EndsDelivered(gpu) && !EndsDelivered(hedge)
    requires gpu != [] || hedge != []
    ensures var log := RaceLog(gpu, hedge);
            && log != [] && !log[|log| - 1].event.Delivered?
            && log[|log| - 1].event.at ==
               Max(if gpu == [] then 0 else LastOf(gpu).at, if hedge == [] then 0 else LastOf(hedge).at)
    decreases |gpu| + |hedge|
  {
    if hedge == [] || (gpu != [] && gpu[0].at <= hedge[0].at) {
      HeadBeforeLast(gpu);
      if |gpu| > 1 || hedge != [] {
        NobodyEndsLast(gpu[1..], hedge);
      }
      if hedge != [] {
        HeadBeforeLast(hedge);
      }
    } else {
      HeadBeforeLast(hedge);
      if |hedge| > 1 || gpu != [] {
        NobodyEndsLast(gpu, hedge[1..]);
      }
      if gpu != [] {
        HeadBeforeLast(gpu);
      }
    }
  }

  lemma WinnerReply(log: seq<Tagged>, side: Side, mine: seq<Event>, other: seq<Event>)
    requires WonBy(log, side, mine, other) && EndsDelivered(mine)
    ensures ReplyOf(log) == Finish(Answered(LastOf(mine).outcome), LastOf(mine).at, side)
  {
  }

  lemma LoserReply(log: seq<Tagged>, gpu: seq<Event>, hedge: seq<Event>)
    requires WonByNobody(log, gpu, hedge) && gpu != [] && log != [] && !log[|log| - 1].event.Delivered?
    ensures ReplyOf(log) ==
            if Gave(gpu) && (hedge == [] || Gave(hedge))
            then Finish(Answered(LastOf(gpu).outcome), log[|log| - 1].event.at, Primary) else Never
  {
  }

  lemma ReplyIsVerdict(gpu: seq<Event>, hedge: seq<Event>)
    requires LegShaped(gpu) && LegShaped(hedge) && Honest(gpu) && Honest(hedge) && gpu != [] && hedge != []
    ensures ReplyOf(RaceLog(gpu, hedge)) == RaceSpec(LegOf(gpu), LegOf(hedge))
  {
    var log := RaceLog(gpu, hedge);
    VerdictFromEnds(gpu, hedge);
    if PrimaryFirst(gpu, hedge) {
      PrimaryDelivers(gpu, hedge);
      WinnerReply(log, Primary, gpu, hedge);
    } else if EndsDelivered(hedge) {
      HedgeDelivers(gpu, hedge);
      WinnerReply(log, Hedge, hedge, gpu);
    } else {
      NobodyDelivers(gpu, hedge);
      NobodyEndsLast(gpu, hedge);
      LoserReply(log, gpu, hedge);
    }
  }

  lemma ReplyIsOwn(gpu: seq<Event>)
    requires LegShaped(gpu) && gpu != []
    ensures ReplyOf(RaceLog(gpu, [])) ==
            match LegOf(gpu) { case Pending => Never case Completes(o, at) => Finish(Answered(o), at, Primary) }
  {
    var log := RaceLog(gpu, []);
    if EndsDelivered(gpu) {
      PrimaryDelivers(gpu, []);
      WinnerReply(log, Primary, gpu, []);
    } else {
      NobodyDelivers(gpu, []);
      NobodyEndsLast(gpu, []);
      LoserReply(log, gpu, []);
    }
  }

  /** `first` scripts the primary or only target, `second` the hedge. */
  method HedgedRace(s: PoolSnapshot, gpuNow: Time, cpuNow: Time, exclusionNow: Time,
                    cfg: RetryConfig, delay: Time, first: Script, second: Script) returns (finish: Finish)
    ensures finish == ReplyOf(RequestLog(PlanOf(s, gpuNow, cpuNow, exclusionNow), cfg, delay, first, second))
    ensures finish.Finish? && finish.reply == NoUpstreamAvailable <==>
            NoneRoutable(s.gpu, gpuNow) && NoneRoutable(s.cpu, cpuNow)
    ensures PlanOf(s, gpuNow, cpuNow, exclusionNow).Hedged? ==>
              finish == RaceSpec(LegOf(Timeline(cfg, first, 0)), LegOf(Timeline(cfg, second, delay)))
    ensures PlanOf(s, gpuNow, cpuNow, exclusionNow).Direct? ==>
              var es := Timeline(cfg, first, 0);
              finish == if LastOf(es).Completes() then Finish(Answered(LastOf(es).outcome), LastOf(es).at, Primary)
                        else Never
  {
    NothingRoutable(s, gpuNow);
    NothingRoutable(s, cpuNow);
    match PlanOf(s, gpuNow, cpuNow, exclusionNow)
    case NoTarget =>
      finish := Finish(NoUpstreamAvailable, 0, Primary);
    case Direct(_) =>
      TimelineIsHonest(cfg, first, 0);
      TimelineOrdered(cfg, first, 0);
      ReplyIsOwn(Timeline(cfg, first, 0));
      match LegOf(Timeline(cfg, first, 0)) {
        case Pending => finish := Never;
        case Completes(o, at) => finish := Finish(Answered(o), at, Primary);
      }
    case Hedged(_, _) =>
      TimelineIsHonest(cfg, first, 0);
      TimelineIsHonest(cfg, second, delay);
      TimelineOrdered(cfg, first, 0);
      TimelineOrdered(cfg, second, delay);
      ReplyIsVerdict(Timeline(cfg, first, 0), Timeline(cfg, second, delay));
      var rounds;
      finish, rounds := SelectWinner(LegOf(Timeline(cfg, first, 0)), LegOf(Timeline(cfg, second, delay)));
  }

  /**
   * Whom a request calls and when: the first target from the start; the hedge, if there is one, not before the
   * hedge delay, at that instant first, and not at all exactly if the first target has delivered by then.
   */
  lemma HedgeWaits(plan: Plan, cfg: RetryConfig, delay: Time, first: Script, second: Script)
    ensures var log := RequestLog(plan, cfg, delay, first, second);
            var g, h := OfSide(log, Primary), OfSide(log, Hedge);
            && (plan.NoTarget? ==> log == [])
            && (plan.Direct? ==> g == Timeline(cfg, first, 0) && h == [])
            && (plan.Hedged? ==>
                  && g <= Timeline(cfg, first, 0) && h <= Timeline(cfg, second, delay)
                  && g != [] && g[0] == Called(0, 0)
                  && (h == [] <==>
                        EndsDelivered(Timeline(cfg, first, 0)) && LastOf(Timeline(cfg, first, 0)).at <= delay)
                  && (h != [] ==> h[0] == Called(0, delay) && forall i :: 0 <= i < |h| ==> h[i].at >= delay))
  {
    var gpu, hedge := Timeline(cfg, first, 0), Timeline(cfg, second, delay);
    TimelineIsHonest(cfg, first, 0);
    TimelineIsHonest(cfg, second, delay);
    TimelineOrdered(cfg, first, 0);
    TimelineOrdered(cfg, second, delay);
    match plan
    case NoTarget =>
    case Direct(_) =>
      DirectLog(gpu);
    case Hedged(_, _) =>
      SidesArePrefixes(gpu, hedge);
      PrimaryCalled(gpu, hedge);
      HedgeCalledExactly(gpu, hedge);
  }

  lemma DirectLog(gpu: seq<Event>)
    requires LegShaped(gpu)
    ensures OfSide(RaceLog(gpu, []), Primary) == gpu && OfSide(RaceLog(gpu, []), Hedge) == []
  {
    RaceLogExact(gpu, []);
  }

  lemma PrimaryCalled(gpu: seq<Event>, hedge: seq<Event>)
    requires gpu != [] && (hedge == [] || gpu[0].at <= hedge[0].at)
    ensures OfSide(RaceLog(gpu, hedge), Primary) != []
  {
    SideStep(Primary, gpu[0], if gpu[0].Delivered? then [] else RaceLog(gpu[1..], hedge));
    assert [Tagged(Primary, gpu[0])] == [Tagged(Primary, gpu[0])] + [];
  }

  lemma HedgeCalledExactly(gpu: seq<Event>, hedge: seq<Event>)
    requires LegShaped(gpu) && LegShaped(hedge) && hedge != []
    ensures OfSide(RaceLog(gpu, hedge), Hedge) == [] <==> EndsDelivered(gpu) && LastOf(gpu).at <= hedge[0].at
  {
    HeadBeforeLast(hedge);
    RaceLogExact(gpu, hedge);
    if EndsDelivered(gpu) && LastOf(gpu).at <= hedge[0].at {
      HedgeStaysQuiet(gpu, hedge);
    }
  }

  lemma {:induction false} LogCalls(log: seq<Tagged>)
    ensures |OfSide(log, Primary)| + |OfSide(log, Hedge)| == |log|
  {
    if log != [] {
      LogCalls(log[1..]);
    }
  }

  /** No request makes more than 2 * (1 + R) upstream calls, which is 42 for an accepted configuration. */
  lemma CallBudget(plan: Plan, cfg: RetryConfig, delay: Time, first: Script, second: Script)
    ensures var log := RequestLog(plan, cfg, delay, first, second);
            && |OfSide(log, Primary)| + |OfSide(log, Hedge)| == |log|
            && Calls(OfSide(log, Primary)) + Calls(OfSide(log, Hedge)) <= 2 * (1 + cfg.maxRetries)
            && (Validated(cfg) ==> Calls(OfSide(log, Primary)) + Calls(OfSide(log, Hedge)) <= 42)
  {
    LogCalls(RequestLog(plan, cfg, delay, first, second));
    match plan
    case NoTarget =>
    case Direct(_) =>
      TimelineIsHonest(cfg, first, 0);
      SidesArePrefixes(Timeline(cfg, first, 0), []);
      LegAccounting(cfg, first, 0, OfSide(RaceLog(Timeline(cfg, first, 0), []), Primary));
    case Hedged(_, _) =>
      RaceAccounting(cfg, delay, first, second);
  }
}
