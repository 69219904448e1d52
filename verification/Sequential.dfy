/** Sequential fallback of a control-plane request: up to two GPUs, then one CPU, each under a hard timeout. */
module Sequential {
  import opened Snapshot
  import opened Discovery
  import opened Config
  import opened Policy
  import opened Proxy
  import opened Retry
  import Race

  const MAX_GPU_ATTEMPTS: nat := 2

  // --- Trimmed backoffs ---

  /** The share of the timeout each call gets; a count beyond 32 bits would divide by one. */
  function PerAttemptBudget(cfg: RetryConfig, perUpstream: Time): Time {
    var attempts := cfg.maxRetries + 1;
    perUpstream / (if attempts <= U32_MAX then attempts else 1)
  }

  function Trimmed(cfg: RetryConfig, perUpstream: Time): RetryConfig {
    var half := PerAttemptBudget(cfg, perUpstream) / 2;
    cfg.(initialBackoff := Min(cfg.initialBackoff, half), maxBackoff := Min(cfg.maxBackoff, half))
  }

  lemma Share(n: nat, total: Time)
    ensures (n + 1) * (total / (n + 1)) <= total
  {
  }

  lemma ShareFits(n: nat, total: Time)
    requires total / (n + 1) > 0
    ensures var half := total / (n + 1) / 2;
            && n * half <= total / 2
            && (n + 1) * half + n * half < total
  {
    var share := total / (n + 1);
    Share(n, total);
    HalvesFit(n, share, share / 2, total);
  }

  lemma HalvesFit(n: nat, share: nat, half: nat, total: nat)
    requires share > 0 && half == share / 2 && (n + 1) * share <= total
    ensures n * half <= total / 2 && (n + 1) * half + n * half < total
  {
    OneMore(n, half);
    OneMore(n, share);
    ScaleHalf(n, share, half);
  }

  lemma ScaleHalf(n: nat, share: nat, half: nat)
    requires 2 * half <= share
    ensures 2 * (n * half) <= n * share
  {
    DoubleFactor(n, half);
    Scale(2 * half, share, n);
  }

  /**
   * With n retries, timeout T and B = T / (n + 1) > 0: trimming keeps the initial wait at most the cap,
   * all waits together take at most n * (B / 2), half the timeout at most, and if no call takes longer
   * than B / 2 the loop ends strictly before T; so if all fail it trips the upstream itself.
   */
  lemma BudgetArithmetic(cfg: RetryConfig, perUpstream: Time, script: Script)
    requires Validated(cfg) && PerAttemptBudget(cfg, perUpstream) > 0
    ensures var trimmed := Trimmed(cfg, perUpstream);
            var half := PerAttemptBudget(cfg, perUpstream) / 2;
            && trimmed.maxRetries == cfg.maxRetries && trimmed.cooldown == cfg.cooldown
            && trimmed.initialBackoff <= trimmed.maxBackoff
            && TotalBackoff(trimmed, cfg.maxRetries) <= cfg.maxRetries * half <= perUpstream / 2
            && WorstCase(trimmed, half) < perUpstream
            && (Prompt(trimmed, script, half) ==>
                  var es := Timeline(trimmed, script, 0);
                  && Within(es, perUpstream).Some? && Within(es, perUpstream).value.at < perUpstream
                  && (AllFail(cfg, script) ==> Within(es, perUpstream).value.Exhausted?))
  {
    var trimmed, n := Trimmed(cfg, perUpstream), cfg.maxRetries;
    var half := PerAttemptBudget(cfg, perUpstream) / 2;
    ShareFits(n, perUpstream);
    TotalBackoffBound(trimmed, n);
    assert n * trimmed.maxBackoff <= n * half by {
      Scale(trimmed.maxBackoff, half, n);
    }
    if Prompt(trimmed, script, half) {
      PromptFinishes(trimmed, script, half);
      RetryRefinement(trimmed, script, 0);
      assert AllFail(cfg, script) <==> AllFail(trimmed, script);
    }
  }

  // --- The fallback loop ---

  /** What one load of the shared pool shows, and the clock when a choice is made from it. */
  datatype View = View(snapshot: PoolSnapshot, now: Time)

  /**
   * A forwarding under a timeout: it ends with an outcome, the retry loop having tripped the upstream or
   * not, or the timeout drops it.
   */
  datatype Forwarding = Ended(outcome: Outcome, tripped: bool, at: Time) | CutOff

  function UnderTimeout(es: seq<Event>, budget: Time): Forwarding {
    match Within(es, budget)
    case Some(Delivered(o, at)) => Ended(o, false, at)
    case Some(Exhausted(o, at)) => Ended(o, true, at)
    case _ => CutOff
  }

  /** Everything the loop observes: the policy's choice at the k-th load, and how the k-th forwarding goes. */
  datatype Surroundings = Surroundings(
    gpuChoice: (nat, seq<Addr>) -> Option<Pick>,
    cpuChoice: nat -> Option<Pick>,
    gpuAttempt: nat -> Forwarding,
    cpuAttempt: nat -> Forwarding)

  /**
   * `world(k)` is what the k-th load shows, with any changes other tasks made meanwhile; `scripts(k)` is
   * how the k-th chosen upstream behaves. GPU forwardings run with trimmed backoffs, the CPU's does not.
   */
  function Observe(cfg: RetryConfig, perUpstream: Time, world: nat -> View, scripts: nat -> Script): Surroundings {
    Surroundings(
      (k: nat, tried: seq<Addr>) => PickGpuExcludingSet(world(k).snapshot, tried, world(k).now),
      (k: nat) => PickCpu(world(k).snapshot, world(k).now),
      (k: nat) => UnderTimeout(Timeline(Trimmed(cfg, perUpstream), scripts(k), 0), perUpstream),
      (k: nat) => UnderTimeout(Timeline(cfg, scripts(k), 0), perUpstream))
  }

  /** The loop returns what the upstream said: any response but a server error. */
  predicate Served(attempt: Forwarding) {
    attempt.Ended? && Race.IsWinner(attempt.outcome)
  }

  function Spent(attempt: Forwarding, perUpstream: Time): Time {
    if attempt.Ended? then attempt.at else perUpstream
  }

  /** The trip the retry loop issued itself, if it did. */
  function OwnTrip(tripped: bool, addr: Addr): seq<Addr> {
    if tripped then [addr] else []
  }

  /** `trips` lists the upstreams a trip was issued for, in order. */
  datatype FallbackRun = FallbackRun(
    reply: Reply,
    servedBy: Option<Pick>,
    tried: seq<Addr>,
    trips: seq<Addr>,
    elapsed: Time)

  /** A CPU that times out is not tripped and yields no upstream; otherwise its outcome stands, even a failure. */
  function AfterCpu(cpu: Pick, attempt: Forwarding, perUpstream: Time, run: FallbackRun): FallbackRun {
    match attempt
    case Ended(o, tripped, at) =>
      run.(reply := Answered(o), servedBy := Some(cpu), trips := run.trips + OwnTrip(tripped, cpu.addr),
           elapsed := run.elapsed + at)
    case CutOff => run.(elapsed := run.elapsed + perUpstream)
  }

  /** The loop between two GPUs: those tried, the trips issued, the time gone. */
  datatype Progress = Progress(tried: seq<Addr>, trips: seq<Addr>, elapsed: Time)

  const START := Progress([], [], 0)

  /** The request once no further GPU is tried; the GPU error, if any, is forgotten. */
  function FromCpu(env: Surroundings, perUpstream: Time, p: Progress): FallbackRun {
    var found := FallbackRun(NoUpstreamAvailable, None, p.tried, p.trips, p.elapsed);
    match env.cpuChoice(|p.tried| + 1)
    case None => found
    case Some(cpu) => AfterCpu(cpu, env.cpuAttempt(|p.tried|), perUpstream, found)
  }

  /** One GPU abandoned: after an outcome the trip is the retry loop's own, after a timeout it is issued here. */
  function Abandon(attempt: Forwarding, addr: Addr, perUpstream: Time, p: Progress): Progress {
    match attempt
    case Ended(_, tripped, at) => Progress(p.tried + [addr], p.trips + OwnTrip(tripped, addr), p.elapsed + at)
    case CutOff => Progress(p.tried + [addr], p.trips + [addr], p.elapsed + perUpstream)
  }

  /** The request from where the loop stands. */
  function FromGpus(env: Surroundings, perUpstream: Time, p: Progress): FallbackRun
    decreases MAX_GPU_ATTEMPTS - |p.tried|
  {
    var k := |p.tried|;
    var choice, attempt := env.gpuChoice(k, p.tried), env.gpuAttempt(k);
    if choice.None? || k >= MAX_GPU_ATTEMPTS then FromCpu(env, perUpstream, p)
    else if Served(attempt) then
      FallbackRun(Answered(attempt.outcome), choice, p.tried,
                  p.trips + OwnTrip(attempt.tripped, choice.value.addr), p.elapsed + attempt.at)
    else FromGpus(env, perUpstream, Abandon(attempt, choice.value.addr, perUpstream, p))
  }

  method SequentialTimeout(cfg: RetryConfig, perUpstream: Time, world: nat -> View, scripts: nat -> Script)
    returns (run: FallbackRun)
    ensures run == FromGpus(Observe(cfg, perUpstream, world, scripts), perUpstream, START)
    ensures Safe(Observe(cfg, perUpstream, world, scripts), perUpstream, run)
    ensures AsksInTurn(cfg, perUpstream, world, scripts, run)
  {
    SequentialSafety(cfg, perUpstream, world, scripts);
    RequestAsksInTurn(cfg, perUpstream, world, scripts);
    EmptyExclusionIsPickGpu(world(0).snapshot, world(0).now);
    var first := PickGpu(world(0).snapshot, world(0).now);
    run := FallbackLoop(Observe(cfg, perUpstream, world, scripts), perUpstream, first);
  }

  method FallbackLoop(env: Surroundings, perUpstream: Time, first: Option<Pick>) returns (run: FallbackRun)
    requires first == env.gpuChoice(0, [])
    ensures run == FromGpus(env, perUpstream, START)
  {
    var tried: seq<Addr>, trips: seq<Addr>, elapsed: Time := [], [], 0;
    var candidate := first;
    while candidate.Some?
      invariant candidate == env.gpuChoice(|tried|, tried)
      invariant FromGpus(env, perUpstream, Progress(tried, trips, elapsed)) == FromGpus(env, perUpstream, START)
      decreases MAX_GPU_ATTEMPTS - |tried|
    {
      if |tried| >= MAX_GPU_ATTEMPTS {
        break;
      }
      var addr := candidate.value.addr;
      ghost var before := Progress(tried, trips, elapsed);
      match env.gpuAttempt(|tried|) {
        case Ended(outcome, tripped, at) =>
          elapsed := elapsed + at;
          trips := trips + if tripped then [addr] else [];
          if Race.IsWinner(outcome) {
            return FallbackRun(Answered(outcome), candidate, tried, trips, elapsed);
          }
        case CutOff =>
          // The timeout dropped the retry loop before it could trip, so the trip is issued here.
          elapsed := elapsed + perUpstream;
          trips := trips + [addr];
      }
      tried := tried + [addr];
      assert Progress(tried, trips, elapsed) == Abandon(env.gpuAttempt(|before.tried|), addr, perUpstream, before);
      candidate := env.gpuChoice(|tried|, tried);
    }
    var cpu := env.cpuChoice(|tried| + 1);
    run := FallbackRun(NoUpstreamAvailable, None, tried, trips, elapsed);
    if cpu.Some? {
      run := ForwardCpuWithTimeout(cpu.value, env.cpuAttempt(|tried|), perUpstream, run);
    }
  }

  method ForwardCpuWithTimeout(cpu: Pick, attempt: Forwarding, perUpstream: Time, before: FallbackRun)
    returns (run: FallbackRun)
    ensures run == AfterCpu(cpu, attempt, perUpstream, before)
    ensures attempt.CutOff? ==>
              run.reply == before.reply && run.servedBy == before.servedBy && run.trips == before.trips
    ensures InTime(attempt, perUpstream) ==> before.elapsed <= run.elapsed <= before.elapsed + perUpstream
    ensures InTime(attempt, perUpstream) && attempt.Ended? ==>
              && run.reply == Answered(attempt.outcome) && run.servedBy == Some(cpu)
              && run.trips == before.trips + if Retryable(attempt.outcome) then [cpu.addr] else []
  {
    run := before;
    if attempt.Ended? {
      if attempt.tripped {
        run := run.(trips := run.trips + [cpu.addr]);
      }
      run := run.(reply := Answered(attempt.outcome), servedBy := Some(cpu), elapsed := run.elapsed + attempt.at);
    } else {
      run := run.(elapsed := run.elapsed + perUpstream);
    }
  }

  // --- What every such request keeps ---

  /** A forwarding that ends does so within the timeout, and tripped its upstream iff its outcome is a failure. */
  predicate InTime(attempt: Forwarding, perUpstream: Time) {
    attempt.Ended? ==> attempt.at <= perUpstream && (attempt.tripped <==> Retryable(attempt.outcome))
  }

  /** What the policy and the retry loop guarantee about anything that can be observed. */
  ghost predicate Sound(env: Surroundings, perUpstream: Time) {
    && (forall k: nat, tried: seq<Addr> :: env.gpuChoice(k, tried).Some? ==>
          && env.gpuChoice(k, tried).value.poolType == Gpu
          && env.gpuChoice(k, tried).value.addr !in tried)
    && (forall k: nat :: env.cpuChoice(k).Some? ==> env.cpuChoice(k).value.poolType == Cpu)
    && (forall k: nat :: InTime(env.gpuAttempt(k), perUpstream))
    && (forall k: nat :: InTime(env.cpuAttempt(k), perUpstream))
  }

  lemma ChoiceIsNew(s: PoolSnapshot, tried: seq<Addr>, now: Time)
    ensures PickGpuExcludingSet(s, tried, now).Some? ==>
              && PickGpuExcludingSet(s, tried, now).value.poolType == Gpu
              && PickGpuExcludingSet(s, tried, now).value.addr !in tried
  {
    PickTierIsLeast(s.gpu, now, tried);
  }

  lemma CpuIsCpu(s: PoolSnapshot, now: Time)
    ensures PickCpu(s, now).Some? ==> PickCpu(s, now).value.poolType == Cpu
  {
  }

  /**
   * A forwarding is cut off exactly when the call that decides it never answers or answers too late; else
   * it ends with that call's outcome, and has tripped the upstream exactly if all its calls failed.
   */
  lemma CutOffExactly(cfg: RetryConfig, script: Script, budget: Time)
    ensures var f, m := UnderTimeout(Timeline(cfg, script, 0), budget), FinalCall(cfg, script, 0);
            && (f.CutOff? <==> script(m).Hangs? || CallTime(cfg, script, 0, m) + script(m).took > budget)
            && (f.Ended? ==>
                  && script(m).Returns? && f.outcome == script(m).outcome
                  && f.at == CallTime(cfg, script, 0, m) + script(m).took <= budget
                  && (f.tripped <==> AllFail(cfg, script))
                  && (f.tripped <==> Retryable(f.outcome)))
  {
    RetryRefinement(cfg, script, 0);
    TimelineShape(cfg, script, 0);
  }

  lemma ObservationsAreSound(cfg: RetryConfig, perUpstream: Time, world: nat -> View, scripts: nat -> Script)
    ensures Sound(Observe(cfg, perUpstream, world, scripts), perUpstream)
  {
    var env := Observe(cfg, perUpstream, world, scripts);
    forall k: nat, tried: seq<Addr>
      ensures env.gpuChoice(k, tried).Some? ==>
                && env.gpuChoice(k, tried).value.poolType == Gpu
                && env.gpuChoice(k, tried).value.addr !in tried
    {
      ChoiceIsNew(world(k).snapshot, tried, world(k).now);
    }
    forall k: nat
      ensures env.cpuChoice(k).Some? ==> env.cpuChoice(k).value.poolType == Cpu
    {
      CpuIsCpu(world(k).snapshot, world(k).now);
    }
    forall k: nat
      ensures InTime(env.gpuAttempt(k), perUpstream) && InTime(env.cpuAttempt(k), perUpstream)
    {
      CutOffExactly(Trimmed(cfg, perUpstream), scripts(k), perUpstream);
      CutOffExactly(cfg, scripts(k), perUpstream);
    }
  }

  /** At most two GPUs tried: pairwise distinct, each the policy's choice at its moment, and all abandoned. */
  ghost predicate Abandoned(env: Surroundings, tried: seq<Addr>) {
    && |tried| <= MAX_GPU_ATTEMPTS && Distinct(tried)
    && forall i: nat :: i < |tried| ==>
         env.gpuChoice(i, tried[..i]) == Some(Pick(tried[i], Gpu)) && !Served(env.gpuAttempt(i))
  }

  /** How the request may end: on the next GPU choice, on the CPU choice, or with no upstream. */
  ghost predicate EndsProperly(env: Surroundings, run: FallbackRun) {
    var k := |run.tried|;
    match run.servedBy
    case Some(Pick(addr, Gpu)) =>
      && k < MAX_GPU_ATTEMPTS && env.gpuChoice(k, run.tried) == run.servedBy
      && env.gpuAttempt(k).Ended?
      && run.reply == Answered(env.gpuAttempt(k).outcome)
      && Race.IsWinner(run.reply.outcome)
      && run.trips == run.tried
    case Some(Pick(addr, Cpu)) =>
      && env.cpuChoice(k + 1) == run.servedBy
      && env.cpuAttempt(k).Ended?
      && run.reply == Answered(env.cpuAttempt(k).outcome)
      && run.trips == run.tried + (if Retryable(run.reply.outcome) then [addr] else [])
    case None =>
      && (env.cpuChoice(k + 1).None? || env.cpuAttempt(k).CutOff?)
      && run.reply == NoUpstreamAvailable
      && run.trips == run.tried
  }

  /** A CPU is asked only after two GPUs, or when no other GPU is eligible. */
  ghost predicate CpuIsLast(env: Surroundings, run: FallbackRun) {
    || (run.servedBy.Some? && run.servedBy.value.poolType == Gpu)
    || |run.tried| == MAX_GPU_ATTEMPTS
    || env.gpuChoice(|run.tried|, run.tried).None?
  }

  /** The loop goes on with one more abandoned GPU. */
  predicate GoesOn(env: Surroundings, tried: seq<Addr>) {
    |tried| < MAX_GPU_ATTEMPTS && env.gpuChoice(|tried|, tried).Some? && !Served(env.gpuAttempt(|tried|))
  }

  /** What the first n GPUs cost. */
  function SpentOnGpus(env: Surroundings, perUpstream: Time, n: nat): Time {
    if n == 0 then 0 else SpentOnGpus(env, perUpstream, n - 1) + Spent(env.gpuAttempt(n - 1), perUpstream)
  }

  /** The loop once it has abandoned `tried`, every one of them tripped once. */
  function AllTripped(env: Surroundings, perUpstream: Time, tried: seq<Addr>): Progress {
    Progress(tried, tried, SpentOnGpus(env, perUpstream, |tried|))
  }

  /** A GPU is abandoned with exactly one trip: the retry loop's own if its outcome is a failure, else ours. */
  lemma AbandonTripsOnce(env: Surroundings, perUpstream: Time, tried: seq<Addr>, addr: Addr)
    requires InTime(env.gpuAttempt(|tried|), perUpstream) && !Served(env.gpuAttempt(|tried|))
    ensures Abandon(env.gpuAttempt(|tried|), addr, perUpstream, AllTripped(env, perUpstream, tried)) ==
            AllTripped(env, perUpstream, tried + [addr])
  {
  }

  lemma NextGpu(env: Surroundings, perUpstream: Time, tried: seq<Addr>, addr: Addr)
    requires Sound(env, perUpstream) && GoesOn(env, tried) && addr == env.gpuChoice(|tried|, tried).value.addr
    ensures FromGpus(env, perUpstream, AllTripped(env, perUpstream, tried)) ==
            FromGpus(env, perUpstream, AllTripped(env, perUpstream, tried + [addr]))
  {
    assert InTime(env.gpuAttempt(|tried|), perUpstream);
    AbandonTripsOnce(env, perUpstream, tried, addr);
  }

  lemma OneMoreAbandoned(env: Surroundings, perUpstream: Time, tried: seq<Addr>, addr: Addr)
    requires Sound(env, perUpstream) && Abandoned(env, tried) && GoesOn(env, tried)
    requires addr == env.gpuChoice(|tried|, tried).value.addr
    ensures Abandoned(env, tried + [addr])
  {
    var more := tried + [addr];
    assert addr !in tried;
    forall i: nat | i < |more|
      ensures env.gpuChoice(i, more[..i]) == Some(Pick(more[i], Gpu)) && !Served(env.gpuAttempt(i))
    {
      assert more[..i] == tried[..i];
      assert tried[..|tried|] == tried;
    }
  }

  /** The GPUs the loop has abandoned when it stops. */
  lemma {:induction false} LoopStops(env: Surroundings, perUpstream: Time, tried: seq<Addr>) returns (all: seq<Addr>)
    requires Sound(env, perUpstream) && Abandoned(env, tried)
    ensures FromGpus(env, perUpstream, AllTripped(env, perUpstream, tried)) ==
            FromGpus(env, perUpstream, AllTripped(env, perUpstream, all))
    ensures Abandoned(env, all) && !GoesOn(env, all)
    decreases MAX_GPU_ATTEMPTS - |tried|
  {
    if GoesOn(env, tried) {
      var addr := env.gpuChoice(|tried|, tried).value.addr;
      NextGpu(env, perUpstream, tried, addr);
      OneMoreAbandoned(env, perUpstream, tried, addr);
      all := LoopStops(env, perUpstream, tried + [addr]);
    } else {
      all := tried;
    }
  }

  /** Where the loop stops, the request ends as it should. */
  lemma StopsProperly(env: Surroundings, perUpstream: Time, tried: seq<Addr>)
    requires Sound(env, perUpstream) && |tried| <= MAX_GPU_ATTEMPTS && !GoesOn(env, tried)
    ensures var run := FromGpus(env, perUpstream, AllTripped(env, perUpstream, tried));
            run.tried == tried && EndsProperly(env, run) && CpuIsLast(env, run)
  {
    assert InTime(env.cpuAttempt(|tried|), perUpstream);
    assert InTime(env.gpuAttempt(|tried|), perUpstream);
  }

  /** What the upstream asked last cost, if one was. */
  function SpentLast(env: Surroundings, perUpstream: Time, run: FallbackRun): Time {
    var k := |run.tried|;
    if run.servedBy.Some? && run.servedBy.value.poolType == Gpu then Spent(env.gpuAttempt(k), perUpstream)
    else if env.cpuChoice(k + 1).Some? then Spent(env.cpuAttempt(k), perUpstream)
    else 0
  }

  lemma StopCosts(env: Surroundings, perUpstream: Time, tried: seq<Addr>)
    requires Sound(env, perUpstream) && !GoesOn(env, tried)
    ensures var run := FromGpus(env, perUpstream, AllTripped(env, perUpstream, tried));
            && run.tried == tried
            && run.elapsed == SpentOnGpus(env, perUpstream, |tried|) + SpentLast(env, perUpstream, run)
  {
    assert InTime(env.cpuAttempt(|tried|), perUpstream);
  }

  /** The elapsed time is exactly what the upstreams asked took, a timeout for each that did not answer. */
  lemma ElapsedExactly(env: Surroundings, perUpstream: Time)
    requires Sound(env, perUpstream)
    ensures var run := FromGpus(env, perUpstream, START);
            run.elapsed == SpentOnGpus(env, perUpstream, |run.tried|) + SpentLast(env, perUpstream, run)
  {
    var all := LoopStops(env, perUpstream, []);
    StopCosts(env, perUpstream, all);
    assert AllTripped(env, perUpstream, []) == START;
  }

  lemma {:induction false} GpusCostAtMost(env: Surroundings, perUpstream: Time, n: nat)
    requires Sound(env, perUpstream)
    ensures SpentOnGpus(env, perUpstream, n) <= n * perUpstream
  {
    if n > 0 {
      GpusCostAtMost(env, perUpstream, n - 1);
      assert InTime(env.gpuAttempt(n - 1), perUpstream);
      OneMore(n - 1, perUpstream);
    }
  }

  /** At most two abandoned GPUs, a proper end and its trips, three timeouts at most. */
  ghost predicate Safe(env: Surroundings, perUpstream: Time, run: FallbackRun) {
    && Abandoned(env, run.tried)
    && EndsProperly(env, run) && CpuIsLast(env, run)
    && run.elapsed <= 3 * perUpstream
  }

  lemma SoundIsSafe(env: Surroundings, perUpstream: Time)
    requires Sound(env, perUpstream)
    ensures Safe(env, perUpstream, FromGpus(env, perUpstream, START))
  {
    assert AllTripped(env, perUpstream, []) == START;
    var all := LoopStops(env, perUpstream, []);
    StopsProperly(env, perUpstream, all);
    ThreeTimeouts(env, perUpstream, all);
  }

  lemma ThreeTimeouts(env: Surroundings, perUpstream: Time, tried: seq<Addr>)
    requires Sound(env, perUpstream) && |tried| <= MAX_GPU_ATTEMPTS && !GoesOn(env, tried)
    ensures FromGpus(env, perUpstream, AllTripped(env, perUpstream, tried)).elapsed <= 3 * perUpstream
  {
    StopCosts(env, perUpstream, tried);
    GpusCostAtMost(env, perUpstream, |tried|);
    Scale(|tried|, MAX_GPU_ATTEMPTS, perUpstream);
    assert InTime(env.gpuAttempt(|tried|), perUpstream) && InTime(env.cpuAttempt(|tried|), perUpstream);
  }

  /**
   * Under any changes to the pool between steps: at most two GPUs are tried, pairwise distinct, each the
   * policy's choice at its moment; every one abandoned is tripped exactly once, by the retry loop or by
   * the timeout branch; a GPU reply is never a server error; the CPU comes last, and without one the
   * request ends with no upstream rather than the GPU's error; and it all takes at most three timeouts.
   */
  lemma SequentialSafety(cfg: RetryConfig, perUpstream: Time, world: nat -> View, scripts: nat -> Script)
    ensures var env := Observe(cfg, perUpstream, world, scripts);
            Safe(env, perUpstream, FromGpus(env, perUpstream, START))
  {
    ObservationsAreSound(cfg, perUpstream, world, scripts);
    SoundIsSafe(Observe(cfg, perUpstream, world, scripts), perUpstream);
  }

  /** How a GPU's forwarding under the timeout goes. */
  function GpuTurn(cfg: RetryConfig, perUpstream: Time, script: Script): Forwarding {
    UnderTimeout(Timeline(Trimmed(cfg, perUpstream), script, 0), perUpstream)
  }

  /** A status of 500 to 599, or no response. */
  predicate Fails(o: Outcome) {
    o.Response? ==> 500 <= o.status <= 599
  }

  /**
   * Whom the request asks, by the pools it sees: one GPU after another, each the best not yet tried at that
   * moment, until one serves it, two have been tried or none is left; then the best CPU at that moment.
   */
  ghost predicate AsksInTurn(cfg: RetryConfig, perUpstream: Time, world: nat -> View, scripts: nat -> Script,
                             run: FallbackRun)
  {
    var k := |run.tried|;
    && k <= 2
    && (forall i: nat :: i < k ==>
          && PickGpuExcludingSet(world(i).snapshot, run.tried[..i], world(i).now) == Some(Pick(run.tried[i], Gpu))
          && (GpuTurn(cfg, perUpstream, scripts(i)).Ended? ==> Fails(GpuTurn(cfg, perUpstream, scripts(i)).outcome)))
    && var gpu := if k == 2 then None else PickGpuExcludingSet(world(k).snapshot, run.tried, world(k).now);
       if gpu.Some? then
         var turn := GpuTurn(cfg, perUpstream, scripts(k));
         run.servedBy == gpu && turn.Ended? && !Fails(turn.outcome) && run.reply == Answered(turn.outcome)
       else
         var cpu := PickCpu(world(k + 1).snapshot, world(k + 1).now);
         var turn := UnderTimeout(Timeline(cfg, scripts(k), 0), perUpstream);
         if cpu.Some? && turn.Ended? then run.servedBy == cpu && run.reply == Answered(turn.outcome)
         else run.servedBy == None && run.reply == NoUpstreamAvailable
  }

  lemma SafeAsksInTurn(cfg: RetryConfig, perUpstream: Time, world: nat -> View, scripts: nat -> Script,
                       run: FallbackRun)
    requires Sound(Observe(cfg, perUpstream, world, scripts), perUpstream)
    requires Safe(Observe(cfg, perUpstream, world, scripts), perUpstream, run)
    ensures AsksInTurn(cfg, perUpstream, world, scripts, run)
  {
    var env := Observe(cfg, perUpstream, world, scripts);
    assert InTime(env.gpuAttempt(|run.tried|), perUpstream);
  }

  /** For every world and all scripts the request asks in turn. */
  lemma RequestAsksInTurn(cfg: RetryConfig, perUpstream: Time, world: nat -> View, scripts: nat -> Script)
    ensures AsksInTurn(cfg, perUpstream, world, scripts,
                       FromGpus(Observe(cfg, perUpstream, world, scripts), perUpstream, START))
  {
    ObservationsAreSound(cfg, perUpstream, world, scripts);
    SequentialSafety(cfg, perUpstream, world, scripts);
    SafeAsksInTurn(cfg, perUpstream, world, scripts,
                   FromGpus(Observe(cfg, perUpstream, world, scripts), perUpstream, START));
  }

  /**
   * A CPU's turn costs at most one timeout. Cut off, it leaves reply and trips as they were; else its
   * deciding call is the reply, and it is tripped exactly if all its calls failed.
   */
  lemma CpuTurn(cfg: RetryConfig, perUpstream: Time, cpu: Pick, script: Script, before: FallbackRun)
    ensures var m := FinalCall(cfg, script, 0);
            var run := AfterCpu(cpu, UnderTimeout(Timeline(cfg, script, 0), perUpstream), perUpstream, before);
            && run.tried == before.tried
            && before.elapsed <= run.elapsed <= before.elapsed + perUpstream
            && if script(m).Hangs? || CallTime(cfg, script, 0, m) + script(m).took > perUpstream then
                 && run.reply == before.reply && run.servedBy == before.servedBy && run.trips == before.trips
                 && run.elapsed == before.elapsed + perUpstream
               else
                 && run.elapsed == before.elapsed + CallTime(cfg, script, 0, m) + script(m).took
                 && run.reply == Answered(script(m).outcome) && run.servedBy == Some(cpu)
                 && run.trips == before.trips + if AllFail(cfg, script) then [cpu.addr] else []
  {
    CutOffExactly(cfg, script, perUpstream);
  }

  // --- Who is cut off ---

  lemma EndsExactly(cfg: RetryConfig, each: Time, budget: Time)
    ensures WorstCase(cfg, each) <= budget <==>
            forall script: Script :: Prompt(cfg, script, each) ==>
              UnderTimeout(Timeline(cfg, script, 0), budget).Ended?
  {
    BeatsTimeoutExactly(cfg, each, budget);
    forall script: Script
      ensures UnderTimeout(Timeline(cfg, script, 0), budget).Ended? <==> Within(Timeline(cfg, script, 0), budget).Some?
    {
    }
  }

  /**
   * The retry loop of a GPU, and so its trip, comes before the timeout whenever its calls take at most
   * `each`, exactly if the worst case of the trimmed loop fits the timeout; that of the CPU, whose waits
   * are not trimmed, exactly if its own worst case does.
   */
  lemma WhoIsCutOff(cfg: RetryConfig, perUpstream: Time, world: nat -> View, k: nat, each: Time)
    ensures WorstCase(Trimmed(cfg, perUpstream), each) <= perUpstream <==>
            forall script: Script :: Prompt(cfg, script, each) ==>
              Observe(cfg, perUpstream, world, (_: nat) => script).gpuAttempt(k).Ended?
    ensures WorstCase(cfg, each) <= perUpstream <==>
            forall script: Script :: Prompt(cfg, script, each) ==>
              Observe(cfg, perUpstream, world, (_: nat) => script).cpuAttempt(k).Ended?
  {
    EndsExactly(Trimmed(cfg, perUpstream), each, perUpstream);
    EndsExactly(cfg, each, perUpstream);
    forall script: Script
      ensures Prompt(Trimmed(cfg, perUpstream), script, each) <==> Prompt(cfg, script, each)
      ensures var env := Observe(cfg, perUpstream, world, (_: nat) => script);
              && env.gpuAttempt(k) == UnderTimeout(Timeline(Trimmed(cfg, perUpstream), script, 0), perUpstream)
              && env.cpuAttempt(k) == UnderTimeout(Timeline(cfg, script, 0), perUpstream)
    {
    }
  }

  /** In every accepted environment each call has a share, and a GPU whose calls take half of it is never cut off. */
  lemma AcceptedTimeout(env: Environment, world: nat -> View, scripts: nat -> Script, k: nat)
    requires FromLookup(env).Success?
    ensures var cfg, timeout := RetryConfigOf(FromLookup(env).value), FromLookup(env).value.controlTimeout;
            var half := PerAttemptBudget(cfg, timeout) / 2;
            && PerAttemptBudget(cfg, timeout) > 0
            && TotalBackoff(Trimmed(cfg, timeout), cfg.maxRetries) <= timeout / 2
            && (Prompt(cfg, scripts(k), half) ==> Observe(cfg, timeout, world, scripts).gpuAttempt(k).Ended?)
  {
    AcceptedInRange(env);
    var cfg, timeout := RetryConfigOf(FromLookup(env).value), FromLookup(env).value.controlTimeout;
    ShareIsPositive(cfg, timeout);
    BudgetArithmetic(cfg, timeout, scripts(k));
  }

  lemma ShareIsPositive(cfg: RetryConfig, timeout: Time)
    requires Validated(cfg) && timeout >= MILLISECOND
    ensures PerAttemptBudget(cfg, timeout) > 0
  {
    QuotientBound(1, timeout, cfg.maxRetries + 1);
  }

  /** The settings with no variable set. */
  const UNSET: Environment := _ => Absent
  const DEFAULTS := RetryConfig(3, 100 * MILLISECOND, 1_000 * MILLISECOND, 30 * SECOND)
  const DEFAULT_TIMEOUT: Time := 1_000 * MILLISECOND

  /** With the default settings the GPU's breaker beats the timeout for calls of up to 162.5 ms, and not beyond. */
  lemma DefaultThreshold(each: Time)
    ensures FromLookup(UNSET).Success? && RetryConfigOf(FromLookup(UNSET).value) == DEFAULTS
    ensures FromLookup(UNSET).value.controlTimeout == DEFAULT_TIMEOUT
    ensures WorstCase(Trimmed(DEFAULTS, DEFAULT_TIMEOUT), each) <= DEFAULT_TIMEOUT <==> each <= 162_500_000
  {
    var cfg := Trimmed(DEFAULTS, DEFAULT_TIMEOUT);
    assert cfg.initialBackoff == 100 * MILLISECOND && cfg.maxBackoff == 125 * MILLISECOND;
    assert BackoffAt(cfg, 1) == 125 * MILLISECOND && BackoffAt(cfg, 2) == 125 * MILLISECOND;
    assert TotalBackoff(cfg, 1) == 100 * MILLISECOND && TotalBackoff(cfg, 2) == 225 * MILLISECOND;
    assert TotalBackoff(cfg, 3) == 350 * MILLISECOND;
  }

  /** A GPU that never answers, and one whose every call fails after 200 ms. */
  const HUNG: Script := _ => Hangs
  const SLOW: Script := SlowFailures(200 * MILLISECOND)

  lemma {:induction false} SpentFirst(env: Surroundings, perUpstream: Time, n: nat)
    requires n > 0
    ensures SpentOnGpus(env, perUpstream, n) >= Spent(env.gpuAttempt(0), perUpstream)
  {
    if n > 1 {
      SpentFirst(env, perUpstream, n - 1);
    }
  }

  /**
   * With the default settings both are cut off before the retry loop can trip them, the second although
   * all its calls fail; the timeout branch then issues the trip.
   */
  lemma TimeoutPreemptsBreaker(world: nat -> View, script: Script)
    requires script == HUNG || script == SLOW
    requires PickGpu(world(0).snapshot, world(0).now).Some?
    ensures AllFail(DEFAULTS, SLOW)
    ensures var env := Observe(DEFAULTS, DEFAULT_TIMEOUT, world, _ => script);
            var run := FromGpus(env, DEFAULT_TIMEOUT, START);
            && env.gpuAttempt(0).CutOff?
            && run.tried != [] && run.trips != []
            && run.tried[0] == run.trips[0] == PickGpu(world(0).snapshot, world(0).now).value.addr
            && run.elapsed >= 1_000_000_000
  {
    var env := Observe(DEFAULTS, DEFAULT_TIMEOUT, world, _ => script);
    var cfg := Trimmed(DEFAULTS, DEFAULT_TIMEOUT);
    EmptyExclusionIsPickGpu(world(0).snapshot, world(0).now);
    CutOffExactly(cfg, script, DEFAULT_TIMEOUT);
    if script == SLOW {
      assert FinalCall(cfg, script, 0) == 3;
      SlowTook(200 * MILLISECOND, 3);
      DefaultThreshold(200 * MILLISECOND);
    }
    SequentialSafety(DEFAULTS, DEFAULT_TIMEOUT, world, _ => script);
    ObservationsAreSound(DEFAULTS, DEFAULT_TIMEOUT, world, _ => script);
    ElapsedExactly(env, DEFAULT_TIMEOUT);
    SpentFirst(env, DEFAULT_TIMEOUT, |FromGpus(env, DEFAULT_TIMEOUT, START).tried|);
  }

  /** A pool of one Ok GPU, and a GPU that answers 503 to every call. */
  const LONE_GPU := PoolSnapshot([Upstream(1, Gpu, Ok, 0, 1, 0, None)], [], 0)
  const LONE_WORLD: nat -> View := _ => View(LONE_GPU, 0)
  const FAILING: Script := _ => Returns(Response(503), 1)

  lemma LoneGpuChoices()
    ensures PickGpuExcludingSet(LONE_GPU, [], 0) == Some(Pick(1, Gpu))
    ensures PickGpuExcludingSet(LONE_GPU, [1], 0).None? && PickCpu(LONE_GPU, 0).None?
  {
    PickTierIsLeast(LONE_GPU.gpu, 0, []);
    PickTierIsLeast(LONE_GPU.gpu, 0, [1]);
    assert Open(LONE_GPU.gpu, 0, 0, []);
  }

  lemma FailingEnds()
    ensures var f := UnderTimeout(Timeline(Trimmed(DEFAULTS, DEFAULT_TIMEOUT), FAILING, 0), DEFAULT_TIMEOUT);
            f.Ended? && f.outcome == Response(503) && f.tripped
  {
    var cfg := Trimmed(DEFAULTS, DEFAULT_TIMEOUT);
    DefaultThreshold(1);
    assert Prompt(cfg, FAILING, 1);
    EndsExactly(cfg, 1, DEFAULT_TIMEOUT);
    CutOffExactly(cfg, FAILING, DEFAULT_TIMEOUT);
  }

  /** A request that finds one GPU, which fails, and then nobody. */
  lemma NobodyLeft(env: Surroundings, perUpstream: Time, addr: Addr)
    requires env.gpuChoice(0, []) == Some(Pick(addr, Gpu)) && env.gpuChoice(1, [addr]).None?
    requires env.gpuAttempt(0).Ended? && env.gpuAttempt(0).tripped && !Served(env.gpuAttempt(0))
    requires env.cpuChoice(2).None?
    ensures FromGpus(env, perUpstream, START) ==
            FallbackRun(NoUpstreamAvailable, None, [addr], [addr], env.gpuAttempt(0).at)
  {
    var p := Abandon(env.gpuAttempt(0), addr, perUpstream, START);
    assert p == Progress([addr], [addr], env.gpuAttempt(0).at);
    assert FromGpus(env, perUpstream, START) == FromGpus(env, perUpstream, p);
  }

  /**
   * With the default settings and no CPU, a GPU's last 503 is at hand when the request ends, and the caller
   * still gets no upstream.
   */
  lemma GpuErrorIsForgotten()
    ensures var env := Observe(DEFAULTS, DEFAULT_TIMEOUT, LONE_WORLD, _ => FAILING);
            var run := FromGpus(env, DEFAULT_TIMEOUT, START);
            && env.gpuAttempt(0).Ended? && env.gpuAttempt(0).outcome == Response(503)
            && run.tried == [1] && run.trips == [1]
            && run.reply == NoUpstreamAvailable
  {
    LoneGpuChoices();
    FailingEnds();
    NobodyLeft(Observe(DEFAULTS, DEFAULT_TIMEOUT, LONE_WORLD, _ => FAILING), DEFAULT_TIMEOUT, 1);
  }
}
