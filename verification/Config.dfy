/** Numeric validation of the environment, and the retry settings it supplies. */
module Config {
  import opened Snapshot
  import opened Discovery

  const U64_MAX: nat := 0xffff_ffff_ffff_ffff
  const U32_MAX: nat := 0xffff_ffff
  const MILLISECOND: Time := 1_000_000
  const MAX_RETRY_COUNT: nat := 20

  /** What a variable holds; a number too large for 64 bits does not parse. */
  datatype Setting = Absent | Malformed | Number(value: nat)

  datatype Variable =
    | DnsRefresh | HealthPoll | Heartbeat | FallbackBudget | HedgeDelay
    | ControlTimeout | RetryCount | InitialBackoff | MaxBackoff | Cooldown

  type Environment = Variable -> Setting

  datatype Result<+T> = Success(value: T) | Failure(variable: Variable) {
    predicate IsFailure() {
      Failure?
    }

    function PropagateFailure<U>(): Result<U>
      requires Failure?
    {
      Failure(variable)
    }

    function Extract(): T
      requires Success?
    {
      value
    }
  }

  datatype Settings = Settings(
    dnsRefresh: Time,
    healthPoll: Time,
    heartbeat: Time,
    hedgeDelay: Time,
    controlTimeout: Time,
    retryCount: nat,
    initialBackoff: Time,
    maxBackoff: Time,
    cooldown: Time)

  datatype RetryConfig = RetryConfig(maxRetries: nat, initialBackoff: Time, maxBackoff: Time, cooldown: Time)

  predicate Parses(s: Setting) {
    s.Absent? || (s.Number? && s.value <= U64_MAX)
  }

  function ParseOptional(env: Environment, variable: Variable): Result<Option<nat>> {
    match env(variable)
    case Absent => Success(None)
    case Malformed => Failure(variable)
    case Number(n) => if n <= U64_MAX then Success(Some(n)) else Failure(variable)
  }

  function Parse(env: Environment, variable: Variable, default: nat): Result<nat> {
    var parsed :- ParseOptional(env, variable);
    Success(if parsed.Some? then parsed.value else default)
  }

  function Check(holds: bool, variable: Variable): Result<()> {
    if holds then Success(()) else Failure(variable)
  }

  datatype Timers = Timers(dnsRefresh: nat, healthPoll: nat, heartbeat: nat)

  function ParseTimers(env: Environment): Result<Timers> {
    var dnsRefresh :- Parse(env, DnsRefresh, 30);
    var healthPoll :- Parse(env, HealthPoll, 5);
    var heartbeat :- Parse(env, Heartbeat, 60);
    Success(Timers(dnsRefresh, healthPoll, heartbeat))
  }

  /** An explicit hedge delay wins over the deprecated budget, which wins over the default. */
  function ParseHedgeDelay(env: Environment): Result<nat> {
    var legacy :- ParseOptional(env, FallbackBudget);
    var hedge :- ParseOptional(env, HedgeDelay);
    var delay := if hedge.Some? then hedge.value else if legacy.Some? then legacy.value else 5_000;
    var _ :- Check(delay != 0, HedgeDelay);
    Success(delay)
  }

  function ParseRetryCount(env: Environment): Result<nat> {
    var retryCount :- Parse(env, RetryCount, 3);
    var _ :- Check(retryCount <= U32_MAX, RetryCount);
    var _ :- Check(retryCount <= MAX_RETRY_COUNT, RetryCount);
    Success(retryCount)
  }

  function ParseBackoffs(env: Environment): Result<(nat, nat)> {
    var initialBackoff :- Parse(env, InitialBackoff, 100);
    var _ :- Check(initialBackoff != 0, InitialBackoff);
    var maxBackoff :- Parse(env, MaxBackoff, 1_000);
    var _ :- Check(maxBackoff >= initialBackoff, MaxBackoff);
    Success((initialBackoff, maxBackoff))
  }

  /** Checks run in this order; the first that fails names its variable. */
  function FromLookup(env: Environment): Result<Settings> {
    var timers :- ParseTimers(env);
    var hedgeDelay :- ParseHedgeDelay(env);
    var controlTimeout :- Parse(env, ControlTimeout, 1_000);
    var _ :- Check(controlTimeout != 0, ControlTimeout);
    var retryCount :- ParseRetryCount(env);
    var backoffs :- ParseBackoffs(env);
    var cooldown :- Parse(env, Cooldown, 30);
    Success(Settings(
      timers.dnsRefresh * SECOND, timers.healthPoll * SECOND, timers.heartbeat * SECOND,
      hedgeDelay * MILLISECOND, controlTimeout * MILLISECOND, retryCount,
      backoffs.0 * MILLISECOND, backoffs.1 * MILLISECOND, cooldown * SECOND))
  }

  function RetryConfigOf(s: Settings): RetryConfig {
    RetryConfig(s.retryCount, s.initialBackoff, s.maxBackoff, s.cooldown)
  }

  /** The arithmetic facts the request engine relies on. */
  predicate Validated(cfg: RetryConfig) {
    && cfg.maxRetries <= MAX_RETRY_COUNT
    && 0 < cfg.initialBackoff <= cfg.maxBackoff <= U64_MAX * MILLISECOND
  }

  function ValueOr(s: Setting, default: nat): nat {
    if s.Number? then s.value else default
  }

  /** What an operator may set, stated on the variables themselves. */
  ghost predicate Acceptable(env: Environment) {
    && (forall v: Variable :: Parses(env(v)))
    && ValueOr(env(HedgeDelay), ValueOr(env(FallbackBudget), 5_000)) > 0
    && ValueOr(env(ControlTimeout), 1_000) > 0
    && ValueOr(env(RetryCount), 3) <= MAX_RETRY_COUNT
    && 0 < ValueOr(env(InitialBackoff), 100) <= ValueOr(env(MaxBackoff), 1_000)
  }

  lemma AcceptableParts(env: Environment)
    requires Acceptable(env)
    ensures ParseTimers(env).Success? && ParseHedgeDelay(env).Success?
    ensures ParseRetryCount(env).Success? && ParseBackoffs(env).Success?
  {
    assert Parses(env(DnsRefresh)) && Parses(env(HealthPoll)) && Parses(env(Heartbeat));
    assert Parses(env(FallbackBudget)) && Parses(env(HedgeDelay));
    assert Parses(env(RetryCount)) && Parses(env(InitialBackoff)) && Parses(env(MaxBackoff));
  }

  lemma AcceptableParses(env: Environment)
    requires Acceptable(env)
    ensures FromLookup(env).Success?
  {
    AcceptableParts(env);
    assert Parses(env(ControlTimeout)) && Parses(env(Cooldown));
  }

  lemma AcceptedParses(env: Environment, v: Variable)
    requires FromLookup(env).Success?
    ensures Parses(env(v))
  {
    match v
    case DnsRefresh => case HealthPoll => case Heartbeat => case FallbackBudget => case HedgeDelay =>
    case ControlTimeout => case RetryCount => case InitialBackoff => case MaxBackoff => case Cooldown =>
  }

  lemma AcceptedInRange(env: Environment)
    requires FromLookup(env).Success?
    ensures var s := FromLookup(env).value;
            && Validated(RetryConfigOf(s))
            && s.hedgeDelay == ValueOr(env(HedgeDelay), ValueOr(env(FallbackBudget), 5_000)) * MILLISECOND > 0
            && s.controlTimeout == ValueOr(env(ControlTimeout), 1_000) * MILLISECOND > 0
            && s.retryCount == ValueOr(env(RetryCount), 3)
            && s.initialBackoff == ValueOr(env(InitialBackoff), 100) * MILLISECOND
            && s.maxBackoff == ValueOr(env(MaxBackoff), 1_000) * MILLISECOND
            && s.dnsRefresh == ValueOr(env(DnsRefresh), 30) * SECOND <= DURATION_MAX
            && s.healthPoll == ValueOr(env(HealthPoll), 5) * SECOND <= DURATION_MAX
            && s.heartbeat == ValueOr(env(Heartbeat), 60) * SECOND <= DURATION_MAX
            && s.cooldown == ValueOr(env(Cooldown), 30) * SECOND <= DURATION_MAX
            && RetryConfigOf(s) == RetryConfig(
                 ValueOr(env(RetryCount), 3),
                 ValueOr(env(InitialBackoff), 100) * 1_000_000,
                 ValueOr(env(MaxBackoff), 1_000) * 1_000_000,
                 ValueOr(env(Cooldown), 30) * 1_000_000_000)
  {
  }

  /** The environment is accepted exactly when it is acceptable, and then the settings are in range. */
  lemma AcceptedExactly(env: Environment)
    ensures FromLookup(env).Success? <==> Acceptable(env)
    ensures FromLookup(env).Success? ==>
              var s := FromLookup(env).value;
              && Validated(RetryConfigOf(s))
              && s.hedgeDelay > 0 && s.controlTimeout > 0
              && s.dnsRefresh <= DURATION_MAX && s.cooldown <= DURATION_MAX
  {
    if FromLookup(env).Success? {
      AcceptedInRange(env);
      forall v: Variable
        ensures Parses(env(v))
      {
        AcceptedParses(env, v);
      }
    }
    if Acceptable(env) {
      AcceptableParses(env);
    }
  }

  /** What is wrong with one variable, given the others. */
  predicate Offends(env: Environment, v: Variable) {
    || !Parses(env(v))
    || (v == HedgeDelay && ValueOr(env(HedgeDelay), ValueOr(env(FallbackBudget), 5_000)) == 0)
    || (v == ControlTimeout && ValueOr(env(ControlTimeout), 1_000) == 0)
    || (v == RetryCount && ValueOr(env(RetryCount), 3) > MAX_RETRY_COUNT)
    || (v == InitialBackoff && ValueOr(env(InitialBackoff), 100) == 0)
    || (v == MaxBackoff && ValueOr(env(MaxBackoff), 1_000) < ValueOr(env(InitialBackoff), 100))
  }

  /** The order in which the variables are read and checked. */
  function Rank(v: Variable): nat {
    match v
    case DnsRefresh => 0
    case HealthPoll => 1
    case Heartbeat => 2
    case FallbackBudget => 3
    case HedgeDelay => 4
    case ControlTimeout => 5
    case RetryCount => 6
    case InitialBackoff => 7
    case MaxBackoff => 8
    case Cooldown => 9
  }

  /** The variable is at fault, and of those among ranks `from` and later it is the first. */
  ghost predicate FirstCulprit(env: Environment, named: Variable, from: nat) {
    && from <= Rank(named) && Offends(env, named)
    && forall v: Variable :: from <= Rank(v) < Rank(named) ==> !Offends(env, v)
  }

  lemma TimersNameFirst(env: Environment)
    ensures ParseTimers(env).Failure? ==> FirstCulprit(env, ParseTimers(env).variable, 0)
    ensures ParseTimers(env).Success? ==> forall v: Variable :: Rank(v) < 3 ==> !Offends(env, v)
  {
  }

  lemma HedgeDelayNamesFirst(env: Environment)
    ensures ParseHedgeDelay(env).Failure? ==> FirstCulprit(env, ParseHedgeDelay(env).variable, 3)
    ensures ParseHedgeDelay(env).Success? ==> forall v: Variable :: 3 <= Rank(v) < 5 ==> !Offends(env, v)
  {
  }

  lemma RetriesNameFirst(env: Environment)
    ensures ParseRetryCount(env).Failure? ==> FirstCulprit(env, ParseRetryCount(env).variable, 6)
    ensures ParseRetryCount(env).Success? ==> !Offends(env, RetryCount)
    ensures ParseBackoffs(env).Failure? ==> FirstCulprit(env, ParseBackoffs(env).variable, 7)
    ensures ParseBackoffs(env).Success? ==> forall v: Variable :: 7 <= Rank(v) < 9 ==> !Offends(env, v)
  {
  }

  /** A rejection names the first variable, in the order they are read, that is at fault. */
  lemma RejectionNamesCulprit(env: Environment)
    requires FromLookup(env).Failure?
    ensures FirstCulprit(env, FromLookup(env).variable, 0)
  {
    TimersNameFirst(env);
    HedgeDelayNamesFirst(env);
    RetriesNameFirst(env);
  }

  const LARGEST: nat := 18_446_744_073_709_551_615

  /** A number that does not fit 64 bits, or more than 20 retries, is never accepted. */
  lemma TooLargeIsRejected(env: Environment, v: Variable)
    requires env(v).Number?
    requires env(v).value > LARGEST || (v == RetryCount && env(v).value > 20)
    ensures FromLookup(env).Failure?
  {
    if FromLookup(env).Success? {
      AcceptedExactly(env);
    }
  }

  /** The largest value of every variable is accepted, 20 for the retries; zero retries and cooldown are too. */
  lemma LargestAreAccepted()
    ensures FromLookup(v => Number(if v == RetryCount then 20 else LARGEST)).Success?
    ensures FromLookup(v => Number(if v == RetryCount || v == Cooldown then 0 else 1)).Success?
  {
    AcceptedExactly(v => Number(if v == RetryCount then 20 else LARGEST));
    AcceptedExactly(v => Number(if v == RetryCount || v == Cooldown then 0 else 1));
  }
}
