/** Forwarding to one upstream with retries, capped exponential backoff and a trip on exhaustion. */
module Proxy {
  import opened Snapshot
  import opened CircuitBreaker
  import opened Discovery
  import opened Config

  /** One upstream call: an HTTP response, or a transport error. */
  datatype Outcome = Response(status: nat) | TransportError(code: nat)

  datatype Reply = Answered(outcome: Outcome) | NoUpstreamAvailable

  predicate IsServerError(status: nat) {
    500 <= status < 600
  }

  predicate Retryable(o: Outcome) {
    match o
    case Response(status) => IsServerError(status)
    case TransportError(_) => true
  }

  /** How the k-th call behaves: it answers after some time, or never. */
  datatype Attempt = Returns(outcome: Outcome, took: Time) | Hangs

  type Script = nat -> Attempt

  /** `Exhausted` is the last failure together with the trip, which run in one step. */
  datatype Event =
    | Called(attempt: nat, at: Time)
    | Delivered(outcome: Outcome, at: Time)
    | Exhausted(outcome: Outcome, at: Time)
  {
    predicate Completes() {
      !Called?
    }
  }

  function NextBackoff(backoff: Time, max: Time): Time {
    Min(SaturatingDouble(backoff), max)
  }

  /** What a forwarding has done once it ends, from call k on, given what it had done before. */
  function Continue(cfg: RetryConfig, script: Script, k: nat, backoff: Time, t: Time, done: seq<Event>): seq<Event>
    requires k <= cfg.maxRetries
    decreases cfg.maxRetries - k
  {
    var called := done + [Called(k, t)];
    match script(k)
    case Hangs => called
    case Returns(o, took) =>
      if !Retryable(o) then called + [Delivered(o, t + took)]
      else if k == cfg.maxRetries then called + [Exhausted(o, t + took)]
      else Continue(cfg, script, k + 1, NextBackoff(backoff, cfg.maxBackoff), t + took + backoff, called)
  }

  /** Everything one forwarding does, in time order. */
  function Timeline(cfg: RetryConfig, script: Script, start: Time): seq<Event> {
    Continue(cfg, script, 0, cfg.initialBackoff, start, [])
  }

  /** The pool after what other tasks published during the first k waits. */
  function Drift(s: PoolSnapshot, during: nat -> Option<PoolSnapshot>, k: nat): PoolSnapshot {
    if k == 0 then s else Published(Drift(s, during, k - 1), during(k - 1))
  }

  /**
   * A trip with its early returns: `rivals` are the publications that made it lose a swap, and `last`
   * what the clock shows on the pass that succeeds.
   */
  function Tripped(s: PoolSnapshot, addr: Addr, cooldown: Time, now: Time,
                   rivals: seq<PoolSnapshot>, last: Readings): PoolSnapshot
  {
    if cooldown == 0 || AlreadyCooled(s, addr, now) then s
    else TripSnapshot(LastPublished(s, rivals), addr, now + cooldown, last)
  }

  /**
   * After such a trip the upstream is out of rotation: unless the early return found it cooling already, its
   * entry in any pool that lists it is cooling, until one window from now if it was not before.
   */
  lemma TrippedIsCooling(s: PoolSnapshot, addr: Addr, cooldown: Time, now: Time,
                         rivals: seq<PoolSnapshot>, last: Readings, t: PoolType)
    requires cooldown > 0 && last.For(t) < now + cooldown
    ensures var after := Tripped(s, addr, cooldown, now, rivals, last);
            if AlreadyCooled(s, addr, now) then after == s
            else
              var found := if rivals == [] then s.Pool(t) else rivals[|rivals| - 1].Pool(t);
              Has(found, addr) ==>
                && Has(after.Pool(t), addr)
                && var u := after.Pool(t)[FirstMatch(after.Pool(t), addr)];
                   && u.cooldownUntil.Some? && u.cooldownUntil.value > last.For(t)
                   && u.cooldownUntil == if found[FirstMatch(found, addr)].InCooldown(last.For(t))
                                         then found[FirstMatch(found, addr)].cooldownUntil
                                         else Some(now + cooldown)
  {
    var found := LastPublished(s, rivals);
    TripPoolEffect(found.Pool(t), addr, now + cooldown, last.For(t));
    SameAddrsSameMatch(found.Pool(t), TripPool(found.Pool(t), addr, now + cooldown, last.For(t)), addr);
  }

  /** Reply and pool that a run ending in `last` leaves, `before` being the pool it found then. */
  predicate EndsIn(last: Event, reply: Option<Reply>, before: PoolSnapshot, after: PoolSnapshot,
                   addr: Addr, cooldown: Time, rivals: seq<PoolSnapshot>, readings: Readings)
  {
    match last
    case Called(_, _) => reply == None && after == before
    case Delivered(o, _) => reply == Some(Answered(o)) && after == before
    case Exhausted(o, at) =>
      reply == Some(Answered(o)) && after == Tripped(before, addr, cooldown, at, rivals, readings)
  }

  /** The last failure: the upstream is tripped, and the failure is the reply. */
  method Exhaust(pool: ArcSwap, addr: Addr, cooldown: Time, outcome: Outcome, now: Time,
                 rivals: seq<PoolSnapshot>, readings: Readings)
    returns (reply: Option<Reply>)
    modifies pool
    ensures EndsIn(Exhausted(outcome, now), reply, old(pool.snapshot), pool.snapshot, addr, cooldown, rivals, readings)
  {
    Trip(pool, addr, cooldown, now, rivals, _ => readings);
    reply := Some(Answered(outcome));
  }

  /**
   * The retry loop. `during(k)` is what other tasks publish while call k and the wait before it run;
   * `rivals` and `readings` are what the trip meets, if it comes to one.
   * A call that never answers leaves the request waiting, with no reply.
   */
  method ForwardWithRetry(pool: ArcSwap, cfg: RetryConfig, addr: Addr, script: Script, start: Time,
                          during: nat -> Option<PoolSnapshot>, rivals: seq<PoolSnapshot>, readings: Readings)
    returns (reply: Option<Reply>, events: seq<Event>, ghost calls: nat)
    modifies pool
    ensures events == Timeline(cfg, script, start)
    ensures 0 < |events| == calls + if events[|events| - 1].Called? then 0 else 1
    ensures EndsIn(events[|events| - 1], reply, Drift(old(pool.snapshot), during, calls), pool.snapshot,
                   addr, cfg.cooldown, rivals, readings)
    ensures script(0).Returns? && script(0).outcome.Response? &&
            (script(0).outcome.status < 500 || script(0).outcome.status > 599) ==>
              && reply == Some(Answered(script(0).outcome)) && calls == 1
              && pool.snapshot == Published(old(pool.snapshot), during(0))
  {
    events, calls := [], 0;
    var backoff: Time, now: Time := cfg.initialBackoff, start;
    for attempt := 0 to cfg.maxRetries + 1
      invariant attempt <= cfg.maxRetries && |events| == calls == attempt
      invariant Continue(cfg, script, attempt, backoff, now, events) == Timeline(cfg, script, start)
      invariant pool.snapshot == Drift(old(pool.snapshot), during, attempt)
    {
      events, calls := events + [Called(attempt, now)], calls + 1;
      pool.Interfere(during(attempt));
      match script(attempt)
      case Hangs =>
        return None, events, calls;
      case Returns(outcome, took) =>
        now := now + took;
        if !Retryable(outcome) {
          return Some(Answered(outcome)), events + [Delivered(outcome, now)], calls;
        }
        if attempt == cfg.maxRetries {
          reply := Exhaust(pool, addr, cfg.cooldown, outcome, now, rivals, readings);
          return reply, events + [Exhausted(outcome, now)], calls;
        }
        now := now + backoff;
        backoff := NextBackoff(backoff, cfg.maxBackoff);
    }
    assert false;
    return Some(NoUpstreamAvailable), events, calls;
  }
}
