/** What the retry loop amounts to: which outcome it returns, when, and how long it waits. */
module Retry {
  import opened Snapshot
  import opened Discovery
  import opened Config
  import opened Proxy

  predicate Retries(a: Attempt) {
    a.Returns? && Retryable(a.outcome)
  }

  /** First call at or after k that is not a retryable failure, or else the last allowed one. */
  function FinalCall(cfg: RetryConfig, script: Script, k: nat): (m: nat)
    requires k <= cfg.maxRetries
    ensures k <= m <= cfg.maxRetries
    ensures forall i :: k <= i < m ==> Retries(script(i))
    ensures m < cfg.maxRetries ==> !Retries(script(m))
    decreases cfg.maxRetries - k
  {
    if k == cfg.maxRetries || !Retries(script(k)) then k else FinalCall(cfg, script, k + 1)
  }

  /** The k-th wait, k from 0, as the loop computes it. */
  function BackoffAt(cfg: RetryConfig, k: nat): Time {
    if k == 0 then cfg.initialBackoff else NextBackoff(BackoffAt(cfg, k - 1), cfg.maxBackoff)
  }

  function TotalBackoff(cfg: RetryConfig, k: nat): Time {
    if k == 0 then 0 else TotalBackoff(cfg, k - 1) + BackoffAt(cfg, k - 1)
  }

  function Took(a: Attempt): Time {
    if a.Returns? then a.took else 0
  }

  function TotalTook(script: Script, k: nat): Time {
    if k == 0 then 0 else TotalTook(script, k - 1) + Took(script(k - 1))
  }

  /** When call k starts, if it is made. */
  function CallTime(cfg: RetryConfig, script: Script, start: Time, k: nat): Time {
    start + TotalTook(script, k) + TotalBackoff(cfg, k)
  }

  /** The event that answers a call. */
  function Completion(o: Outcome, at: Time): Event {
    if Retryable(o) then Exhausted(o, at) else Delivered(o, at)
  }

  ghost predicate CallsUpTo(es: seq<Event>, cfg: RetryConfig, script: Script, start: Time, k: nat) {
    k <= |es| && forall i: nat :: i < k ==> es[i] == Called(i, CallTime(cfg, script, start, i))
  }

  /** Calls 0..m at their times, then the completion of call m if it has one. */
  ghost predicate Shaped(es: seq<Event>, cfg: RetryConfig, script: Script, start: Time, m: nat) {
    && CallsUpTo(es, cfg, script, start, m + 1)
    && match script(m)
       case Hangs => |es| == m + 1
       case Returns(o, took) => |es| == m + 2 && es[m + 1] == Completion(o, CallTime(cfg, script, start, m) + took)
  }

  lemma StopShape(cfg: RetryConfig, script: Script, start: Time, k: nat, done: seq<Event>)
    requires k <= cfg.maxRetries && (k == cfg.maxRetries || !Retries(script(k)))
    requires |done| == k && CallsUpTo(done, cfg, script, start, k)
    ensures Shaped(Continue(cfg, script, k, BackoffAt(cfg, k), CallTime(cfg, script, start, k), done),
                   cfg, script, start, k)
  {
    OneCallMore(done, cfg, script, start, k);
  }

  lemma {:induction false} ContinueShape(cfg: RetryConfig, script: Script, start: Time, k: nat, done: seq<Event>)
    requires k <= cfg.maxRetries
    requires |done| == k && CallsUpTo(done, cfg, script, start, k)
    ensures Shaped(Continue(cfg, script, k, BackoffAt(cfg, k), CallTime(cfg, script, start, k), done),
                   cfg, script, start, FinalCall(cfg, script, k))
    decreases cfg.maxRetries - k
  {
    if k < cfg.maxRetries && Retries(script(k)) {
      OneCallMore(done, cfg, script, start, k);
      ContinueShape(cfg, script, start, k + 1, done + [Called(k, CallTime(cfg, script, start, k))]);
    } else {
      StopShape(cfg, script, start, k, done);
    }
  }

  lemma OneCallMore(done: seq<Event>, cfg: RetryConfig, script: Script, start: Time, k: nat)
    requires |done| == k && CallsUpTo(done, cfg, script, start, k)
    ensures CallsUpTo(done + [Called(k, CallTime(cfg, script, start, k))], cfg, script, start, k + 1)
    ensures forall last: Event ::
              CallsUpTo(done + [Called(k, CallTime(cfg, script, start, k))] + [last], cfg, script, start, k + 1)
    ensures CallTime(cfg, script, start, k + 1) ==
            CallTime(cfg, script, start, k) + Took(script(k)) + BackoffAt(cfg, k)
  {
    var called := done + [Called(k, CallTime(cfg, script, start, k))];
    assert forall i: nat :: i < k ==> called[i] == done[i];
    forall last: Event
      ensures CallsUpTo(called + [last], cfg, script, start, k + 1)
    {
      assert forall i: nat :: i < k + 1 ==> (called + [last])[i] == called[i];
    }
  }

  /**
   * Calls 0..m are made at known times, m being the first call that is not a retryable failure, else the
   * last; its outcome is the reply, and it is an exhaustion exactly when it is itself retryable.
   */
  lemma TimelineShape(cfg: RetryConfig, script: Script, start: Time)
    ensures Shaped(Timeline(cfg, script, start), cfg, script, start, FinalCall(cfg, script, 0))
  {
    ContinueShape(cfg, script, start, 0, []);
  }

  predicate AllFail(cfg: RetryConfig, script: Script) {
    forall k: nat :: k <= cfg.maxRetries ==> Retries(script(k))
  }

  function Calls(es: seq<Event>): nat {
    if es == [] then 0 else Calls(es[..|es| - 1]) + if es[|es| - 1].Called? then 1 else 0
  }

  lemma {:induction false} CallsOfPrefix(es: seq<Event>, k: nat)
    requires k <= |es| && forall i :: 0 <= i < k ==> es[i].Called?
    ensures Calls(es[..k]) == k
  {
    if k > 0 {
      assert es[..k][..k - 1] == es[..k - 1];
      CallsOfPrefix(es, k - 1);
    }
  }

  /**
   * For every script: at most max_retries + 1 calls; the reply is the first outcome that is not retryable,
   * else the last one; a trip is attempted exactly once, as the last event, and only if every call failed.
   */
  lemma RetryRefinement(cfg: RetryConfig, script: Script, start: Time)
    ensures var es := Timeline(cfg, script, start);
            var m := FinalCall(cfg, script, 0);
            && 0 < |es|
            && Calls(es) == m + 1 <= cfg.maxRetries + 1
            && (forall i :: 0 <= i < |es| - 1 ==> es[i].Called?)
            && (es[|es| - 1].Called? <==> script(m).Hangs?)
            && (es[|es| - 1].Exhausted? <==> AllFail(cfg, script))
            && (!es[|es| - 1].Called? ==> es[|es| - 1].outcome == script(m).outcome)
            && (es[|es| - 1].Delivered? ==> !Retryable(es[|es| - 1].outcome))
  {
    TimelineShape(cfg, script, start);
    var es := Timeline(cfg, script, start);
    var m := FinalCall(cfg, script, 0);
    CallsOfPrefix(es, m + 1);
    if script(m).Hangs? {
      assert es == es[..m + 1];
    } else {
      assert es[..|es| - 1] == es[..m + 1];
    }
    if AllFail(cfg, script) {
      assert Retries(script(m));
    }
  }

  /**
   * On status numbers: as long as calls fail, with a status of 500 to 599 or no response, the next one is made;
   * any other response is the reply at once; and only the failure of the last allowed call ends in a trip.
   */
  lemma RepliesByStatus(cfg: RetryConfig, script: Script, start: Time, m: nat)
    requires m <= cfg.maxRetries && script(m).Returns?
    requires forall i: nat :: i < m ==>
               script(i).Returns? && (script(i).outcome.Response? ==> 500 <= script(i).outcome.status <= 599)
    ensures var es, at := Timeline(cfg, script, start), CallTime(cfg, script, start, m);
            && |es| > m + 1
            && es[m] == Called(m, at)
            && if script(m).outcome.Response? && (script(m).outcome.status < 500 || script(m).outcome.status > 599) then
                 |es| == m + 2 && es[m + 1] == Delivered(script(m).outcome, at + script(m).took)
               else if m == cfg.maxRetries then
                 |es| == m + 2 && es[m + 1] == Exhausted(script(m).outcome, at + script(m).took)
               else es[m + 1] == Called(m + 1, CallTime(cfg, script, start, m + 1))
  {
    TimelineShape(cfg, script, start);
    assert forall i: nat :: i < m ==> Retries(script(i));
    NotBefore(cfg, script, 0, m);
  }

  lemma {:induction false} NotBefore(cfg: RetryConfig, script: Script, k: nat, m: nat)
    requires k <= m <= cfg.maxRetries && forall i: nat :: k <= i < m ==> Retries(script(i))
    ensures FinalCall(cfg, script, k) >= m
    ensures FinalCall(cfg, script, k) == m <==> m == cfg.maxRetries || !Retries(script(m))
    decreases m - k
  {
    if k < m {
      NotBefore(cfg, script, k + 1, m);
    }
  }

  // --- Waiting ---

  /** Initial wait at most the cap, and the cap representable with room to double. */
  predicate Capped(cfg: RetryConfig) {
    cfg.initialBackoff <= cfg.maxBackoff <= U64_MAX * MILLISECOND
  }

  lemma NoSaturation(d: Time)
    requires d <= U64_MAX * MILLISECOND
    ensures SaturatingDouble(d) == 2 * d
  {
  }

  lemma CappedDoubling(a: nat, max: nat)
    ensures Min(2 * Min(a, max), max) == Min(2 * a, max)
  {
  }

  /** The k-th wait is min(initial * 2^k, max), and doubling it never saturates. */
  lemma {:induction false} BackoffClosedForm(cfg: RetryConfig, k: nat)
    requires Capped(cfg)
    ensures BackoffAt(cfg, k) == Min(cfg.initialBackoff * Pow2(k), cfg.maxBackoff)
    ensures SaturatingDouble(BackoffAt(cfg, k)) == 2 * BackoffAt(cfg, k)
  {
    if k > 0 {
      BackoffClosedForm(cfg, k - 1);
      CappedDoubling(cfg.initialBackoff * Pow2(k - 1), cfg.maxBackoff);
      PowStep(cfg.initialBackoff, k - 1);
    }
    NoSaturation(BackoffAt(cfg, k));
  }

  lemma PowStep(a: nat, k: nat)
    ensures a * Pow2(k + 1) == 2 * (a * Pow2(k))
  {
    DoubleFactor(a, Pow2(k));
  }

  lemma DoubleFactor(a: nat, p: nat)
    ensures a * (2 * p) == 2 * (a * p)
  {
  }

  /** Total waiting of n retries is at most n * max, and at most initial * (2^n - 1). */
  lemma {:induction false} TotalBackoffBound(cfg: RetryConfig, n: nat)
    requires Capped(cfg)
    ensures TotalBackoff(cfg, n) <= n * cfg.maxBackoff
    ensures TotalBackoff(cfg, n) <= cfg.initialBackoff * (Pow2(n) - 1)
  {
    if n > 0 {
      TotalBackoffBound(cfg, n - 1);
      BackoffClosedForm(cfg, n - 1);
      OneMore(n - 1, cfg.maxBackoff);
      OneDoubling(cfg.initialBackoff, Pow2(n - 1));
    }
  }

  lemma OneDoubling(a: nat, p: nat)
    ensures a * (2 * p - 1) == a * (p - 1) + a * p
  {
    assert a * (2 * p) == a * p + a * p;
  }

  /** For every accepted environment. */
  lemma AcceptedBackoff(env: Environment, k: nat)
    requires FromLookup(env).Success?
    ensures var cfg := RetryConfigOf(FromLookup(env).value);
            && BackoffAt(cfg, k) == Min(cfg.initialBackoff * Pow2(k), cfg.maxBackoff)
            && TotalBackoff(cfg, cfg.maxRetries) <= cfg.maxRetries * cfg.maxBackoff
            && TotalBackoff(cfg, cfg.maxRetries) <= cfg.initialBackoff * (Pow2(cfg.maxRetries) - 1)
  {
    AcceptedExactly(env);
    var cfg := RetryConfigOf(FromLookup(env).value);
    BackoffClosedForm(cfg, k);
    TotalBackoffBound(cfg, cfg.maxRetries);
  }

  /** Events come in time order, the first when the forwarding starts. */
  predicate TimeOrdered(es: seq<Event>) {
    forall i, j :: 0 <= i <= j < |es| ==> es[i].at <= es[j].at
  }

  lemma {:induction false} CallTimeGrows(cfg: RetryConfig, script: Script, start: Time, i: nat, j: nat)
    requires i <= j
    ensures CallTime(cfg, script, start, i) <= CallTime(cfg, script, start, j)
  {
    if i < j {
      CallTimeGrows(cfg, script, start, i, j - 1);
    }
  }

  lemma TimelineOrdered(cfg: RetryConfig, script: Script, start: Time)
    ensures TimeOrdered(Timeline(cfg, script, start))
    ensures |Timeline(cfg, script, start)| > 0 && Timeline(cfg, script, start)[0] == Called(0, start)
  {
    TimelineShape(cfg, script, start);
    var es := Timeline(cfg, script, start);
    var m := FinalCall(cfg, script, 0);
    forall i, j | 0 <= i <= j < |es|
      ensures es[i].at <= es[j].at
    {
      if j <= m {
        CallTimeGrows(cfg, script, start, i, j);
      } else if i <= m {
        CallTimeGrows(cfg, script, start, i, m);
      }
    }
  }

  // --- Timeouts ---

  /** The completion that beats a timeout of `budget` started together with the forwarding. */
  function Within(es: seq<Event>, budget: Time): Option<Event> {
    if es != [] && es[|es| - 1].Completes() && es[|es| - 1].at <= budget then Some(es[|es| - 1]) else None
  }

  predicate Prompt(cfg: RetryConfig, script: Script, each: Time) {
    forall k: nat :: k <= cfg.maxRetries ==> script(k).Returns? && script(k).took <= each
  }

  lemma {:induction false} TookBound(script: Script, k: nat, each: Time)
    requires forall i: nat :: i < k ==> Took(script(i)) <= each
    ensures TotalTook(script, k) <= k * each
  {
    if k > 0 {
      TookBound(script, k - 1, each);
      assert k * each == (k - 1) * each + each;
    }
  }

  /** The slowest the loop can be when no call takes longer than `each`. */
  function WorstCase(cfg: RetryConfig, each: Time): Time {
    (cfg.maxRetries + 1) * each + TotalBackoff(cfg, cfg.maxRetries)
  }

  lemma {:induction false} TotalBackoffGrows(cfg: RetryConfig, i: nat, j: nat)
    requires i <= j
    ensures TotalBackoff(cfg, i) <= TotalBackoff(cfg, j)
  {
    if i < j {
      TotalBackoffGrows(cfg, i, j - 1);
    }
  }

  lemma PromptFinishes(cfg: RetryConfig, script: Script, each: Time)
    requires Prompt(cfg, script, each)
    ensures var es := Timeline(cfg, script, 0);
            0 < |es| && es[|es| - 1].Completes() && es[|es| - 1].at <= WorstCase(cfg, each)
  {
    TimelineShape(cfg, script, 0);
    var m := FinalCall(cfg, script, 0);
    TookBound(script, m + 1, each);
    TotalBackoffGrows(cfg, m, cfg.maxRetries);
    assert script(m).Returns?;
    assert (m + 1) * each <= (cfg.maxRetries + 1) * each by {
      Scale(m + 1, cfg.maxRetries + 1, each);
    }
  }

  lemma Scale(a: nat, b: nat, d: nat)
    requires a <= b
    ensures a * d <= b * d
  {
  }

  function SlowFailures(each: Time): Script {
    _ => Returns(TransportError(0), each)
  }

  lemma {:induction false} SlowTook(each: Time, k: nat)
    ensures TotalTook(SlowFailures(each), k) == k * each
  {
    if k > 0 {
      SlowTook(each, k - 1);
      assert k * each == (k - 1) * each + each;
    }
  }

  /**
   * The loop beats its timeout for every script whose calls take at most `each` exactly when the worst
   * case fits the budget; a call that hangs longer is cut off by the timeout instead.
   */
  lemma BeatsTimeoutExactly(cfg: RetryConfig, each: Time, budget: Time)
    ensures (forall script: Script :: Prompt(cfg, script, each) ==> Within(Timeline(cfg, script, 0), budget).Some?)
            <==> WorstCase(cfg, each) <= budget
  {
    if WorstCase(cfg, each) <= budget {
      forall script: Script | Prompt(cfg, script, each)
        ensures Within(Timeline(cfg, script, 0), budget).Some?
      {
        PromptFinishes(cfg, script, each);
      }
    } else {
      var script := SlowFailures(each);
      assert Prompt(cfg, script, each);
      TimelineShape(cfg, script, 0);
      var n := cfg.maxRetries;
      assert FinalCall(cfg, script, 0) == n;
      SlowTook(each, n);
      assert (n + 1) * each == n * each + each;
      assert Within(Timeline(cfg, script, 0), budget).None?;
    }
  }
}
