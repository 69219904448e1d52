/** What the next refresh and poll recompute after an update was lost. */
module Recovery {
  import opened Snapshot
  import opened CircuitBreaker
  import opened Discovery
  import opened Health
  import opened Policy
  import opened Interleaving
  import opened Lineage

  // --- Membership and health recover ---

  /** What routing sees of an upstream, cooldown and timestamps aside. */
  datatype Visible = Visible(addr: Addr, poolType: PoolType, status: Status, queueDepth: nat, liveWorkers: nat)

  function ViewOf(pool: seq<Upstream>): seq<Visible> {
    seq(|pool|, i requires 0 <= i < |pool| =>
      Visible(pool[i].addr, pool[i].poolType, pool[i].status, pool[i].queueDepth, pool[i].liveWorkers))
  }

  predicate CoveredBy(answer: seq<Addr>, results: seq<PollResult>) {
    forall i :: 0 <= i < |answer| ==> Reports(results, answer[i])
  }

  /** The pool a DNS answer and a full set of poll results describe, with no reference to any history. */
  function Described(answer: seq<Addr>, results: seq<PollResult>, t: PoolType): seq<Visible>
    requires CoveredBy(answer, results)
  {
    seq(|answer|, i requires 0 <= i < |answer| =>
      var r := results[FirstResult(results, answer[i])];
      Visible(answer[i], t, r.status, r.queueDepth, r.liveWorkers))
  }

  predicate Moves(op: Op, t: PoolType) {
    op.MergeOp? && AnswerFor(op, t).Resolved?
  }

  lemma {:induction false} AnswerStands(ops: seq<Op>, m: nat, t: PoolType)
    requires m < |ops| && Moves(ops[m], t)
    requires forall j :: m < j < |ops| ==> !Moves(ops[j], t)
    ensures LatestAnswer(ops, t) == AnswerFor(ops[m], t).addrs
  {
    if m < |ops| - 1 {
      AnswerStands(ops[..|ops| - 1], m, t);
    }
  }

  lemma {:induction false} ReportStands(ops: seq<Op>, k: nat, t: PoolType, addr: Addr)
    requires k < |ops| && ops[k].PollOp? && Reports(ops[k].results, addr)
    requires forall j :: k < j < |ops| ==> !Moves(ops[j], t) && !ops[j].PollOp?
    ensures LastReport(ops, t, addr) == Some(ops[k].results[FirstResult(ops[k].results, addr)])
  {
    if k < |ops| - 1 {
      ReportStands(ops[..|ops| - 1], k, t, addr);
    }
  }

  /** Operation m is the last resolved answer for the pool, and k, after it, the last poll, covering that answer. */
  ghost predicate RecoveredBy(ops: seq<Op>, m: nat, k: nat, t: PoolType) {
    && m < k < |ops|
    && Moves(ops[m], t) && ops[k].PollOp? && CoveredBy(AnswerFor(ops[m], t).addrs, ops[k].results)
    && (forall j :: m < j < |ops| ==> !Moves(ops[j], t))
    && (forall j :: k < j < |ops| ==> !ops[j].PollOp?)
  }

  /**
   * Once a resolved answer has been merged and a later poll has covered it, addresses, order and health
   * are what that answer and that poll say, whatever came before and however many trips interleave.
   */
  lemma SerialRecovery(ops: seq<Op>, m: nat, k: nat, t: PoolType)
    requires RecoveredBy(ops, m, k, t)
    ensures ViewOf(ApplyAll(ops, EMPTY_SNAPSHOT).Pool(t)) ==
            Described(AnswerFor(ops[m], t).addrs, ops[k].results, t)
  {
    SerialExplained(ops);
    AnswerStands(ops, m, t);
    var pool, answer, results := ApplyAll(ops, EMPTY_SNAPSHOT).Pool(t), AnswerFor(ops[m], t).addrs, ops[k].results;
    assert PoolExplained(pool, ops, t);
    forall i | 0 <= i < |pool|
      ensures ViewOf(pool)[i] == Described(answer, results, t)[i]
    {
      assert pool[i].addr == Addrs(pool)[i] == answer[i];
      assert Reports(results, answer[i]);
      ReportStands(ops, k, t, answer[i]);
    }
  }

  /** The same of every published version, read off its lineage, whatever overlapped what. */
  lemma RecoveryOfVersion(s: State, v: nat, m: nat, k: nat, t: PoolType)
    requires LogConsistent(s) && v <= |s.log|
    requires RecoveredBy(OpsBehind(s.log, v), m, k, t)
    ensures var ops := OpsBehind(s.log, v);
            ViewOf(s.versions[v].Pool(t)) == Described(AnswerFor(ops[m], t).addrs, ops[k].results, t)
  {
    VersionIsSerial(s, v);
    SerialRecovery(OpsBehind(s.log, v), m, k, t);
  }

  /** One refresh and one polling round: the answers, what the polls said, and when each was published. */
  datatype Round = Round(gpu: seq<Addr>, cpu: seq<Addr>, merged: Time, results: seq<PollResult>, polled: Time)
  {
    function Answer(t: PoolType): seq<Addr> {
      if t == Gpu then gpu else cpu
    }

    /** Every listed address has a result. */
    predicate Covered() {
      CoveredBy(gpu, results) && CoveredBy(cpu, results)
    }

    /** The steps of the two background tasks; with nothing to poll, a polling round ends as it begins. */
    function Steps(): seq<Step> {
      [DnsLoad(Resolved(gpu), Resolved(cpu)), DnsStore(merged), HealthBegin] +
      if gpu == [] && cpu == [] then [] else [HealthLoad(results), HealthStore(polled)]
    }
  }

  /** Steps of discovery and the poller; the others let time pass or belong to trips. */
  predicate OfWriter(step: Step) {
    !step.Tick? && !step.TripBegin? && !step.TripCheck? && !step.TripLoad? && !step.TripSwap?
  }

  function WriterSteps(steps: seq<Step>): seq<Step> {
    if steps == [] then []
    else (if OfWriter(steps[0]) then [steps[0]] else []) + WriterSteps(steps[1..])
  }

  /** The pools list exactly the round's answers. */
  ghost predicate Lists(s: PoolSnapshot, r: Round) {
    forall t: PoolType ::
      Addrs(s.Pool(t)) == r.Answer(t) && forall i :: 0 <= i < |s.Pool(t)| ==> s.Pool(t)[i].poolType == t
  }

  /** The pools are what the answers and the results describe. */
  ghost predicate Recovered(s: PoolSnapshot, r: Round)
    requires r.Covered()
  {
    && ViewOf(s.gpu) == Described(r.gpu, r.results, Gpu)
    && ViewOf(s.cpu) == Described(r.cpu, r.results, Cpu)
  }

  /** Where a run stands after the first p steps of the round. */
  ghost predicate Stands(s: State, r: Round, p: nat)
    requires r.Covered()
  {
    && Inv(s)
    && (p == 1 ==> s.dns.DnsLoaded? && s.dns.gpu == Resolved(r.gpu) && s.dns.cpu == Resolved(r.cpu))
    && (p == 2 || p == 3 ==> Lists(s.Current(), r))
    && (p == 4 ==> s.health.HealthLoaded? && s.health.results == r.results && Lists(s.versions[s.health.base], r))
    && (p == 5 ==> Recovered(s.Current(), r))
  }

  lemma TripShowsSame(s: PoolSnapshot, r: Round, op: Op)
    requires op.TripOp? && r.Covered()
    ensures Lists(s, r) ==> Lists(Apply(op, s), r)
    ensures Recovered(s, r) ==> Recovered(Apply(op, s), r)
  {
    forall t: PoolType
      ensures Addrs(Apply(op, s).Pool(t)) == Addrs(s.Pool(t))
      ensures ViewOf(Apply(op, s).Pool(t)) == ViewOf(s.Pool(t))
      ensures forall i :: 0 <= i < |s.Pool(t)| ==> Apply(op, s).Pool(t)[i].poolType == s.Pool(t)[i].poolType
    {
      var pool, now := s.Pool(t), op.at.For(t);
      TripPoolEffect(pool, op.addr, op.until, now);
      var next := TripPool(pool, op.addr, op.until, now);
      assert |next| == |pool|;
      forall i | 0 <= i < |pool|
        ensures ViewOf(next)[i] == ViewOf(pool)[i] && next[i].poolType == pool[i].poolType
      {
        assert next[i].(cooldownUntil := pool[i].cooldownUntil) == pool[i];
      }
    }
    assert ViewOf(Apply(op, s).Pool(Gpu)) == ViewOf(s.Pool(Gpu));
    assert ViewOf(Apply(op, s).Pool(Cpu)) == ViewOf(s.Pool(Cpu));
  }

  /** Time and trips leave the round where it stands. */
  lemma QuietStands(cooldown: Time, s: State, step: Step, r: Round, p: nat)
    requires r.Covered() && Stands(s, r, p) && Enabled(s, step) && !OfWriter(step)
    ensures Stands(Do(cooldown, s, step), r, p)
  {
    StepKeepsInv(cooldown, s, step);
    match step
    case TripSwap(id, at) =>
      TripShowsSame(s.Current(), r, TripOp(s.trips[id].addr, s.trips[id].until, at));
    case _ =>
  }

  /** A merge of two resolved answers lists exactly those, whatever it was computed from. */
  lemma MergeLists(s: State, base: nat, r: Round)
    requires LogConsistent(s) && base <= |s.log|
    ensures Lists(Merge(s.versions[base], Resolved(r.gpu), Resolved(r.cpu), r.merged), r)
  {
    VersionIsSerial(s, base);
    var ops := OpsBehind(s.log, base);
    SerialExplained(ops);
    ApplyExplained(MergeOp(Resolved(r.gpu), Resolved(r.cpu), r.merged), s.versions[base], ops);
    forall t: PoolType
      ensures Addrs(Merge(s.versions[base], Resolved(r.gpu), Resolved(r.cpu), r.merged).Pool(t)) == r.Answer(t)
      ensures PoolExplained(Merge(s.versions[base], Resolved(r.gpu), Resolved(r.cpu), r.merged).Pool(t),
                            ops + [MergeOp(Resolved(r.gpu), Resolved(r.cpu), r.merged)], t)
    {
      MergeMembership(s.versions[base].Pool(t), Resolved(r.Answer(t)), t, r.merged);
    }
  }

  lemma PollDescribes(pool: seq<Upstream>, answer: seq<Addr>, results: seq<PollResult>, t: PoolType, now: Time)
    requires Addrs(pool) == answer && CoveredBy(answer, results)
    requires forall i :: 0 <= i < |pool| ==> pool[i].poolType == t
    ensures ViewOf(UpdatePool(pool, results, now)) == Described(answer, results, t)
  {
    assert |pool| == |Addrs(pool)|;
    forall i | 0 <= i < |pool|
      ensures ViewOf(UpdatePool(pool, results, now))[i] == Described(answer, results, t)[i]
    {
      assert pool[i].addr == Addrs(pool)[i];
      assert Reports(results, answer[i]);
    }
  }

  lemma PollRecovers(s: PoolSnapshot, r: Round)
    requires r.Covered() && Lists(s, r)
    ensures Recovered(ApplyUpdates(s, r.results, r.polled), r)
  {
    assert Addrs(s.Pool(Gpu)) == r.Answer(Gpu) && Addrs(s.Pool(Cpu)) == r.Answer(Cpu);
    PollDescribes(s.gpu, r.gpu, r.results, Gpu, r.polled);
    PollDescribes(s.cpu, r.cpu, r.results, Cpu, r.polled);
  }

  /** The next step of the round takes it one further. */
  lemma WriterStands(cooldown: Time, s: State, r: Round, p: nat)
    requires r.Covered() && p < |r.Steps()| && Stands(s, r, p) && Enabled(s, r.Steps()[p])
    ensures Stands(Do(cooldown, s, r.Steps()[p]), r, p + 1)
  {
    StepKeepsInv(cooldown, s, r.Steps()[p]);
    if p == 1 {
      MergeLists(s, s.dns.base, r);
    } else if p == 4 {
      PollRecovers(s.versions[s.health.base], r);
    }
  }

  lemma {:induction false} RoundRuns(cooldown: Time, s: State, steps: seq<Step>, r: Round, p: nat)
    requires r.Covered() && p <= |r.Steps()| && Stands(s, r, p)
    requires ValidRun(cooldown, s, steps) && WriterSteps(steps) == r.Steps()[p..]
    ensures Stands(RunFrom(cooldown, s, steps), r, |r.Steps()|)
    decreases |steps|
  {
    if steps != [] {
      var next := Do(cooldown, s, steps[0]);
      if OfWriter(steps[0]) {
        assert WriterSteps(steps)[0] == steps[0] == r.Steps()[p];
        assert WriterSteps(steps[1..]) == WriterSteps(steps)[1..] == r.Steps()[p + 1..];
        WriterStands(cooldown, s, r, p);
        RoundRuns(cooldown, next, steps[1..], r, p + 1);
      } else {
        QuietStands(cooldown, s, steps[0], r, p);
        RoundRuns(cooldown, next, steps[1..], r, p);
      }
    }
  }

  /**
   * From any reachable state, a refresh with both pools resolved followed by a poll covering both answers,
   * neither overtaken by another, leaves pools determined by the answers and the results alone, however
   * long the two take and whatever trips run before, between and after their steps.
   */
  lemma RecoveryAfterLostUpdates(cooldown: Time, before: seq<Step>, steps: seq<Step>, r: Round)
    requires ValidRun(cooldown, INIT, before + steps)
    requires WriterSteps(steps) == r.Steps() && r.Covered()
    ensures |RunFrom(cooldown, INIT, before + steps).versions| > 0
    ensures Recovered(RunFrom(cooldown, INIT, before + steps).Current(), r)
  {
    RunAppend(cooldown, INIT, before, steps);
    RunKeepsInv(cooldown, INIT, before);
    var s, last := RunFrom(cooldown, INIT, before), RunFrom(cooldown, INIT, before + steps);
    RoundRuns(cooldown, s, steps, r, 0);
    if r.gpu == [] && r.cpu == [] {
      assert Addrs(last.Current().Pool(Gpu)) == r.Answer(Gpu) && Addrs(last.Current().Pool(Cpu)) == r.Answer(Cpu);
      assert |last.Current().gpu| == |Addrs(last.Current().gpu)| && |last.Current().cpu| == |Addrs(last.Current().cpu)|;
    }
  }

  /** The recovered pool does not depend on the order in which distinct addresses answered. */
  lemma RecoveryOrderIrrelevant(answer: seq<Addr>, a: seq<PollResult>, b: seq<PollResult>, t: PoolType)
    requires multiset(a) == multiset(b) && Distinct(ResultAddrs(a)) && CoveredBy(answer, a)
    ensures CoveredBy(answer, b) && Described(answer, a, t) == Described(answer, b, t)
  {
    forall i | 0 <= i < |answer|
      ensures Reports(b, answer[i]) && b[FirstResult(b, answer[i])] == a[FirstResult(a, answer[i])]
    {
      assert Reports(a, answer[i]);
      SameResult(a, b, answer[i]);
    }
  }

  lemma SameResult(a: seq<PollResult>, b: seq<PollResult>, addr: Addr)
    requires multiset(a) == multiset(b) && Distinct(ResultAddrs(a)) && Reports(a, addr)
    ensures Reports(b, addr) && b[FirstResult(b, addr)] == a[FirstResult(a, addr)]
  {
    assert forall i :: 0 <= i < |a| ==> ResultAddrs(a)[i] == a[i].addr;
    assert a[FirstResult(a, addr)] in multiset(b);
    assert a[FirstResult(a, addr)] in b;
    assert b[FirstResult(b, addr)] in multiset(a);
    assert b[FirstResult(b, addr)] in a;
  }

  // --- Such a round can always happen ---

  /** Every result is for an address of one of the answers. */
  predicate Asked(r: Round) {
    forall i :: 0 <= i < |r.results| ==> r.results[i].addr in r.gpu + r.cpu
  }

  lemma RefreshIsPossible(cooldown: Time, s: State, r: Round)
    requires Inv(s) && s.dns.DnsIdle? && r.merged == s.clock
    ensures ValidRun(cooldown, s, r.Steps()[..2])
    ensures var next := RunFrom(cooldown, s, r.Steps()[..2]);
            && Inv(next) && next.clock == s.clock && next.health == s.health && next.dns.DnsIdle?
            && Addrs(next.Current().gpu) == r.gpu && Addrs(next.Current().cpu) == r.cpu
  {
    var load, store := DnsLoad(Resolved(r.gpu), Resolved(r.cpu)), DnsStore(r.merged);
    assert [] + [load] == [load] && [load] + [store] == r.Steps()[..2];
    Extend(cooldown, s, [], load);
    Extend(cooldown, s, [load], store);
    RunKeepsInv(cooldown, s, r.Steps()[..2]);
    MergeMembership(s.Current().gpu, Resolved(r.gpu), Gpu, r.merged);
    MergeMembership(s.Current().cpu, Resolved(r.cpu), Cpu, r.merged);
  }

  lemma JoinAddrs(p: seq<Upstream>, q: seq<Upstream>)
    ensures Addrs(p + q) == Addrs(p) + Addrs(q)
  {
  }

  lemma PollIsPossible(cooldown: Time, s: State, r: Round)
    requires Inv(s) && s.health.HealthIdle? && r.polled == s.clock && Asked(r) && r.gpu + r.cpu != []
    requires Addrs(s.Current().gpu) == r.gpu && Addrs(s.Current().cpu) == r.cpu
    ensures ValidRun(cooldown, s, r.Steps()[2..])
  {
    JoinAddrs(s.Current().gpu, s.Current().cpu);
    var begin, load, store := HealthBegin, HealthLoad(r.results), HealthStore(r.polled);
    assert [] + [begin] == [begin] && [begin] + [load] == [begin, load];
    assert [begin, load] + [store] == r.Steps()[2..];
    Extend(cooldown, s, [], begin);
    Extend(cooldown, s, [begin], load);
    RunKeepsInv(cooldown, s, [begin, load]);
    Extend(cooldown, s, [begin, load], store);
  }

  /**
   * Whatever has happened before, once both tasks are idle a refresh with any answers, empty ones included, and
   * then a poll of every address of either pool can run.
   */
  lemma RoundIsPossible(cooldown: Time, s: State, r: Round)
    requires Inv(s) && s.dns.DnsIdle? && s.health.HealthIdle?
    requires r.merged == r.polled == s.clock && Asked(r)
    ensures ValidRun(cooldown, s, r.Steps())
  {
    RefreshIsPossible(cooldown, s, r);
    var next := RunFrom(cooldown, s, r.Steps()[..2]);
    if r.gpu == [] && r.cpu == [] {
      assert r.Steps() == r.Steps()[..2] + [HealthBegin];
      Extend(cooldown, s, r.Steps()[..2], HealthBegin);
    } else {
      PollIsPossible(cooldown, next, r);
      RunJoin(cooldown, s, r.Steps()[..2], r.Steps()[2..]);
      assert r.Steps() == r.Steps()[..2] + r.Steps()[2..];
    }
  }
}
