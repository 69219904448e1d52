/** Upstreams, the two-pool snapshot, and the atomic cell that publishes it. */
module Snapshot {

  /** Identity of a socket address. */
  type Addr = nat

  /** A point of the monotonic clock, and a span of it, in nanoseconds. */
  type Time = nat

  datatype Option<+T> = None | Some(value: T)

  datatype PoolType = Gpu | Cpu

  datatype Status = Ok | Loading | Fail | Unknown

  datatype Upstream = Upstream(
    addr: Addr,
    poolType: PoolType,
    status: Status,
    queueDepth: nat,
    liveWorkers: nat,
    lastSeen: Time,
    cooldownUntil: Option<Time>)
  {
    /** The end of the cooldown is exclusive: at `until` itself the upstream is routable again. */
    predicate InCooldown(now: Time) {
      cooldownUntil.Some? && cooldownUntil.value > now
    }
  }

  datatype PoolSnapshot = PoolSnapshot(gpu: seq<Upstream>, cpu: seq<Upstream>, updatedAt: Time) {
    function Pool(t: PoolType): seq<Upstream> {
      match t
      case Gpu => gpu
      case Cpu => cpu
    }
  }

  const EMPTY_SNAPSHOT := PoolSnapshot([], [], 0)

  function Addrs(pool: seq<Upstream>): seq<Addr> {
    seq(|pool|, i requires 0 <= i < |pool| => pool[i].addr)
  }

  predicate Distinct(addrs: seq<Addr>) {
    forall i, j :: 0 <= i < j < |addrs| ==> addrs[i] != addrs[j]
  }

  predicate Has(pool: seq<Upstream>, addr: Addr) {
    FirstMatch(pool, addr) < |pool|
  }

  /** Position of the first upstream with this address, or the length of the pool. */
  function FirstMatch(pool: seq<Upstream>, addr: Addr): (i: nat)
    ensures i <= |pool|
    ensures i < |pool| ==> pool[i].addr == addr
    ensures forall j :: 0 <= j < i ==> pool[j].addr != addr
  {
    if |pool| == 0 || pool[0].addr == addr then 0 else 1 + FirstMatch(pool[1..], addr)
  }

  /** Two pools with the same addresses in the same order are searched alike. */
  lemma SameAddrsSameMatch(p: seq<Upstream>, q: seq<Upstream>, addr: Addr)
    requires Addrs(p) == Addrs(q)
    ensures FirstMatch(p, addr) == FirstMatch(q, addr)
  {
    assert |p| == |Addrs(p)| == |Addrs(q)| == |q|;
    assert forall i :: 0 <= i < |p| ==> p[i].addr == Addrs(p)[i] == Addrs(q)[i] == q[i].addr;
  }

  lemma HasIffListed(p: seq<Upstream>, addr: Addr)
    ensures Has(p, addr) <==> addr in Addrs(p)
  {
    if Has(p, addr) {
      assert Addrs(p)[FirstMatch(p, addr)] == addr;
    }
  }

  function Published(s: PoolSnapshot, other: Option<PoolSnapshot>): PoolSnapshot {
    if other.Some? then other.value else s
  }

  /** The published snapshot; `version` counts publications and stands for pointer identity. */
  class ArcSwap {
    var snapshot: PoolSnapshot
    var version: nat

    constructor (initial: PoolSnapshot)
      ensures snapshot == initial && version == 0
    {
      snapshot, version := initial, 0;
    }

    method Store(next: PoolSnapshot)
      modifies this
      ensures snapshot == next && version == old(version) + 1
    {
      snapshot, version := next, version + 1;
    }

    /** A publication by another task, if there is one. */
    method Interfere(other: Option<PoolSnapshot>)
      modifies this
      ensures snapshot == Published(old(snapshot), other)
      ensures version == old(version) + if other.Some? then 1 else 0
    {
      if other.Some? {
        Store(other.value);
      }
    }

    method CompareAndSwap(expected: nat, next: PoolSnapshot) returns (swapped: bool)
      modifies this
      ensures swapped <==> old(version) == expected
      ensures swapped ==> snapshot == next && version == old(version) + 1
      ensures !swapped ==> snapshot == old(snapshot) && version == old(version)
    {
      swapped := version == expected;
      if swapped {
        snapshot, version := next, version + 1;
      }
    }
  }
}
