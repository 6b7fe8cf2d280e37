/** What the allocator means, without its indexes: a ledger of pools and allocations,
    and the rules by which addresses are given out and taken back. */
module Ledgers {
  import opened Net
  import opened Config

  datatype Port = Port(proto: string, port: int)

  datatype Key = Key(sharing: string, backend: string)

  datatype Alloc = Alloc(pool: string, ip: Ip, ports: seq<Port>, key: Key)

  /** The ports and keys a service brings to an allocation call. */
  datatype Request = Request(ports: seq<Port>, key: Key)

  type Allocations = map<string, Alloc>

  datatype Ledger = Ledger(pools: PoolMap, allocs: Allocations)

  // ---------- Pools ----------

  /** `ipConfusesBuggyFirmwares`: an IPv4 address ending in 0 or 255. */
  predicate Buggy(ip: Ip) {
    ip.fam == V4 && (ip.n % 256 == 0 || ip.n % 256 == 255)
  }

  predicate InPool(p: Pool, ip: Ip) {
    !(p.avoidBuggy && Buggy(ip)) && exists i :: 0 <= i < |p.cidrs| && Contains(p.cidrs[i], ip)
  }

  /** The speaker's rule, which does not look at avoided addresses. */
  ghost predicate Spans(p: Pool, ip: Ip) {
    exists i :: 0 <= i < |p.cidrs| && Contains(p.cidrs[i], ip)
  }

  /** The pool that owns ip, or "" when there is none. */
  ghost function PoolFor(pools: PoolMap, ip: Ip): (n: string)
    ensures n != "" ==> n in pools && InPool(pools[n], ip)
    ensures GoodPools(pools) && n == "" ==> forall m :: m in pools ==> !InPool(pools[m], ip)
  {
    if exists m :: m in pools && InPool(pools[m], ip) then
      var m :| m in pools && InPool(pools[m], ip);
      m
    else ""
  }

  /** With disjoint pools the owner does not depend on the order in which they are visited. */
  lemma OwnerUnique(pools: PoolMap, n: string, ip: Ip)
    requires GoodPools(pools) && n in pools && InPool(pools[n], ip)
    ensures PoolFor(pools, ip) == n
  {
    var m := PoolFor(pools, ip);
    assert m in pools && InPool(pools[m], ip);
    var i :| 0 <= i < |pools[n].cidrs| && Contains(pools[n].cidrs[i], ip);
    var j :| 0 <= j < |pools[m].cidrs| && Contains(pools[m].cidrs[j], ip);
    assert Covers(pools, n, i, ip) && Covers(pools, m, j, ip);
  }

  // ---------- The sharing rule ----------

  /** May a service asking for req stand beside the allocation a on one address? */
  predicate Shares(a: Alloc, req: Request) {
    && a.key.sharing != ""
    && a.key.sharing == req.key.sharing
    && a.key.backend == req.key.backend
    && forall p :: p in a.ports ==> p !in req.ports
  }

  function Asks(a: Alloc): Request {
    Request(a.ports, a.key)
  }

  /** What Kubernetes guarantees of a load balancer's port list. */
  predicate GoodPorts(ports: seq<Port>) {
    ports != [] && forall i, j :: 0 <= i < j < |ports| ==> ports[i] != ports[j]
  }

  ghost predicate Compatible(al: Allocations, svc: string, ip: Ip, req: Request) {
    forall o :: o in al && o != svc && al[o].ip == ip ==> Shares(al[o], req)
  }

  /** The index-free rule for giving ip to svc. */
  ghost predicate Admits(l: Ledger, svc: string, ip: Ip, req: Request) {
    PoolFor(l.pools, ip) != "" && Compatible(l.allocs, svc, ip, req)
  }

  ghost predicate PortsGood(al: Allocations) {
    forall s :: s in al ==> GoodPorts(al[s].ports)
  }

  /** Services on one address agree on a non-empty sharing key and the backend key,
      and use different ports. */
  ghost predicate PairwiseShared(al: Allocations) {
    forall s, t :: s in al && t in al && s != t && al[s].ip == al[t].ip ==> Shares(al[s], Asks(al[t]))
  }

  ghost predicate Sane(al: Allocations) {
    PortsGood(al) && PairwiseShared(al)
  }

  /** Every allocation is filed under the pool that owns its address. */
  ghost predicate Homed(l: Ledger) {
    forall s :: s in l.allocs ==>
                  l.allocs[s].pool != "" && l.allocs[s].pool == PoolFor(l.pools, l.allocs[s].ip)
  }

  ghost predicate Inv(l: Ledger) {
    GoodPools(l.pools) && Sane(l.allocs) && Homed(l)
  }

  // ---------- The operations ----------

  ghost function NewAlloc(l: Ledger, ip: Ip, req: Request): Alloc {
    Alloc(PoolFor(l.pools, ip), ip, req.ports, req.key)
  }

  ghost function Assign(l: Ledger, svc: string, ip: Ip, req: Request): Ledger {
    if Admits(l, svc, ip, req) then l.(allocs := l.allocs[svc := NewAlloc(l, ip, req)]) else l
  }

  function Unassign(l: Ledger, svc: string): Ledger {
    l.(allocs := l.allocs - {svc})
  }

  ghost predicate PoolsFit(al: Allocations, pools: PoolMap) {
    forall s :: s in al ==> PoolFor(pools, al[s].ip) != ""
  }

  ghost function Rehomed(al: Allocations, pools: PoolMap): Allocations {
    map s | s in al :: al[s].(pool := PoolFor(pools, al[s].ip))
  }

  ghost function SetPools(l: Ledger, pools: PoolMap): Ledger {
    if PoolsFit(l.allocs, pools) then Ledger(pools, Rehomed(l.allocs, pools)) else l
  }

  // ---------- Invariance ----------

  lemma AssignKeepsInv(l: Ledger, svc: string, ip: Ip, req: Request)
    requires Inv(l) && GoodPorts(req.ports)
    ensures Inv(Assign(l, svc, ip, req))
  {
    if Admits(l, svc, ip, req) {
      var l' := Assign(l, svc, ip, req);
      var al, al' := l.allocs, l'.allocs;
      forall s, t | s in al' && t in al' && s != t && al'[s].ip == al'[t].ip
        ensures Shares(al'[s], Asks(al'[t]))
      {
        if s != svc && t != svc {
          assert Shares(al[s], Asks(al[t]));
        } else {
          var o := if s == svc then t else s;
          assert Shares(al[o], req);
        }
      }
    }
  }

  lemma UnassignKeepsInv(l: Ledger, svc: string)
    requires Inv(l)
    ensures Inv(Unassign(l, svc))
  {
  }

  /** `SetPools` is all or nothing, and only the recorded pools move. */
  lemma SetPoolsKeepsInv(l: Ledger, pools: PoolMap)
    requires Inv(l) && GoodPools(pools)
    ensures Inv(SetPools(l, pools))
    ensures SetPools(l, pools) == l || SetPools(l, pools).pools == pools
    ensures SetPools(l, pools).allocs.Keys == l.allocs.Keys
    ensures forall s :: s in l.allocs ==>
                          var a, a' := l.allocs[s], SetPools(l, pools).allocs[s];
                          a'.ip == a.ip && Asks(a') == Asks(a)
  {
    if PoolsFit(l.allocs, pools) {
      var al, al' := l.allocs, Rehomed(l.allocs, pools);
      forall s, t | s in al' && t in al' && s != t && al'[s].ip == al'[t].ip
        ensures Shares(al'[s], Asks(al'[t]))
      {
        assert Shares(al[s], Asks(al[t]));
      }
    }
  }

  // ---------- Searching a pool ----------

  /** May svc take ip when its pool p is searched? */
  ghost predicate Candidate(l: Ledger, svc: string, p: Pool, ip: Ip, req: Request) {
    !(p.avoidBuggy && Buggy(ip)) && Admits(l, svc, ip, req)
  }

  /** The first candidate among the addresses n, n+1, ... below end. */
  ghost function ScanRange(l: Ledger, svc: string, p: Pool, fam: Family, n: nat, end: nat, req: Request): Option<Ip>
    decreases end - n
  {
    if n >= end then None
    else if Candidate(l, svc, p, Ip(fam, n), req) then Some(Ip(fam, n))
    else ScanRange(l, svc, p, fam, n + 1, end, req)
  }

  ghost function ScanCidr(l: Ledger, svc: string, p: Pool, c: Cidr, req: Request): Option<Ip> {
    ScanRange(l, svc, p, c.fam, c.base, c.base + Size(c), req)
  }

  ghost function ScanPool(l: Ledger, svc: string, p: Pool, cidrs: seq<Cidr>, req: Request): Option<Ip> {
    if cidrs == [] then None
    else
      var r := ScanCidr(l, svc, p, cidrs[0], req);
      if r.Some? then r else ScanPool(l, svc, p, cidrs[1..], req)
  }

  /** The first fit over the auto-assignable pools, in a given order. */
  ghost function ScanPools(l: Ledger, svc: string, order: seq<string>, req: Request): Option<Ip>
    requires forall n :: n in order ==> n in l.pools
  {
    if order == [] then None
    else
      var p := l.pools[order[0]];
      var r := if p.autoAssign then ScanPool(l, svc, p, p.cidrs, req) else None;
      if r.Some? then r else ScanPools(l, svc, order[1..], req)
  }

  lemma {:induction false} ScanRangeExact(l: Ledger, svc: string, p: Pool, fam: Family, n: nat, end: nat, req: Request)
    ensures var r := ScanRange(l, svc, p, fam, n, end, req);
            match r
            case Some(ip) => ip.fam == fam && n <= ip.n < end && Candidate(l, svc, p, ip, req)
            case None => forall x: nat :: n <= x < end ==> !Candidate(l, svc, p, Ip(fam, x), req)
    decreases end - n
  {
    hide Candidate;
    if n < end && !Candidate(l, svc, p, Ip(fam, n), req) {
      ScanRangeExact(l, svc, p, fam, n + 1, end, req);
    }
  }

  lemma {:induction false} ScanPoolExact(l: Ledger, svc: string, p: Pool, cidrs: seq<Cidr>, req: Request)
    requires AllAligned(cidrs)
    ensures match ScanPool(l, svc, p, cidrs, req)
            case Some(ip) => Candidate(l, svc, p, ip, req) && exists i :: 0 <= i < |cidrs| && Contains(cidrs[i], ip)
            case None => forall ip, i :: 0 <= i < |cidrs| && Contains(cidrs[i], ip) ==> !Candidate(l, svc, p, ip, req)
  {
    hide Candidate, Contains;
    if cidrs != [] {
      var c := cidrs[0];
      ScanRangeExact(l, svc, p, c.fam, c.base, c.base + Size(c), req);
      match ScanCidr(l, svc, p, c, req)
      case Some(ip) =>
        ContainsInterval(c, ip);
        assert Contains(cidrs[0], ip);
      case None =>
        ScanPoolExact(l, svc, p, cidrs[1..], req);
        forall ip, i | 0 <= i < |cidrs| && Contains(cidrs[i], ip) && (i == 0 || ScanPool(l, svc, p, cidrs, req).None?)
          ensures !Candidate(l, svc, p, ip, req)
        {
          ContainsInterval(c, ip);
          assert ip == Ip(ip.fam, ip.n);
          assert i > 0 ==> cidrs[1..][i - 1] == cidrs[i];
        }
        if ip :| ScanPool(l, svc, p, cidrs[1..], req) == Some(ip) {
          var i :| 0 <= i < |cidrs[1..]| && Contains(cidrs[1..][i], ip);
          assert Contains(cidrs[i + 1], ip);
        }
    }
  }

  /** Some address of pool n may be given to svc. */
  ghost predicate HasRoom(l: Ledger, svc: string, n: string, req: Request) {
    n in l.pools && exists ip :: InPool(l.pools[n], ip) && Compatible(l.allocs, svc, ip, req)
  }

  lemma CandidateInPool(l: Ledger, svc: string, n: string, ip: Ip, req: Request)
    requires GoodPools(l.pools) && n in l.pools && InPool(l.pools[n], ip)
    ensures PoolFor(l.pools, ip) == n
    ensures Candidate(l, svc, l.pools[n], ip, req) <==> Compatible(l.allocs, svc, ip, req)
  {
    OwnerUnique(l.pools, n, ip);
  }

  /** The search is sound and complete: it answers a permitted address of the pool, and it
      answers nothing only when the pool has no such address. */
  lemma PoolSearchExact(l: Ledger, svc: string, n: string, req: Request)
    requires GoodPools(l.pools) && n in l.pools
    ensures match ScanPool(l, svc, l.pools[n], l.pools[n].cidrs, req)
            case Some(ip) => InPool(l.pools[n], ip) && PoolFor(l.pools, ip) == n && Admits(l, svc, ip, req)
            case None => !HasRoom(l, svc, n, req)
  {
    var p := l.pools[n];
    ScanPoolExact(l, svc, p, p.cidrs, req);
    match ScanPool(l, svc, p, p.cidrs, req)
    case Some(ip) =>
      CandidateInPool(l, svc, n, ip, req);
    case None =>
      if HasRoom(l, svc, n, req) {
        var ip :| InPool(p, ip) && Compatible(l.allocs, svc, ip, req);
        CandidateInPool(l, svc, n, ip, req);
      }
  }

  /** The search over all pools fails exactly when no auto-assignable pool has room,
      whatever the order in which the pools are visited. */
  lemma {:induction false} AllPoolsSearchExact(l: Ledger, svc: string, order: seq<string>, req: Request)
    requires GoodPools(l.pools) && forall n :: n in order ==> n in l.pools
    ensures match ScanPools(l, svc, order, req)
            case Some(ip) =>
              var n := PoolFor(l.pools, ip);
              Admits(l, svc, ip, req) && n in order && l.pools[n].autoAssign && InPool(l.pools[n], ip)
            case None => forall n :: n in order && l.pools[n].autoAssign ==> !HasRoom(l, svc, n, req)
  {
    if order != [] {
      PoolSearchExact(l, svc, order[0], req);
      AllPoolsSearchExact(l, svc, order[1..], req);
    }
  }
}
