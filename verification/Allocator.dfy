/** The allocator object (internal/allocator/allocator.go). Its methods work on the indexes,
    as the program does; their contracts speak of the ledger. */
module Allocators {
  import opened Net
  import opened Config
  import opened Ledgers
  import opened Indexes
  import opened AllocatorSpec

  /** `poolFor`: visits the pools in any order and stops at the first that owns ip. */
  method FindPool(pools: PoolMap, ip: Ip) returns (name: string)
    requires GoodPools(pools)
    ensures name == PoolFor(pools, ip)
  {
    hide GoodPools, Contains;
    var todo := pools.Keys;
    while todo != {}
      invariant todo <= pools.Keys
      invariant forall n :: n in pools && n !in todo ==> !InPool(pools[n], ip)
      decreases todo
    {
      var n :| n in todo;
      todo := todo - {n};
      if !(pools[n].avoidBuggy && Buggy(ip)) {
        for i := 0 to |pools[n].cidrs|
          invariant forall k :: 0 <= k < i ==> !Contains(pools[n].cidrs[k], ip)
        {
          if Contains(pools[n].cidrs[i], ip) {
            OwnerUnique(pools, n, ip);
            return n;
          }
        }
      }
    }
    return "";
  }

  class Allocator {
    var pools: PoolMap
    var allocs: Allocations
    var sharingKeyForIp: map<Ip, Key>
    var portsInUse: map<Ip, map<Port, string>>
    var servicesOnIp: map<Ip, set<string>>
    var poolIpsInUse: map<string, map<Ip, int>>
    var poolServices: map<string, int>

    ghost function Accounts(): Ledger
      reads this
    {
      Ledger(pools, allocs)
    }

    ghost function View(): State
      reads this
    {
      State(Accounts(), Index(sharingKeyForIp, portsInUse, servicesOnIp, poolIpsInUse, poolServices))
    }

    ghost predicate Valid()
      reads this
    {
      Sound(View()) && Inv(Accounts())
    }

    constructor ()
      ensures Valid() && View() == INITIAL
    {
      pools, allocs, sharingKeyForIp := map[], map[], map[];
      portsInUse, servicesOnIp, poolIpsInUse, poolServices := map[], map[], map[], map[];
      new;
      InitialSound();
    }

    /** Frees the address of svc, if any. The port loop's panic is not reached. */
    method Unassign(svc: string) returns (found: bool)
      requires Sound(View())
      modifies this
      ensures Some(View()) == Unassigned(old(View()), svc)
      ensures found <==> svc in old(allocs)
      ensures Accounts() == Ledgers.Unassign(old(Accounts()), svc) && Sound(View())
      ensures old(Valid()) ==> Valid()
    {
      hide Coherent, Sane, Inv, AddPorts, RemovePorts, DropIp, Get;
      UnassignRefines(View(), svc);
      KeepsInv(Accounts(), svc);
      if svc !in allocs {
        assert allocs - {svc} == allocs;
        return false;
      }
      var al := allocs[svc];
      allocs := allocs - {svc};
      var left := FreePorts(Get(portsInUse, al.ip, map[]), al.ports, svc);
      assert |left| == 0 <==> left == map[];
      if al.ip in servicesOnIp {
        servicesOnIp := servicesOnIp[al.ip := servicesOnIp[al.ip] - {svc}];
      }
      if |left| == 0 {
        portsInUse := portsInUse - {al.ip};
        sharingKeyForIp := sharingKeyForIp - {al.ip};
      } else {
        portsInUse := portsInUse[al.ip := left];
      }
      DropUse(al.pool, al.ip);
      poolServices := poolServices[al.pool := Get(poolServices, al.pool, 0) - 1];
      return true;
    }

    /** Counts one user of ip less; an address without users is deleted, so that the map's
        size is the number of addresses in use. */
    method DropUse(pool: string, ip: Ip)
      modifies this`poolIpsInUse
      ensures poolIpsInUse == DropIp(old(poolIpsInUse), pool, ip)
    {
      var ips := Get(poolIpsInUse, pool, map[]);
      ips := ips[ip := Get(ips, ip, 0) - 1];
      if ips[ip] == 0 {
        ips := ips - {ip};
      }
      poolIpsInUse := poolIpsInUse[pool := ips];
      assert DropIp(old(poolIpsInUse), pool, ip)[pool] == ips;
    }

    method AddUse(pool: string, ip: Ip)
      modifies this`poolIpsInUse
      ensures poolIpsInUse == BumpIp(old(poolIpsInUse), pool, ip)
    {
      if pool !in poolIpsInUse {
        poolIpsInUse := poolIpsInUse[pool := map[]];
      }
      var ips := poolIpsInUse[pool];
      poolIpsInUse := poolIpsInUse[pool := ips[ip := Get(ips, ip, 0) + 1]];
    }

    /** The internal `assign`: unconditionally records a for svc. */
    method Put(svc: string, a: Alloc)
      requires Sound(View()) && Compatible(allocs, svc, a.ip, Asks(a)) && GoodPorts(a.ports)
      modifies this
      ensures Some(View()) == AllocatorSpec.Put(old(View()), svc, a)
      ensures Accounts() == old(Accounts()).(allocs := old(allocs)[svc := a]) && Sound(View())
    {
      hide Sound, Add, Compatible, GoodPorts, Unassigned;
      PutRefines(View(), svc, a);
      var _ := Unassign(svc);
      Record(svc, a);
    }

    /** What `assign` does once svc has no allocation. */
    method Record(svc: string, a: Alloc)
      modifies this
      ensures pools == old(pools) && allocs == old(allocs)[svc := a]
      ensures View().ix == Add(old(View().ix), svc, a)
    {
      hide AddPorts, BumpIp, Get;
      allocs := allocs[svc := a];
      sharingKeyForIp := sharingKeyForIp[a.ip := a.key];
      RecordPorts(svc, a);
      RecordService(svc, a.ip);
      AddUse(a.pool, a.ip);
      poolServices := poolServices[a.pool := Get(poolServices, a.pool, 0) + 1];
    }

    method RecordPorts(svc: string, a: Alloc)
      modifies this`portsInUse
      ensures portsInUse == old(portsInUse)[a.ip := AddPorts(Get(old(portsInUse), a.ip, map[]), a.ports, svc)]
    {
      if a.ip !in portsInUse {
        portsInUse := portsInUse[a.ip := map[]];
      }
      var used := UsePorts(portsInUse[a.ip], a.ports, svc);
      portsInUse := portsInUse[a.ip := used];
    }

    method RecordService(svc: string, ip: Ip)
      modifies this`servicesOnIp
      ensures servicesOnIp == old(servicesOnIp)[ip := Get(old(servicesOnIp), ip, {}) + {svc}]
    {
      if ip !in servicesOnIp {
        servicesOnIp := servicesOnIp[ip := {}];
      }
      servicesOnIp := servicesOnIp[ip := servicesOnIp[ip] + {svc}];
    }

    /** The checks of `Assign` once the pool is known. */
    method MayShare(svc: string, ip: Ip, req: Request) returns (ok: bool)
      ensures ok <==> (ip in sharingKeyForIp ==>
                         && (SharingOk(sharingKeyForIp[ip], req.key) || forall o :: o in Get(servicesOnIp, ip, {}) ==> o == svc)
                         && PortsFree(View().ix, svc, ip, req.ports))
    {
      if ip in sharingKeyForIp {
        if !SharingOk(sharingKeyForIp[ip], req.key) {
          var otherSvcs: set<string> := {};
          var todo := Get(servicesOnIp, ip, {});
          while todo != {}
            invariant todo <= Get(servicesOnIp, ip, {})
            invariant otherSvcs == set o | o in Get(servicesOnIp, ip, {}) - todo && o != svc
            decreases todo
          {
            var o :| o in todo;
            todo := todo - {o};
            if o != svc {
              otherSvcs := otherSvcs + {o};
            }
          }
          if |otherSvcs| > 0 {
            var o :| o in otherSvcs;
            return false;
          }
          assert forall o :: o in Get(servicesOnIp, ip, {}) && o != svc ==> o in otherSvcs;
        }
        var owners := Get(portsInUse, ip, map[]);
        for i := 0 to |req.ports|
          invariant forall k :: 0 <= k < i ==> req.ports[k] in owners ==> owners[req.ports[k]] == svc
        {
          if req.ports[i] in owners && owners[req.ports[i]] != svc {
            return false;
          }
        }
      }
      return true;
    }

    /** Gives ip to svc exactly when the index-free rule admits it; failure changes nothing. */
    method Assign(svc: string, ip: Ip, req: Request) returns (ok: bool)
      requires Valid() && GoodPorts(req.ports)
      modifies this
      ensures Valid()
      ensures ok <==> Admits(old(Accounts()), svc, ip, req)
      ensures Accounts() == Ledgers.Assign(old(Accounts()), svc, ip, req)
      ensures !ok ==> View() == old(View())
    {
      hide Coherent, Sane, GoodPools, Compatible, Homed, GoodPorts, PortsFree, SharingOk;
      ghost var s := View();
      CheckExact(s, svc, ip, req);
      AssignKeepsInv(s.l, svc, ip, req);
      var pool := FindPool(pools, ip);
      if pool == "" {
        return false;
      }
      var may := MayShare(svc, ip, req);
      if !may {
        return false;
      }
      Put(svc, Alloc(pool, ip, req.ports, req.key));
      return true;
    }

    /** Replaces the pools: all or nothing, with the services visited in any order. */
    method SetPools(newPools: PoolMap) returns (ok: bool)
      requires Valid() && GoodPools(newPools)
      modifies this
      ensures Valid()
      ensures ok <==> PoolsFit(old(allocs), newPools)
      ensures Accounts() == Ledgers.SetPools(old(Accounts()), newPools)
      ensures !ok ==> View() == old(View())
    {
      hide Coherent, GoodPools, Sane, Homed;
      SetPoolsKeepsInv(Accounts(), newPools);
      var todo := allocs.Keys;
      while todo != {}
        invariant todo <= allocs.Keys
        invariant forall s :: s in allocs && s !in todo ==> PoolFor(newPools, allocs[s].ip) != ""
        decreases todo
        modifies {}
      {
        var svc :| svc in todo;
        todo := todo - {svc};
        var name := FindPool(newPools, allocs[svc].ip);
        if name == "" {
          return false;
        }
      }
      ghost var s0 := View();
      ghost var start := s0.(l := s0.l.(pools := newPools));
      pools := newPools;
      MoveServices(start);
      assert PoolsFit(s0.l.allocs, newPools);
      return true;
    }

    /** The second loop of `SetPools`: services whose pool changed are taken out and put back. */
    method MoveServices(ghost start: State)
      requires View() == start && GoodPools(pools) && Sound(start)
      modifies this
      ensures pools == old(pools) && allocs == Rehomed(old(allocs), pools) && Sound(View())
    {
      hide Sound, GoodPools, Moved, MovedAll;
      ghost var order: seq<string> := [];
      var todo := allocs.Keys;
      StartMove(start);
      while todo != {}
        invariant Some(View()) == MovedAll(start, order) && Sound(View())
        invariant pools == old(pools) && allocs.Keys == start.l.allocs.Keys
        invariant todo <= allocs.Keys
        invariant forall s :: s in allocs && s !in todo ==> s in order
        decreases todo
      {
        var svc :| svc in todo;
        todo := todo - {svc};
        MoveOne(svc);
        NextMove(start, order, svc);
        order := order + [svc];
      }
      MoveAllRefines(start, order);
      assert allocs == Rehomed(old(allocs), pools);
    }

    method MoveOne(svc: string)
      requires Sound(View()) && GoodPools(pools) && svc in allocs
      modifies this
      ensures Some(View()) == Moved(old(View()), svc) && Sound(View())
      ensures pools == old(pools) && allocs.Keys == old(allocs.Keys)
    {
      hide Coherent, GoodPools, Unassigned, AllocatorSpec.Put, GoodPorts, Shares;
      MoveRefines(View(), svc);
      var a := allocs[svc];
      var pool := FindPool(pools, a.ip);
      if pool != a.pool {
        MoveAllowed(allocs, svc, pool);
        var _ := Unassign(svc);
        Put(svc, a.(pool := pool));
      }
    }

    /** Searches one pool. For a service without an address the answer is a permitted address
        of that pool, and there is no answer only when the pool has none. */
    method AllocateFromPool(svc: string, poolName: string, req: Request) returns (r: Option<Ip>)
      requires Valid() && GoodPorts(req.ports)
      modifies this
      ensures Valid()
      ensures r == FromPool(old(Accounts()), svc, poolName, req)
      ensures Accounts() == Taken(old(Accounts()), svc, r, req)
      ensures r.None? ==> View() == old(View())
    {
      hide Sound, Inv, GoodPorts, Admits, Ledgers.Assign, ScanPool, ScanCidr;
      ghost var l := Accounts();
      if svc in allocs {
        var ip := allocs[svc].ip;
        var ok := Assign(svc, ip, req);
        return if ok then Some(ip) else None;
      }
      if poolName !in pools {
        return None;
      }
      var pool := pools[poolName];
      for i := 0 to |pool.cidrs|
        invariant View() == old(View()) && Valid()
        invariant ScanPool(l, svc, pool, pool.cidrs, req) == ScanPool(l, svc, pool, pool.cidrs[i..], req)
      {
        ScanPoolUnfold(l, svc, pool, pool.cidrs, i, req);
        r := SearchCidr(svc, pool, pool.cidrs[i], req);
        if r.Some? {
          return;
        }
      }
      ScanPoolUnfold(l, svc, pool, pool.cidrs, |pool.cidrs|, req);
      return None;
    }

    /** The cursor loop over one prefix: tries `Assign` on each address in turn. */
    method SearchCidr(svc: string, pool: Pool, cidr: Cidr, req: Request) returns (r: Option<Ip>)
      requires Valid() && GoodPorts(req.ports)
      modifies this
      ensures Valid()
      ensures r == ScanCidr(old(Accounts()), svc, pool, cidr, req)
      ensures Accounts() == Taken(old(Accounts()), svc, r, req)
      ensures r.None? ==> View() == old(View())
    {
      hide Sound, Inv, GoodPorts, Admits, Ledgers.Assign;
      ghost var l := Accounts();
      var n, end := cidr.base, cidr.base + Size(cidr);
      while n < end
        invariant View() == old(View()) && Valid()
        invariant ScanCidr(l, svc, pool, cidr, req) == ScanRange(l, svc, pool, cidr.fam, n, end, req)
        decreases end - n
      {
        var ip := Ip(cidr.fam, n);
        if !(pool.avoidBuggy && Buggy(ip)) {
          var ok := Assign(svc, ip, req);
          if ok {
            return Some(ip);
          }
        }
        n := n + 1;
      }
      return None;
    }

    /** Searches the auto-assignable pools in the order in which the map is visited. */
    method Allocate(svc: string, req: Request) returns (r: Option<Ip>, ghost order: seq<string>)
      requires Valid() && GoodPorts(req.ports)
      modifies this
      ensures Valid()
      ensures Enumerates(order, old(pools).Keys) && r == FromAnyPool(old(Accounts()), svc, order, req)
      ensures Accounts() == Taken(old(Accounts()), svc, r, req)
      ensures r.None? ==> View() == old(View())
    {
      hide Sound, Inv, GoodPorts, Admits, Ledgers.Assign, ScanPool, ScanPools;
      ghost var l := Accounts();
      order := EnumerationOf(pools.Keys);
      if svc in allocs {
        var ip := allocs[svc].ip;
        var ok := Assign(svc, ip, req);
        r := if ok then Some(ip) else None;
        return;
      }
      ghost var seen: seq<string> := [];
      var todo := pools.Keys;
      ScanPoolsEmpty(l, svc, req);
      while todo != {}
        invariant View() == old(View()) && Valid()
        invariant todo <= pools.Keys
        invariant forall n :: n in pools <==> n in todo || n in seen
        invariant ScanPools(l, svc, seen, req).None?
        decreases todo
      {
        var poolName :| poolName in todo;
        todo := todo - {poolName};
        ScanPoolsSnoc(l, svc, seen, poolName, req);
        seen := seen + [poolName];
        if pools[poolName].autoAssign {
          r := AllocateFromPool(svc, poolName, req);
          if r.Some? {
            order := seen + EnumerationOf(todo);
            ScanPoolsMore(l, svc, seen, EnumerationOf(todo), req);
            return;
          }
        }
      }
      r, order := None, seen;
    }

    /** The pool that owns the address of svc under the current configuration. */
    method PoolOfService(svc: string) returns (name: string)
      requires Valid()
      ensures name == if svc in allocs then allocs[svc].pool else ""
      ensures name == "" || name in pools
    {
      if svc !in allocs {
        return "";
      }
      name := FindPool(pools, allocs[svc].ip);
    }
  }

  ghost function EnumerationOf(all: set<string>): (order: seq<string>)
    ensures Enumerates(order, all)
  {
    if all == {} then [] else
      var x :| x in all;
      [x] + EnumerationOf(all - {x})
  }

  lemma ScanPoolUnfold(l: Ledger, svc: string, p: Pool, cidrs: seq<Cidr>, i: nat, req: Request)
    requires i <= |cidrs|
    ensures i == |cidrs| ==> ScanPool(l, svc, p, cidrs[i..], req) == None
    ensures i < |cidrs| ==>
              var r := ScanCidr(l, svc, p, cidrs[i], req);
              ScanPool(l, svc, p, cidrs[i..], req) == if r.Some? then r else ScanPool(l, svc, p, cidrs[i + 1..], req)
  {
    if i < |cidrs| {
      assert cidrs[i..][1..] == cidrs[i + 1..];
    }
  }

  lemma ScanPoolsEmpty(l: Ledger, svc: string, req: Request)
    ensures ScanPools(l, svc, [], req) == None
  {
  }

  lemma {:induction false} ScanPoolsMore(l: Ledger, svc: string, a: seq<string>, b: seq<string>, req: Request)
    requires forall n :: n in a + b ==> n in l.pools
    ensures (forall n :: n in a ==> n in l.pools) && (forall n :: n in b ==> n in l.pools)
    ensures ScanPools(l, svc, a + b, req)
         == if ScanPools(l, svc, a, req).Some? then ScanPools(l, svc, a, req) else ScanPools(l, svc, b, req)
  {
    hide ScanPool;
    assert forall n :: n in a || n in b ==> n in a + b;
    if a == [] {
      assert a + b == b;
    } else {
      assert (a + b)[1..] == a[1..] + b;
      ScanPoolsMore(l, svc, a[1..], b, req);
    }
  }

  lemma ScanPoolsSnoc(l: Ledger, svc: string, seen: seq<string>, n: string, req: Request)
    requires n in l.pools && forall m :: m in seen ==> m in l.pools
    requires ScanPools(l, svc, seen, req).None?
    ensures ScanPools(l, svc, seen + [n], req)
         == if l.pools[n].autoAssign then ScanPool(l, svc, l.pools[n], l.pools[n].cidrs, req) else None
  {
    hide ScanPool;
    ScanPoolsMore(l, svc, seen, [n], req);
    ScanPoolsEmpty(l, svc, req);
    assert [n][1..] == [];
  }

  /** A service that was lawfully where it is may be put back there under another pool. */
  lemma MoveAllowed(al: Allocations, svc: string, pool: string)
    requires Sane(al) && svc in al
    ensures Compatible(al - {svc}, svc, al[svc].ip, Asks(al[svc].(pool := pool))) && GoodPorts(al[svc].ports)
  {
    forall o | o in al && o != svc && al[o].ip == al[svc].ip
      ensures Shares(al[o], Asks(al[svc].(pool := pool)))
    {
      assert Shares(al[o], Asks(al[svc]));
    }
  }

  lemma StartMove(s: State)
    ensures MovedAll(s, []) == Some(s)
  {
  }

  lemma NextMove(s: State, order: seq<string>, svc: string)
    requires MovedAll(s, order).Some?
    ensures MovedAll(s, order + [svc]) == Moved(MovedAll(s, order).value, svc)
  {
    var all := order + [svc];
    assert all[..|all| - 1] == order;
  }

  method UsePorts(m: map<Port, string>, ports: seq<Port>, svc: string) returns (used: map<Port, string>)
    ensures used == AddPorts(m, ports, svc)
  {
    used := m;
    for i := 0 to |ports|
      invariant used == AddPorts(m, ports[..i], svc)
    {
      assert ports[..i + 1][..i] == ports[..i];
      used := used[ports[i] := svc];
    }
    assert ports[..|ports|] == ports;
  }

  /** The port loop of `Unassign`, where every port is svc's when its turn comes. */
  method FreePorts(m: map<Port, string>, ports: seq<Port>, svc: string) returns (left: map<Port, string>)
    requires RemovePorts(m, ports, svc).Some?
    ensures Some(left) == RemovePorts(m, ports, svc)
  {
    left := m;
    for i := 0 to |ports|
      invariant Some(left) == RemovePorts(m, ports[..i], svc)
    {
      RemovePortsPrefix(m, ports, svc, i);
      var curSvc := Get(left, ports[i], "");
      assert curSvc == svc;
      left := left - {ports[i]};
    }
    assert ports[..|ports|] == ports;
  }

  lemma KeepsInv(l: Ledger, svc: string)
    ensures Inv(l) ==> Inv(Ledgers.Unassign(l, svc))
  {
    if Inv(l) {
      UnassignKeepsInv(l, svc);
    }
  }

  /** A prefix of a port list whose removal succeeds can be removed, and its next port is
      still svc's. */
  lemma {:induction false} RemovePortsPrefix(m: map<Port, string>, ports: seq<Port>, svc: string, i: nat)
    requires i < |ports| && RemovePorts(m, ports, svc).Some?
    ensures RemovePorts(m, ports[..i + 1], svc).Some? && ports[..i + 1][..i] == ports[..i]
    decreases |ports| - i
  {
    if i + 1 == |ports| {
      assert ports[..i + 1] == ports;
    } else {
      RemovePortsPrefix(m, ports, svc, i + 1);
      assert ports[..i + 2][..i + 1] == ports[..i + 1];
    }
  }
}
