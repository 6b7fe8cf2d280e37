/** What convergence gives to a service, from the service and the ledger before the call alone. */
module Convergence {
  import opened Net
  import opened Config
  import opened Ledgers
  import opened ControllerSpec
  import A = AllocatorSpec

  /** The service keeps the only address in its status: it is still allowed, and the user names
      no address or names this one, spelled as the controller prints it. */
  ghost predicate Keeps(t: Text, l: Ledger, key: string, svc: Service, ip: Ip) {
    && |svc.ingress| == 1 && t.parse(svc.ingress[0].ip) == Some(ip)
    && Admits(l, key, ip, svc.req)
    && (svc.lbIp == "" || svc.lbIp == t.print_(ip))
  }

  /** The service may have the address: the others leave it, and it is the one the user names,
      or lies in the pool the user names, or in a pool for everyone. */
  ghost predicate Grants(t: Text, l: Ledger, key: string, svc: Service, ip: Ip) {
    && Admits(l, key, ip, svc.req)
    && if svc.lbIp != "" then t.parse(svc.lbIp) == Some(ip)
       else if svc.desiredPool != "" then PoolFor(l.pools, ip) == svc.desiredPool
       else l.pools[PoolFor(l.pools, ip)].autoAssign
  }

  ghost predicate KeepsOne(t: Text, l: Ledger, key: string, svc: Service) {
    exists ip :: Keeps(t, l, key, svc, ip)
  }

  ghost predicate GrantsOne(t: Text, l: Ledger, key: string, svc: Service) {
    exists ip :: Grants(t, l, key, svc, ip)
  }

  // ---------- The stages ----------

  lemma StagesExact(t: Text, l: Ledger, key: string, svc: Service)
    ensures var q := Requested(t, Reclaimed(t, l, key, svc), key);
      && (q.ip.Some? <==> KeepsOne(t, l, key, svc))
      && (q.ip.Some? ==> Keeps(t, l, key, svc, q.ip.value) && q == Progress(Assign(l, key, q.ip.value, svc.req), svc, q.ip))
      && (q.ip.None? ==> q == Progress(Unassign(l, key), Cleared(svc), None))
  {
    hide Admits, Assign;
    var q := Requested(t, Reclaimed(t, l, key, svc), key);
    if q.ip.None? {
      ClearedIs(t, l, key, svc);
    } else {
      assert Keeps(t, l, key, svc, q.ip.value);
    }
    if ip :| Keeps(t, l, key, svc, ip) {
      assert Claimed(t, svc) == Some(ip);
    }
  }

  lemma ClearedIs(t: Text, l: Ledger, n: string, svc: Service)
    requires Requested(t, Reclaimed(t, l, n, svc), n).ip.None?
    ensures Requested(t, Reclaimed(t, l, n, svc), n) == Progress(Unassign(l, n), Cleared(svc), None)
  {
    hide Admits;
    assert (l.allocs - {n}) - {n} == l.allocs - {n};
    var ip := Claimed(t, svc);
    if ip.Some? {
      assert l.allocs[n := NewAlloc(l, ip.value, svc.req)] - {n} == l.allocs - {n};
    }
  }

  lemma InPoolChosen(t: Text, l: Ledger, key: string, svc: Service, order: seq<string>, ip: Ip)
    requires GoodPools(l.pools) && key !in l.allocs && A.Enumerates(order, l.pools.Keys)
    requires svc.lbIp == "" && svc.desiredPool != ""
    ensures var r := Chosen(t, l, key, svc, order);
      (r.Some? ==> Grants(t, l, key, svc, r.value)) && (r.None? ==> !Grants(t, l, key, svc, ip))
  {
    hide GoodPools, HasRoom, InPool, A.Enumerates, Compatible;
    var n := svc.desiredPool;
    if n in l.pools {
      PoolSearchExact(l, key, n, svc.req);
    }
    if Grants(t, l, key, svc, ip) {
      RoomWitness(l, key, n, ip, svc.req);
    }
  }

  lemma AnywhereChosen(t: Text, l: Ledger, key: string, svc: Service, order: seq<string>, ip: Ip)
    requires GoodPools(l.pools) && key !in l.allocs && A.Enumerates(order, l.pools.Keys)
    requires svc.lbIp == "" && svc.desiredPool == ""
    ensures var r := Chosen(t, l, key, svc, order);
      (r.Some? ==> Grants(t, l, key, svc, r.value)) && (r.None? ==> !Grants(t, l, key, svc, ip))
  {
    hide GoodPools, HasRoom, InPool, Compatible, ScanPools;
    AllPoolsSearchExact(l, key, order, svc.req);
    if Grants(t, l, key, svc, ip) {
      RoomWitness(l, key, PoolFor(l.pools, ip), ip, svc.req);
    }
  }

  /** The choice is sound and complete. */
  lemma ChosenExact(t: Text, l: Ledger, key: string, svc: Service, order: seq<string>)
    requires GoodPools(l.pools) && key !in l.allocs && A.Enumerates(order, l.pools.Keys)
    ensures match Chosen(t, l, key, svc, order)
      case Some(ip) => Grants(t, l, key, svc, ip)
      case None => !GrantsOne(t, l, key, svc)
  {
    hide GoodPools, Chosen, A.Enumerates, Grants;
    var r := Chosen(t, l, key, svc, order);
    if r.Some? {
      ChosenOne(t, l, key, svc, order, r.value);
    } else if ip :| Grants(t, l, key, svc, ip) {
      ChosenOne(t, l, key, svc, order, ip);
    }
  }

  lemma ChosenOne(t: Text, l: Ledger, key: string, svc: Service, order: seq<string>, ip: Ip)
    requires GoodPools(l.pools) && key !in l.allocs && A.Enumerates(order, l.pools.Keys)
    ensures var r := Chosen(t, l, key, svc, order);
      (r.Some? ==> Grants(t, l, key, svc, r.value)) && (r.None? ==> !Grants(t, l, key, svc, ip))
  {
    hide GoodPools, Admits, A.Enumerates;
    if svc.lbIp == "" && svc.desiredPool != "" {
      InPoolChosen(t, l, key, svc, order, ip);
    } else if svc.lbIp == "" {
      AnywhereChosen(t, l, key, svc, order, ip);
    }
  }

  /** What may be granted does not depend on what the service itself holds. */
  lemma GrantsElsewhere(t: Text, l: Ledger, l': Ledger, key: string, svc: Service, svc': Service)
    requires OthersKept(l, l', key) && svc'.(ingress := []) == svc.(ingress := [])
    ensures forall ip :: Grants(t, l', key, svc', ip) <==> Grants(t, l, key, svc, ip)
  {
    hide Admits, PoolFor;
    forall ip
      ensures Admits(l', key, ip, svc'.req) <==> Admits(l, key, ip, svc.req)
    {
      AdmitsElsewhere(l, l', key, ip, svc.req);
    }
  }

  // ---------- The whole of it ----------

  /** A service has an address after convergence exactly if it is a load balancer that keeps the
      one in its status or, once the controller is synchronised, can be granted one. It is then
      one of those, held with the ports and the keys of the request. Convergence waits exactly if
      there is nothing to keep and the controller is not synchronised. */
  lemma ConvergeExact(t: Text, synced: bool, l: Ledger, key: string, svc: Service, order: seq<string>)
    requires Inv(l) && GoodPorts(svc.req.ports) && A.Enumerates(order, l.pools.Keys)
    ensures var o := Converge(t, synced, l, key, svc, order);
      && var lb := svc.kind == "LoadBalancer";
      && (o.done <==> !lb || KeepsOne(t, l, key, svc) || synced)
      && o.svc == svc.(ingress := if key in o.l.allocs then [Ingress(t.print_(o.l.allocs[key].ip), "")] else [])
      && (key in o.l.allocs <==> lb && (KeepsOne(t, l, key, svc) || (synced && GrantsOne(t, l, key, svc))))
      && (key in o.l.allocs ==>
            var a := o.l.allocs[key];
            && a == Alloc(PoolFor(l.pools, a.ip), a.ip, svc.req.ports, svc.req.key)
            && if KeepsOne(t, l, key, svc) then Keeps(t, l, key, svc, a.ip) else Grants(t, l, key, svc, a.ip))
  {
    hide GoodPools, Sane, Homed, GoodPorts, A.Enumerates, Reclaimed, Requested, Chosen, KeepsOne, Keeps, Grants, Admits,
         PoolFor;
    ConvergeAgrees(t, synced, l, key, svc, order);
    if svc.kind == "LoadBalancer" {
      StagesExact(t, l, key, svc);
      var q := Requested(t, Reclaimed(t, l, key, svc), key);
      if q.ip.Some? {
        KeptIn(t, l, key, svc, q.ip.value);
      } else if synced {
        ChosenExact(t, q.l, key, q.svc, order);
        ClearOthers(l, key);
        SameGrants(t, l, key, svc);
        var r := Chosen(t, q.l, key, q.svc, order);
        if r.Some? {
          GrantedIn(t, q.l, key, q.svc, r.value);
          assert Grants(t, l, key, svc, r.value);
        }
      }
    }
  }

  lemma KeptIn(t: Text, l: Ledger, key: string, svc: Service, ip: Ip)
    requires Keeps(t, l, key, svc, ip)
    ensures Assign(l, key, ip, svc.req) == l.(allocs := l.allocs[key := NewAlloc(l, ip, svc.req)])
  {
    hide Admits;
  }

  lemma GrantedIn(t: Text, l: Ledger, key: string, svc: Service, ip: Ip)
    requires Grants(t, l, key, svc, ip)
    ensures Assign(l, key, ip, svc.req) == l.(allocs := l.allocs[key := NewAlloc(l, ip, svc.req)])
  {
    hide Admits;
  }

  lemma SameGrants(t: Text, l: Ledger, key: string, svc: Service)
    ensures forall ip :: Grants(t, Unassign(l, key), key, Cleared(svc), ip) <==> Grants(t, l, key, svc, ip)
    ensures GrantsOne(t, Unassign(l, key), key, Cleared(svc)) <==> GrantsOne(t, l, key, svc)
  {
    hide Grants;
    ClearOthers(l, key);
    GrantsElsewhere(t, l, Unassign(l, key), key, svc, Cleared(svc));
    if ip :| Grants(t, l, key, svc, ip) {
      assert Grants(t, Unassign(l, key), key, Cleared(svc), ip);
    }
  }

  // ---------- Pools ----------

  /** A synchronised load balancer that names no address and keeps none is given one of the pool
      it asks for, and none exactly if that pool has no room; if it asks for no pool, one of an
      auto-assigned pool, and none exactly if no such pool has room. */
  lemma PoolHonoured(t: Text, l: Ledger, key: string, svc: Service, order: seq<string>)
    requires Inv(l) && GoodPorts(svc.req.ports) && A.Enumerates(order, l.pools.Keys)
    requires svc.kind == "LoadBalancer" && svc.lbIp == "" && !KeepsOne(t, l, key, svc)
    ensures var o := Converge(t, true, l, key, svc, order);
      if svc.desiredPool != "" then
        && (key in o.l.allocs <==> HasRoom(l, key, svc.desiredPool, svc.req))
        && (key in o.l.allocs ==> o.l.allocs[key].pool == svc.desiredPool)
      else
        && (key in o.l.allocs <==> exists n :: n in l.pools && l.pools[n].autoAssign && HasRoom(l, key, n, svc.req))
        && (key in o.l.allocs ==> o.l.allocs[key].pool in l.pools && l.pools[o.l.allocs[key].pool].autoAssign)
  {
    hide GoodPools, Sane, Homed, GoodPorts, A.Enumerates, Converge, HasRoom, KeepsOne, Admits, PoolFor;
    ConvergeExact(t, true, l, key, svc, order);
    var o := Converge(t, true, l, key, svc, order);
    if key in o.l.allocs {
      GrantRoom(t, l, key, svc, o.l.allocs[key].ip);
    }
    if svc.desiredPool != "" {
      if HasRoom(l, key, svc.desiredPool, svc.req) {
        RoomKnown(l, key, svc.desiredPool, svc.req);
        RoomGrants(t, l, key, svc, svc.desiredPool);
      }
    } else if n :| n in l.pools && l.pools[n].autoAssign && HasRoom(l, key, n, svc.req) {
      RoomGrants(t, l, key, svc, n);
    }
  }

  lemma RoomKnown(l: Ledger, key: string, n: string, req: Request)
    requires HasRoom(l, key, n, req)
    ensures n in l.pools
  {
  }

  lemma GrantRoom(t: Text, l: Ledger, key: string, svc: Service, ip: Ip)
    requires Grants(t, l, key, svc, ip)
    ensures PoolFor(l.pools, ip) in l.pools && HasRoom(l, key, PoolFor(l.pools, ip), svc.req)
  {
    RoomWitness(l, key, PoolFor(l.pools, ip), ip, svc.req);
  }

  lemma RoomGrants(t: Text, l: Ledger, key: string, svc: Service, n: string)
    requires GoodPools(l.pools) && svc.lbIp == "" && n in l.pools && HasRoom(l, key, n, svc.req)
    requires if svc.desiredPool != "" then n == svc.desiredPool else l.pools[n].autoAssign
    ensures GrantsOne(t, l, key, svc)
  {
    hide GoodPools, InPool, Compatible;
    var ip :| InPool(l.pools[n], ip) && Compatible(l.allocs, key, ip, svc.req);
    OwnerUnique(l.pools, n, ip);
    assert n != "" by { NamedPool(l.pools, n); }
    assert Grants(t, l, key, svc, ip);
  }

  lemma NamedPool(pools: PoolMap, n: string)
    requires GoodPools(pools) && n in pools
    ensures n != ""
  {
  }
}
