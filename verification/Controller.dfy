/** The controller object (controller/main.go, controller/service.go). */
module Controllers {
  import opened Net
  import opened Config
  import opened Ledgers
  import opened AllocatorSpec
  import opened Allocators
  import opened ControllerSpec
  import Cluster

  class Controller {
    const t: Text
    const ips: Allocator
    var synced: bool
    var config: Option<PoolMap>

    ghost predicate Valid()
      reads this, ips
    {
      ips.Valid() && (config.Some? ==> ips.pools == config.value)
    }

    constructor (t: Text)
      ensures Valid() && fresh(ips) && ips.View() == INITIAL && this.t == t && !synced && config == None
    {
      this.t := t;
      synced, config := false, None;
      ips := new Allocator();
    }

    /** Clears all fields managed by the controller. */
    method ClearServiceState(key: string, svc: Service) returns (r: Service)
      requires Valid()
      modifies ips
      ensures Valid()
      ensures ips.Accounts() == Unassign(old(ips.Accounts()), key) && r == Cleared(svc)
    {
      hide Sound, Inv;
      var _ := ips.Unassign(key);
      r := svc.(ingress := []);
    }

    /** Only ever called for a service without an allocation. */
    method AllocateIp(key: string, svc: Service) returns (r: Option<Ip>, ghost order: seq<string>)
      requires Valid() && GoodPorts(svc.req.ports) && key !in ips.allocs
      modifies ips
      ensures Valid()
      ensures Enumerates(order, old(ips.pools).Keys) && r == Chosen(t, old(ips.Accounts()), key, svc, order)
      ensures ips.Accounts() == Taken(old(ips.Accounts()), key, r, svc.req)
    {
      hide Sound, Inv, GoodPorts, Admits, FromPool, FromAnyPool;
      order := EnumerationOf(ips.pools.Keys);
      if svc.lbIp != "" {
        var ip := t.parse(svc.lbIp);
        if ip.None? {
          return None, order;
        }
        var ok := ips.Assign(key, ip.value, svc.req);
        return if ok then ip else None, order;
      }
      if svc.desiredPool != "" {
        r := ips.AllocateFromPool(key, svc.desiredPool, svc.req);
        return;
      }
      r, order := ips.Allocate(key, svc.req);
    }

    /** The first half of `convergeBalancer`: is the address in the status still good? */
    method Reclaim(key: string, svc: Service) returns (s: Service, lbIp: Option<Ip>)
      requires Valid() && GoodPorts(svc.req.ports)
      modifies ips
      ensures Valid() && ips.pools == old(ips.pools)
      ensures Progress(ips.Accounts(), s, lbIp) == Requested(t, Reclaimed(t, old(ips.Accounts()), key, svc), key)
    {
      hide Sound, Inv, GoodPorts, Admits;
      s, lbIp := svc, None;
      if |s.ingress| == 1 {
        lbIp := t.parse(s.ingress[0].ip);
      }
      if lbIp.None? {
        s := ClearServiceState(key, s);
      }
      if lbIp.Some? {
        var ok := ips.Assign(key, lbIp.value, s.req);
        if !ok {
          s := ClearServiceState(key, s);
          lbIp := None;
        }
      }
      assert Progress(ips.Accounts(), s, lbIp) == Reclaimed(t, old(ips.Accounts()), key, svc);
      if s.lbIp != "" && s.lbIp != Show(t, lbIp) {
        s := ClearServiceState(key, s);
        lbIp := None;
      }
    }

    /** `convergeBalancer`. The two "internal error" branches are not reached. */
    method ConvergeBalancer(key: string, svc: Service) returns (s: Service, done: bool, ghost order: seq<string>)
      requires Valid() && config.Some? && GoodPorts(svc.req.ports)
      modifies ips
      ensures Valid()
      ensures Enumerates(order, old(ips.pools).Keys)
      ensures Outcome(ips.Accounts(), s, done) == Converge(t, synced, old(ips.Accounts()), key, svc, order)
      ensures s == svc.(ingress := Status(t, ips.Accounts(), key))
    {
      hide Sound, Inv, GoodPorts, Admits, Reclaimed, Requested, Chosen;
      ghost var l := ips.Accounts();
      order := EnumerationOf(ips.pools.Keys);
      ConvergeAgrees(t, synced, l, key, svc, order);
      if svc.kind != "LoadBalancer" {
        s := ClearServiceState(key, svc);
        return s, true, order;
      }
      ReclaimedInHand(t, l, key, svc);
      RequestedInHand(t, Reclaimed(t, l, key, svc), key);
      RequestedKeepsInv(t, Reclaimed(t, l, key, svc), key);
      var lbIp;
      s, lbIp := Reclaim(key, svc);
      if lbIp.None? {
        if !synced {
          return s, false, order;
        }
        ghost var l' := ips.Accounts();
        lbIp, order := AllocateIp(key, s);
        ChosenAdmitted(t, l', key, s, order) by { GoodAccounts(l'); }
        ConvergeAgrees(t, synced, l, key, svc, order);
        if lbIp.None? {
          return s, true, order;
        }
      }
      if lbIp.None? {
        // "didn't allocate an IP but also did not fail"
        assert false;
      }
      var pool := ips.PoolOfService(key);
      if pool == "" || pool !in config.value {
        // "allocated an IP that has no pool"
        assert false by { HomedHere(ips.Accounts(), key); }
      }
      s := s.(ingress := [Ingress(t.print_(lbIp.value), "")]);
      done := true;
    }

    /** The cluster around this controller, given its API objects. */
    ghost function Around(services: map<string, Service>, settled: set<string>): Cluster.World
      reads this, ips
    {
      Cluster.World(ips.Accounts(), config, synced, services, settled)
    }

    /** Processes one service: svcRo is its API object, or None once deleted; writeOk is
        whether a status write would succeed. Answers the object to persist, if it changed. */
    method SetBalancer(name: string, svcRo: Option<Service>, writeOk: bool,
                       ghost services: map<string, Service>, ghost settled: set<string>)
      returns (ok: bool, written: Option<Service>, ghost order: seq<string>)
      requires Valid()
      requires svcRo == if name in services then Some(services[name]) else None
      requires svcRo.Some? ==> GoodPorts(svcRo.value.req.ports)
      modifies ips
      ensures Valid() && Enumerates(order, old(ips.pools).Keys)
      ensures var w := Cluster.Processed(t, old(Around(services, settled)), name, order, writeOk);
              && ips.Accounts() == w.l
              && w.services == (if written.Some? then services[name := written.value] else services)
              && (config.Some? ==> (ok <==> name in w.settled))
    {
      hide Sound, Inv, GoodPorts, Converge;
      order := EnumerationOf(ips.pools.Keys);
      written := None;
      if svcRo.None? {
        var _ := ips.Unassign(name);
        return true, None, order;
      }
      if config.None? {
        return true, None, order;
      }
      var svc, done;
      svc, done, order := ConvergeBalancer(name, svcRo.value);
      if !done {
        return false, None, order;
      }
      if svc == svcRo.value {
        assert services[name := svc] == services;
        return true, None, order;
      }
      if !writeOk {
        return false, None, order;
      }
      return true, Some(svc), order;
    }

    method SetConfig(cfg: Option<PoolMap>) returns (ok: bool)
      requires Valid() && (cfg.Some? ==> GoodPools(cfg.value))
      modifies this`config, ips
      ensures Valid()
      ensures forall services, settled ::
                Around(services, settled) == Cluster.Step(t, old(Around(services, settled)), Cluster.Configure(cfg))
      ensures ok <==> cfg.Some? && PoolsFit(old(ips.allocs), cfg.value)
    {
      hide Sound, Inv, GoodPools, PoolsFit, SetPools;
      if cfg.None? {
        return false;
      }
      ok := ips.SetPools(cfg.value);
      NewPoolsInPlace(old(ips.Accounts()), cfg.value);
      if !ok {
        return false;
      }
      config := cfg;
      return true;
    }

    method MarkSynced()
      requires Valid()
      modifies this`synced
      ensures Valid() && synced
    {
      synced := true;
    }
  }

  lemma NewPoolsInPlace(l: Ledger, pools: PoolMap)
    ensures if PoolsFit(l.allocs, pools) then SetPools(l, pools).pools == pools else SetPools(l, pools) == l
  {
  }

  lemma GoodAccounts(l: Ledger)
    requires Inv(l)
    ensures GoodPools(l.pools)
  {
  }

  lemma HomedHere(l: Ledger, key: string)
    requires Inv(l) && key in l.allocs
    ensures l.allocs[key].pool != "" && l.allocs[key].pool in l.pools
  {
  }
}
