/** What every public call of the allocator does in every run, said of pools and allocations
    without the rules' own names. */
module AllocatorMeaning {
  import opened Net
  import opened Config
  import opened Ledgers
  import opened AllocatorSpec

  /** The address is in some pool, and whoever else has it has the same keys, a sharing key among
      them, and none of the ports. */
  ghost predicate Free(l: Ledger, svc: string, ip: Ip, req: Request) {
    && (exists n :: n in l.pools && InPool(l.pools[n], ip))
    && forall o :: o in l.allocs && o != svc && l.allocs[o].ip == ip ==>
         && l.allocs[o].key == req.key && req.key.sharing != ""
         && forall p :: p in l.allocs[o].ports ==> p !in req.ports
  }

  /** The service now has the address, from the pool around it, with what it asked for; nothing
      else has changed. */
  ghost predicate Given(l: Ledger, l': Ledger, svc: string, ip: Ip, req: Request) {
    && l'.pools == l.pools
    && exists n :: n in l.pools && InPool(l.pools[n], ip) && l'.allocs == l.allocs[svc := Alloc(n, ip, req.ports, req.key)]
  }

  ghost predicate GivenIfFree(l: Ledger, l': Ledger, svc: string, ip: Ip, req: Request) {
    if Free(l, svc, ip, req) then Given(l, l', svc, ip, req) else l' == l
  }

  /** Some free address of such a pool is given, and nothing changes only if there is none. */
  ghost predicate GivenFrom(l: Ledger, l': Ledger, svc: string, names: iset<string>, req: Request) {
    || (exists n, ip :: n in names && n in l.pools && InPool(l.pools[n], ip) && Free(l, svc, ip, req)
                        && Given(l, l', svc, ip, req))
    || (l' == l && forall n, ip :: n in names && n in l.pools && InPool(l.pools[n], ip) ==> !Free(l, svc, ip, req))
  }

  ghost predicate Released(l: Ledger, l': Ledger, svc: string) {
    && l'.pools == l.pools && svc !in l'.allocs
    && forall o :: o != svc ==> (o in l'.allocs <==> o in l.allocs) && (o in l.allocs ==> l'.allocs[o] == l.allocs[o])
  }

  /** Every address is in some new pool: the pools are replaced, and every service keeps all but
      the name of its pool. Otherwise nothing changes. */
  ghost predicate Replaced(l: Ledger, l': Ledger, pools: PoolMap) {
    if forall o :: o in l.allocs ==> exists n :: n in pools && InPool(pools[n], l.allocs[o].ip) then
      && l'.pools == pools && l'.allocs.Keys == l.allocs.Keys
      && forall o :: o in l.allocs ==>
           && l'.allocs[o] == l.allocs[o].(pool := l'.allocs[o].pool)
           && l'.allocs[o].pool in pools && InPool(pools[l'.allocs[o].pool], l.allocs[o].ip)
    else l' == l
  }

  ghost function AutoPools(l: Ledger): iset<string> {
    iset n | n in l.pools && l.pools[n].autoAssign
  }

  ghost predicate Means(l: Ledger, l': Ledger, e: Event) {
    match e
    case EvAssign(svc, ip, req) => GivenIfFree(l, l', svc, ip, req)
    case EvUnassign(svc) => Released(l, l', svc)
    case EvSetPools(pools, order) => if Visits(order, l.allocs.Keys) then Replaced(l, l', pools) else l' == l
    case EvAllocateFromPool(svc, pool, req) =>
      if svc in l.allocs then GivenIfFree(l, l', svc, l.allocs[svc].ip, req) else GivenFrom(l, l', svc, iset{pool}, req)
    case EvAllocate(svc, order, req) =>
      if !Enumerates(order, l.pools.Keys) then l' == l
      else if svc in l.allocs then GivenIfFree(l, l', svc, l.allocs[svc].ip, req)
      else GivenFrom(l, l', svc, AutoPools(l), req)
  }

  // ---------- The rules ----------

  lemma OwnerExists(pools: PoolMap, ip: Ip)
    requires GoodPools(pools)
    ensures PoolFor(pools, ip) != "" <==> exists n :: n in pools && InPool(pools[n], ip)
  {
    hide InPool;
    if n :| n in pools && InPool(pools[n], ip) {
      OwnerUnique(pools, n, ip);
    }
  }

  lemma FreeExact(l: Ledger, svc: string, ip: Ip, req: Request)
    requires GoodPools(l.pools)
    ensures Free(l, svc, ip, req) <==> Admits(l, svc, ip, req)
  {
    hide GoodPools, InPool, PoolFor;
    OwnerExists(l.pools, ip);
    forall o | o in l.allocs
      ensures Shares(l.allocs[o], req) <==>
        && l.allocs[o].key == req.key && req.key.sharing != ""
        && forall p :: p in l.allocs[o].ports ==> p !in req.ports
    {
    }
  }

  lemma GivenExact(l: Ledger, svc: string, ip: Ip, req: Request)
    requires GoodPools(l.pools)
    ensures GivenIfFree(l, Assign(l, svc, ip, req), svc, ip, req)
  {
    hide GoodPools, InPool, Free;
    FreeExact(l, svc, ip, req);
  }

  lemma FromPoolMeans(l: Ledger, svc: string, pool: string, req: Request)
    requires GoodPools(l.pools) && svc !in l.allocs
    ensures GivenFrom(l, Taken(l, svc, FromPool(l, svc, pool, req), req), svc, iset{pool}, req)
  {
    hide GoodPools, InPool, Free, Given, ScanPool, HasRoom, Assign;
    var r := FromPool(l, svc, pool, req);
    if pool in l.pools {
      PoolSearchExact(l, svc, pool, req);
    }
    if r.Some? {
      FreeExact(l, svc, r.value, req);
      GivenExact(l, svc, r.value, req);
    } else {
      forall ip | pool in l.pools && InPool(l.pools[pool], ip)
        ensures !Free(l, svc, ip, req)
      {
        FreeExact(l, svc, ip, req);
        NoRoom(l, svc, pool, ip, req);
      }
    }
  }

  lemma NoRoom(l: Ledger, svc: string, n: string, ip: Ip, req: Request)
    requires n in l.pools && InPool(l.pools[n], ip) && !HasRoom(l, svc, n, req)
    ensures !Admits(l, svc, ip, req)
  {
  }

  lemma FromAnyMeans(l: Ledger, svc: string, order: seq<string>, req: Request)
    requires GoodPools(l.pools) && svc !in l.allocs && Enumerates(order, l.pools.Keys)
    ensures GivenFrom(l, Taken(l, svc, FromAnyPool(l, svc, order, req), req), svc, AutoPools(l), req)
  {
    hide GoodPools, InPool, Free, Given, ScanPools, HasRoom, Assign;
    var r := FromAnyPool(l, svc, order, req);
    AllPoolsSearchExact(l, svc, order, req);
    if r.Some? {
      FreeExact(l, svc, r.value, req);
      GivenExact(l, svc, r.value, req);
    } else {
      forall n, ip | n in AutoPools(l) && InPool(l.pools[n], ip)
        ensures !Free(l, svc, ip, req)
      {
        FreeExact(l, svc, ip, req);
        NoRoom(l, svc, n, ip, req);
      }
    }
  }

  lemma ReplacedExact(l: Ledger, pools: PoolMap)
    requires GoodPools(pools)
    ensures Replaced(l, SetPools(l, pools), pools)
  {
    hide GoodPools, InPool;
    forall o | o in l.allocs
      ensures PoolFor(pools, l.allocs[o].ip) != "" <==> exists n :: n in pools && InPool(pools[n], l.allocs[o].ip)
    {
      OwnerExists(pools, l.allocs[o].ip);
    }
  }

  lemma StepMeans(l: Ledger, e: Event)
    requires GoodPools(l.pools) && Legal(e, GOOD_LISTS)
    ensures Means(l, LedgerStep(l, e), e)
  {
    hide GoodPools, GivenIfFree, GivenFrom, Replaced, Assign, SetPools, ScanPool, ScanPools;
    match e
    case EvAssign(svc, ip, req) => GivenExact(l, svc, ip, req);
    case EvUnassign(svc) =>
    case EvSetPools(pools, order) => ReplacedExact(l, pools);
    case EvAllocateFromPool(svc, pool, req) =>
      if svc in l.allocs {
        AgainMeans(l, svc, req);
      } else {
        FromPoolMeans(l, svc, pool, req);
      }
    case EvAllocate(svc, order, req) =>
      if Enumerates(order, l.pools.Keys) {
        if svc in l.allocs {
          AgainMeans(l, svc, req);
        } else {
          FromAnyMeans(l, svc, order, req);
        }
      }
  }

  lemma AgainMeans(l: Ledger, svc: string, req: Request)
    requires GoodPools(l.pools) && svc in l.allocs
    ensures var ip := l.allocs[svc].ip;
      GivenIfFree(l, Taken(l, svc, if Admits(l, svc, ip, req) then Some(ip) else None, req), svc, ip, req)
  {
    hide GoodPools, Given, Free;
    FreeExact(l, svc, l.allocs[svc].ip, req);
    GivenExact(l, svc, l.allocs[svc].ip, req);
  }

  // ---------- Every run ----------

  /** Services on one address have the same keys, a sharing key among them, and no common port;
      every service is filed under a pool around its address. */
  ghost predicate Lawful(l: Ledger) {
    && (forall s, o :: s in l.allocs && o in l.allocs && s != o && l.allocs[s].ip == l.allocs[o].ip ==>
          && l.allocs[s].key == l.allocs[o].key && l.allocs[s].key.sharing != ""
          && forall p :: p in l.allocs[s].ports ==> p !in l.allocs[o].ports)
    && (forall s :: s in l.allocs ==> l.allocs[s].pool in l.pools && InPool(l.pools[l.allocs[s].pool], l.allocs[s].ip))
  }

  /** In every run of public calls, each call that follows does what it should, and the services
      share addresses lawfully. */
  lemma EveryCallMeans(events: seq<Event>, e: Event)
    requires Legal(e, GOOD_LISTS) && forall e' :: e' in events ==> Legal(e', GOOD_LISTS)
    ensures Run(events).Some? && Run(events + [e]).Some?
    ensures Lawful(Run(events).value.l)
    ensures Means(Run(events).value.l, Run(events + [e]).value.l, e)
  {
    hide Step, LedgerStep, Legal, Means, Run, Sound;
    EveryRun(events);
    EveryRun(events + [e]);
    assert (events + [e])[..|events|] == events;
    var l := LedgerRun(events);
    InvLawful(l);
    assert GoodPools(l.pools);
    StepMeans(l, e);
  }

  lemma InvLawful(l: Ledger)
    requires Inv(l)
    ensures Lawful(l) && GoodPools(l.pools)
  {
    hide GoodPools, InPool;
  }
}
