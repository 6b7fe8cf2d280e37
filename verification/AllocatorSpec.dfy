/** The allocator's calls as functions on its indexed state, their refinement of the
    index-free rules, and what holds in every run. None stands for a panic. */
module AllocatorSpec {
  import opened Net
  import opened Config
  import opened Ledgers
  import opened Indexes

  datatype State = State(l: Ledger, ix: Index)

  const INITIAL := State(Ledger(map[], map[]), EMPTY)

  /** Indexes exact, port lists good, neighbours compatible. */
  ghost predicate Sound(s: State) {
    Coherent(s.l.allocs, s.ix) && Sane(s.l.allocs)
  }

  // ---------- The calls ----------

  predicate SharingOk(existing: Key, new_: Key) {
    && existing.sharing != ""
    && new_.sharing != ""
    && existing.sharing == new_.sharing
    && existing.backend == new_.backend
  }

  /** The checks of `Assign`, made on the indexes alone. */
  ghost predicate IndexedCheck(s: State, svc: string, ip: Ip, req: Request) {
    && PoolFor(s.l.pools, ip) != ""
    && (ip in s.ix.sharingKeyForIp ==>
          && (SharingOk(s.ix.sharingKeyForIp[ip], req.key) || forall o :: o in Get(s.ix.servicesOnIp, ip, {}) ==> o == svc)
          && PortsFree(s.ix, svc, ip, req.ports))
  }

  predicate PortsFree(ix: Index, svc: string, ip: Ip, ports: seq<Port>) {
    forall i :: 0 <= i < |ports| ==> var m := Get(ix.portsInUse, ip, map[]); ports[i] in m ==> m[ports[i]] == svc
  }

  function Unassigned(s: State, svc: string): Option<State> {
    if svc !in s.l.allocs then Some(s)
    else match Remove(s.ix, svc, s.l.allocs[svc])
      case None => None
      case Some(ix) => Some(State(Unassign(s.l, svc), ix))
  }

  /** The internal `assign`. */
  function Put(s: State, svc: string, a: Alloc): Option<State> {
    match Unassigned(s, svc)
    case None => None
    case Some(s1) => Some(State(s.l.(allocs := s1.l.allocs[svc := a]), Add(s1.ix, svc, a)))
  }

  ghost function Assigned(s: State, svc: string, ip: Ip, req: Request): Option<State> {
    if IndexedCheck(s, svc, ip, req) then Put(s, svc, NewAlloc(s.l, ip, req)) else Some(s)
  }

  ghost function Moved(s: State, svc: string): Option<State> {
    if svc !in s.l.allocs || s.l.allocs[svc].pool == PoolFor(s.l.pools, s.l.allocs[svc].ip) then Some(s)
    else
      var a := s.l.allocs[svc];
      match Unassigned(s, svc)
      case None => None
      case Some(s1) => Put(s1, svc, a.(pool := PoolFor(s.l.pools, a.ip)))
  }

  /** The second loop of `SetPools`, visiting services in the given order. */
  ghost function MovedAll(s: State, order: seq<string>): Option<State> {
    if order == [] then Some(s)
    else match MovedAll(s, order[..|order| - 1])
      case None => None
      case Some(s1) => Moved(s1, order[|order| - 1])
  }

  ghost function PoolsSet(s: State, pools: PoolMap, order: seq<string>): Option<State> {
    if PoolsFit(s.l.allocs, pools) then MovedAll(s.(l := s.l.(pools := pools)), order) else Some(s)
  }

  /** The address `AllocateFromPool` settles on, if any. */
  ghost function FromPool(l: Ledger, svc: string, pool: string, req: Request): Option<Ip> {
    if svc in l.allocs then
      if Admits(l, svc, l.allocs[svc].ip, req) then Some(l.allocs[svc].ip) else None
    else if pool in l.pools then ScanPool(l, svc, l.pools[pool], l.pools[pool].cidrs, req)
    else None
  }

  ghost function FromAnyPool(l: Ledger, svc: string, order: seq<string>, req: Request): Option<Ip>
    requires forall n :: n in order ==> n in l.pools
  {
    if svc in l.allocs then
      if Admits(l, svc, l.allocs[svc].ip, req) then Some(l.allocs[svc].ip) else None
    else ScanPools(l, svc, order, req)
  }

  /** The ledger after a call that settled on r. */
  ghost function Taken(l: Ledger, svc: string, r: Option<Ip>, req: Request): Ledger {
    match r
    case None => l
    case Some(ip) => Assign(l, svc, ip, req)
  }

  // ---------- Each call refines its index-free rule ----------

  lemma UnassignRefines(s: State, svc: string)
    requires Sound(s)
    ensures Unassigned(s, svc).Some?
    ensures Unassigned(s, svc).value.l == Unassign(s.l, svc)
    ensures Sound(Unassigned(s, svc).value)
  {
    hide Coherent, Sane, Remove;
    var al := s.l.allocs;
    SaneReduced(al, svc);
    if svc in al {
      RemoveCoherent(al, s.ix, svc);
    } else {
      assert al - {svc} == al;
    }
  }

  lemma SaneReduced(al: Allocations, svc: string)
    requires Sane(al)
    ensures PortsGood(al) && Sane(al - {svc})
  {
  }

  lemma SaneExtended(al: Allocations, svc: string, a: Alloc)
    requires Sane(al) && Compatible(al, svc, a.ip, Asks(a)) && GoodPorts(a.ports)
    ensures Sane(al[svc := a])
  {
    var al' := al[svc := a];
    forall x, y | x in al' && y in al' && x != y && al'[x].ip == al'[y].ip
      ensures Shares(al'[x], Asks(al'[y]))
    {
      if x == svc {
        assert Shares(al[y], Asks(a));
      } else if y == svc {
        assert Shares(al[x], Asks(a));
      }
    }
  }

  lemma PutRefines(s: State, svc: string, a: Alloc)
    requires Sound(s) && Compatible(s.l.allocs, svc, a.ip, Asks(a)) && GoodPorts(a.ports)
    ensures Put(s, svc, a).Some?
    ensures Put(s, svc, a).value.l == s.l.(allocs := s.l.allocs[svc := a])
    ensures Sound(Put(s, svc, a).value)
  {
    hide Coherent, Sane, Add, Unassigned, Shares;
    UnassignRefines(s, svc);
    var al := s.l.allocs - {svc};
    AddCoherent(al, Unassigned(s, svc).value.ix, svc, a);
    assert al[svc := a] == s.l.allocs[svc := a];
    SaneExtended(s.l.allocs, svc, a);
  }

  lemma PortsFreeExact(al: Allocations, ix: Index, svc: string, ip: Ip, ports: seq<Port>)
    requires PortsCoherent(al, ix.portsInUse)
    ensures PortsFree(ix, svc, ip, ports) <==>
            forall o, p :: Owns(al, o, ip, p) && o != svc ==> p !in ports
  {
    var m := Get(ix.portsInUse, ip, map[]);
    if PortsFree(ix, svc, ip, ports) {
      forall o, p | Owns(al, o, ip, p) && o != svc
        ensures p !in ports
      {
        assert p in m && m[p] == o;
      }
    } else {
      var i :| 0 <= i < |ports| && ports[i] in m && m[ports[i]] != svc;
      assert Owns(al, m[ports[i]], ip, ports[i]) && ports[i] in ports;
    }
  }

  lemma KeyExact(al: Allocations, ix: Index, svc: string, ip: Ip, key: Key)
    requires KeysCoherent(al, ix.sharingKeyForIp) && Get(ix.servicesOnIp, ip, {}) == On(al, ip)
    ensures ip in ix.sharingKeyForIp <==> On(al, ip) != {}
    ensures ip in ix.sharingKeyForIp ==>
      ((SharingOk(ix.sharingKeyForIp[ip], key) || forall o :: o in Get(ix.servicesOnIp, ip, {}) ==> o == svc)
       <==> forall o :: o in al && o != svc && al[o].ip == ip ==> SharingOk(al[o].key, key))
  {
    if ip in ix.sharingKeyForIp {
      var s :| s in al && al[s].ip == ip;
      assert s in On(al, ip);
    }
    if ip in ix.sharingKeyForIp && !SharingOk(ix.sharingKeyForIp[ip], key) {
      if o :| o in On(al, ip) && o != svc {
        assert !SharingOk(al[o].key, key);
      }
      forall o | o in al && o != svc && al[o].ip == ip
        ensures o in On(al, ip)
      {
      }
    }
  }

  /** The recorded key and port owners answer the sharing question exactly. */
  lemma CheckExact(s: State, svc: string, ip: Ip, req: Request)
    requires Coherent(s.l.allocs, s.ix)
    ensures IndexedCheck(s, svc, ip, req) <==> Admits(s.l, svc, ip, req)
  {
    hide KeysCoherent, PortsCoherent, PoolIpsCoherent, PoolServicesCoherent, PortsFree;
    var al := s.l.allocs;
    KeyExact(al, s.ix, svc, ip, req.key);
    PortsFreeExact(al, s.ix, svc, ip, req.ports);
    if IndexedCheck(s, svc, ip, req) {
      forall o | o in al && o != svc && al[o].ip == ip
        ensures Shares(al[o], req)
      {
        assert o in On(al, ip);
        assert forall p :: p in al[o].ports ==> Owns(al, o, ip, p);
      }
    }
    if Admits(s.l, svc, ip, req) {
      forall o, p | Owns(al, o, ip, p) && o != svc
        ensures p !in req.ports
      {
        assert Shares(al[o], req);
      }
    }
  }

  /** `Assign` on the indexes is the index-free rule. */
  lemma AssignRefines(s: State, svc: string, ip: Ip, req: Request)
    requires Sound(s) && GoodPorts(req.ports)
    ensures Assigned(s, svc, ip, req).Some?
    ensures Assigned(s, svc, ip, req).value.l == Assign(s.l, svc, ip, req)
    ensures Sound(Assigned(s, svc, ip, req).value)
  {
    CheckExact(s, svc, ip, req);
    if Admits(s.l, svc, ip, req) {
      PutRefines(s, svc, NewAlloc(s.l, ip, req));
    }
  }

  lemma MoveRefines(s: State, svc: string)
    requires Sound(s)
    ensures Moved(s, svc).Some? && Sound(Moved(s, svc).value)
    ensures Moved(s, svc).value.l.pools == s.l.pools
    ensures var al, al' := s.l.allocs, Moved(s, svc).value.l.allocs;
            al' == if svc in al then al[svc := al[svc].(pool := PoolFor(s.l.pools, al[svc].ip))] else al
  {
    hide Coherent, Unassigned, Put, Shares, GoodPorts;
    var al := s.l.allocs;
    if svc in al && al[svc].pool != PoolFor(s.l.pools, al[svc].ip) {
      var a := al[svc].(pool := PoolFor(s.l.pools, al[svc].ip));
      UnassignRefines(s, svc);
      forall o | o in al - {svc} && o != svc && al[o].ip == a.ip
        ensures Shares(al[o], Asks(a))
      {
        assert Shares(al[o], Asks(al[svc]));
      }
      PutRefines(Unassigned(s, svc).value, svc, a);
      assert (al - {svc})[svc := a] == al[svc := a];
    }
  }

  /** Any visiting order, repeats included, re-homes exactly the services visited. */
  lemma {:induction false} MoveAllRefines(s: State, order: seq<string>)
    requires Sound(s)
    ensures MovedAll(s, order).Some? && Sound(MovedAll(s, order).value)
    ensures MovedAll(s, order).value.l.pools == s.l.pools
    ensures MovedAll(s, order).value.l.allocs
         == map x | x in s.l.allocs ::
              if x in order then s.l.allocs[x].(pool := PoolFor(s.l.pools, s.l.allocs[x].ip)) else s.l.allocs[x]
  {
    hide Sound, Moved;
    if order != [] {
      var init, last := order[..|order| - 1], order[|order| - 1];
      assert order == init + [last];
      MoveAllRefines(s, init);
      MoveRefines(MovedAll(s, init).value, last);
    }
  }

  ghost predicate Visits(order: seq<string>, all: set<string>) {
    forall x :: x in all ==> x in order
  }

  /** `SetPools` is the index-free rule for every visiting order. */
  lemma SetPoolsRefines(s: State, pools: PoolMap, order: seq<string>)
    requires Sound(s) && Visits(order, s.l.allocs.Keys)
    ensures PoolsSet(s, pools, order).Some?
    ensures PoolsSet(s, pools, order).value.l == SetPools(s.l, pools)
    ensures Sound(PoolsSet(s, pools, order).value)
  {
    hide Coherent, Sane, MovedAll;
    if PoolsFit(s.l.allocs, pools) {
      MoveAllRefines(s.(l := s.l.(pools := pools)), order);
      assert MovedAll(s.(l := s.l.(pools := pools)), order).value.l.allocs == Rehomed(s.l.allocs, pools);
    }
  }

  // ---------- Every run ----------

  datatype Event =
    | EvAssign(svc: string, ip: Ip, req: Request)
    | EvUnassign(svc: string)
    | EvSetPools(pools: PoolMap, order: seq<string>)
    | EvAllocateFromPool(svc: string, pool: string, req: Request)
    | EvAllocate(svc: string, order: seq<string>, req: Request)

  ghost predicate Enumerates(order: seq<string>, all: set<string>) {
    forall x :: x in all <==> x in order
  }

  /** What is asked of callers: pools as `Parse` makes them, port lists from the set given. */
  ghost predicate Legal(e: Event, lists: iset<seq<Port>>) {
    match e
    case EvAssign(_, _, req) => req.ports in lists
    case EvUnassign(_) => true
    case EvSetPools(pools, _) => GoodPools(pools)
    case EvAllocateFromPool(_, _, req) => req.ports in lists
    case EvAllocate(_, _, req) => req.ports in lists
  }

  ghost function TakenState(s: State, svc: string, r: Option<Ip>, req: Request): Option<State> {
    match r
    case None => Some(s)
    case Some(ip) => Assigned(s, svc, ip, req)
  }

  /** One public call. The order in which Go visits a map is part of the event; an order that
      is not a visit of that map is no event at all. */
  ghost function Step(s: State, e: Event): Option<State> {
    match e
    case EvAssign(svc, ip, req) => Assigned(s, svc, ip, req)
    case EvUnassign(svc) => Unassigned(s, svc)
    case EvSetPools(pools, order) =>
      if Visits(order, s.l.allocs.Keys) then PoolsSet(s, pools, order) else Some(s)
    case EvAllocateFromPool(svc, pool, req) => TakenState(s, svc, FromPool(s.l, svc, pool, req), req)
    case EvAllocate(svc, order, req) =>
      if Enumerates(order, s.l.pools.Keys) then TakenState(s, svc, FromAnyPool(s.l, svc, order, req), req) else Some(s)
  }

  ghost function Run(events: seq<Event>): Option<State> {
    if events == [] then Some(INITIAL)
    else match Run(events[..|events| - 1])
      case None => None
      case Some(s) => Step(s, events[|events| - 1])
  }

  /** The same call on the ledger alone. */
  ghost function LedgerStep(l: Ledger, e: Event): Ledger {
    match e
    case EvAssign(svc, ip, req) => Assign(l, svc, ip, req)
    case EvUnassign(svc) => Unassign(l, svc)
    case EvSetPools(pools, order) => if Visits(order, l.allocs.Keys) then SetPools(l, pools) else l
    case EvAllocateFromPool(svc, pool, req) => Taken(l, svc, FromPool(l, svc, pool, req), req)
    case EvAllocate(svc, order, req) =>
      if Enumerates(order, l.pools.Keys) then Taken(l, svc, FromAnyPool(l, svc, order, req), req) else l
  }

  ghost function LedgerRun(events: seq<Event>): Ledger {
    if events == [] then INITIAL.l else LedgerStep(LedgerRun(events[..|events| - 1]), events[|events| - 1])
  }

  ghost const GOOD_LISTS: iset<seq<Port>> := iset ports | GoodPorts(ports)

  lemma StepRefines(s: State, e: Event)
    requires Sound(s) && Legal(e, GOOD_LISTS)
    ensures Step(s, e).Some? && Step(s, e).value.l == LedgerStep(s.l, e) && Sound(Step(s, e).value)
  {
    hide Sound, Assign, Assigned, Unassigned, PoolsSet, GoodPools, FromPool, FromAnyPool, SetPools;
    match e
    case EvAssign(svc, ip, req) => AssignRefines(s, svc, ip, req);
    case EvUnassign(svc) => UnassignRefines(s, svc);
    case EvSetPools(pools, order) =>
      if Visits(order, s.l.allocs.Keys) {
        SetPoolsRefines(s, pools, order);
      }
    case EvAllocateFromPool(svc, pool, req) =>
      if ip :| FromPool(s.l, svc, pool, req) == Some(ip) {
        AssignRefines(s, svc, ip, req);
      }
    case EvAllocate(svc, order, req) =>
      if Enumerates(order, s.l.pools.Keys) {
        if ip :| FromAnyPool(s.l, svc, order, req) == Some(ip) {
          AssignRefines(s, svc, ip, req);
        }
      }
  }

  lemma StepKeepsInv(l: Ledger, e: Event)
    requires Inv(l) && Legal(e, GOOD_LISTS)
    ensures Inv(LedgerStep(l, e))
  {
    hide Inv, GoodPools, Assign, SetPools, Unassign, FromPool, FromAnyPool;
    match e
    case EvAssign(svc, ip, req) => AssignKeepsInv(l, svc, ip, req);
    case EvUnassign(svc) => UnassignKeepsInv(l, svc);
    case EvSetPools(pools, order) => SetPoolsKeepsInv(l, pools);
    case EvAllocateFromPool(svc, pool, req) =>
      if ip :| FromPool(l, svc, pool, req) == Some(ip) {
        AssignKeepsInv(l, svc, ip, req);
      }
    case EvAllocate(svc, order, req) =>
      if Enumerates(order, l.pools.Keys) {
        if ip :| FromAnyPool(l, svc, order, req) == Some(ip) {
          AssignKeepsInv(l, svc, ip, req);
        }
      }
  }

  lemma InitialSound()
    ensures Sound(INITIAL) && Inv(INITIAL.l)
  {
    forall ip
      ensures On(map[], ip) == {}
    {
    }
    forall pool, ip
      ensures InPoolOn(map[], pool, ip) == {}
    {
    }
    forall pool
      ensures OfPool(map[], pool) == {}
    {
    }
    assert forall pool, ip :: PoolIpCoherent(map[], map[], pool, ip);
  }

  /** In every run of public calls nothing panics, all five indexes hold exactly what the
      allocations imply, the indexed allocator does what the index-free rules say, neighbours
      on one address share it lawfully, and every allocation is filed under its owner. */
  lemma {:induction false} EveryRun(events: seq<Event>)
    requires forall e :: e in events ==> Legal(e, GOOD_LISTS)
    ensures Run(events).Some?
    ensures Run(events).value.l == LedgerRun(events)
    ensures Coherent(Run(events).value.l.allocs, Run(events).value.ix)
    ensures Inv(Run(events).value.l) && Sound(Run(events).value)
  {
    hide Coherent, Inv, Sane, Step, LedgerStep, Legal;
    if events == [] {
      InitialSound();
    } else {
      var init, last := events[..|events| - 1], events[|events| - 1];
      EveryRun(init);
      StepRefines(Run(init).value, last);
      StepKeepsInv(LedgerRun(init), last);
    }
  }
}
