/** What synchronisation brings back after a restart: every allocation, in whatever order the
    services are processed, exactly if no service without an address finds one in the gaps. */
module Restarts {
  import opened Net
  import opened Config
  import opened Ledgers
  import opened ControllerSpec
  import opened Cluster
  import opened Convergence
  import A = AllocatorSpec

  /** The allocations a restart regains, and those of the services processed since. */
  ghost function Back(t: Text, w: World, done: set<string>): Allocations {
    map n | n in w.l.allocs && n in w.services && (n in done || Spelled(t, w.l, n, w.services[n])) :: w.l.allocs[n]
  }

  ghost function BackLedger(t: Text, w: World, done: set<string>): Ledger {
    Ledger(w.l.pools, Back(t, w, done))
  }

  /** It asks for an address and has none. */
  predicate Waits(w: World, n: string) {
    n in w.services && w.services[n].kind == "LoadBalancer" && n !in w.l.allocs
  }

  // ---------- Before there is a configuration ----------

  /** A controller without a configuration leaves the objects alone and gives nothing away. */
  lemma {:induction false} UnconfiguredWaits(t: Text, w: World, events: seq<Event>)
    requires w.config.None? && w.l.allocs == map[] && forall e :: e in events ==> e.Process? || e.MarkSynced?
    ensures var w' := StepAll(t, w, events); w'.services == w.services && w'.l == w.l && w'.config.None?
  {
    hide Converged;
    if events != [] {
      var init, e := events[..|events| - 1], events[|events| - 1];
      UnconfiguredWaits(t, w, init);
      assert e in events;
      if e.Process? {
        assert w.l.allocs - {e.name} == w.l.allocs;
      }
    }
  }

  // ---------- One service ----------

  /** With synchronisation a service that names an address is given it exactly if the other
      services leave it, and else nothing. */
  lemma ComesBackExact(t: Text, l: Ledger, n: string, svc: Service, ip: Ip, order: seq<string>)
    requires RoundTrips(t) && svc.kind == "LoadBalancer" && svc.lbIp != "" && t.parse(svc.lbIp) == Some(ip)
    requires A.Enumerates(order, l.pools.Keys)
    ensures var o := Converge(t, true, l, n, svc, order);
      if Admits(l, n, ip, svc.req) then
        n in o.l.allocs && o.l.allocs[n] == NewAlloc(l, ip, svc.req) && o.svc == Published(t, svc, ip)
      else n !in o.l.allocs && o.svc == Cleared(svc)
  {
    hide Admits, A.Enumerates, Compatible;
    var p := Reclaimed(t, l, n, svc);
    var q := Requested(t, p, n);
    ClearOthers(l, n);
    AssignOthers(l, n, ip, svc.req);
    if q.ip.None? {
      assert q.l == Unassign(l, n) by { ClearedIs(t, l, n, svc); }
      AdmitsElsewhere(l, q.l, n, ip, svc.req);
    }
  }

  /** Its own address is free for its owner. */
  lemma BackAdmits(t: Text, w: World, done: set<string>, n: string)
    requires Inv(w.l) && n in w.l.allocs
    ensures Admits(BackLedger(t, w, done), n, w.l.allocs[n].ip, Asks(w.l.allocs[n]))
    ensures NewAlloc(BackLedger(t, w, done), w.l.allocs[n].ip, Asks(w.l.allocs[n])) == w.l.allocs[n]
  {
    hide GoodPools, Shares, PoolFor, Spelled;
    assert w.l.allocs[n].pool == PoolFor(w.l.pools, w.l.allocs[n].ip);
  }

  lemma BackWith(t: Text, w: World, done: set<string>, n: string)
    requires n in w.services
    ensures n in w.l.allocs ==> Back(t, w, done)[n := w.l.allocs[n]] == Back(t, w, done + {n})
    ensures n !in w.l.allocs ==>
      Back(t, w, done) == Back(t, w, done + {n}) && Back(t, w, done) - {n} == Back(t, w, done)
  {
    hide Spelled;
  }

  /** A service that had an address has it again, with its object as it was. */
  lemma HolderBack(t: Text, w: World, done: set<string>, n: string, order: seq<string>)
    requires RoundTrips(t) && Inv(w.l) && n in w.services && Tracks(t, w, n) && n in w.l.allocs
    requires A.Enumerates(order, w.l.pools.Keys)
    ensures Converge(t, true, BackLedger(t, w, done), n, w.services[n], order)
      == Outcome(BackLedger(t, w, done + {n}), w.services[n], true)
  {
    hide Inv, Admits, A.Enumerates, Back, Spelled, RoundTrips;
    var l, svc, ip := BackLedger(t, w, done), w.services[n], w.l.allocs[n].ip;
    BackAdmits(t, w, done, n);
    BackWith(t, w, done, n);
    ClaimedIs(t, svc, ip);
    assert Reclaimed(t, l, n, svc) == Progress(BackLedger(t, w, done + {n}), svc, Some(ip));
    assert Published(t, svc, ip) == svc && Published(t, Cleared(svc), ip) == svc;
    if svc.lbIp != "" && svc.lbIp != t.print_(ip) {
      ClearedIs(t, l, n, svc);
      ClearOthers(l, n);
      AdmitsElsewhere(l, Unassign(l, n), n, ip, svc.req);
      assert (l.allocs - {n})[n := w.l.allocs[n]] == l.allocs[n := w.l.allocs[n]];
    }
  }

  /** A service that had none, and finds none, stays without. */
  lemma OtherBack(t: Text, w: World, done: set<string>, n: string, order: seq<string>)
    requires n in w.services && Tracks(t, w, n) && n !in w.l.allocs && A.Enumerates(order, w.l.pools.Keys)
    requires Waits(w, n) ==> Chosen(t, BackLedger(t, w, done), n, w.services[n], order).None?
    ensures Converge(t, true, BackLedger(t, w, done), n, w.services[n], order)
      == Outcome(BackLedger(t, w, done + {n}), w.services[n], true)
  {
    hide A.Enumerates, Back, Chosen;
    BackWith(t, w, done, n);
    assert n !in Back(t, w, done) by { NotBack(t, w, done, n); }
    if Waits(w, n) {
      EmptyAgain(t, true, BackLedger(t, w, done), n, w.services[n], order);
    }
  }

  lemma NotBack(t: Text, w: World, done: set<string>, n: string)
    requires n !in w.l.allocs
    ensures n !in Back(t, w, done)
  {
  }

  // ---------- Less room with more services ----------

  ghost predicate Within(al: Allocations, al': Allocations) {
    forall o :: o in al ==> o in al' && al'[o] == al[o]
  }

  lemma RoomShrinks(l: Ledger, l': Ledger, n: string, pool: string, req: Request)
    requires l'.pools == l.pools && Within(l.allocs, l'.allocs)
    ensures HasRoom(l', n, pool, req) ==> HasRoom(l, n, pool, req)
    ensures forall ip :: Admits(l', n, ip, req) ==> Admits(l, n, ip, req)
  {
    hide InPool, Shares, PoolFor;
    forall ip | Compatible(l'.allocs, n, ip, req)
      ensures Compatible(l.allocs, n, ip, req)
    {
    }
  }

  /** Who finds nothing finds nothing when others come back. */
  lemma NoneLater(t: Text, l: Ledger, l': Ledger, n: string, svc: Service, order: seq<string>)
    requires GoodPools(l.pools) && l'.pools == l.pools && Within(l.allocs, l'.allocs) && n !in l'.allocs
    requires A.Enumerates(order, l.pools.Keys) && Chosen(t, l, n, svc, order).None?
    ensures Chosen(t, l', n, svc, order).None?
  {
    hide GoodPools, Admits, HasRoom, InPool, ScanPools;
    assert n !in l.allocs;
    if svc.lbIp != "" {
      RoomShrinks(l, l', n, "", svc.req);
    } else if svc.desiredPool != "" {
      RoomShrinks(l, l', n, svc.desiredPool, svc.req);
      if svc.desiredPool in l.pools {
        PoolSearchExact(l, n, svc.desiredPool, svc.req);
        PoolSearchExact(l', n, svc.desiredPool, svc.req);
        if ip :| ScanPool(l', n, l.pools[svc.desiredPool], l.pools[svc.desiredPool].cidrs, svc.req) == Some(ip) {
          RoomWitness(l', n, svc.desiredPool, ip, svc.req);
        }
      }
    } else {
      NoneInAnyLater(l, l', n, order, svc.req);
    }
  }

  lemma NoneInAnyLater(l: Ledger, l': Ledger, n: string, order: seq<string>, req: Request)
    requires GoodPools(l.pools) && l'.pools == l.pools && Within(l.allocs, l'.allocs) && n !in l'.allocs
    requires A.Enumerates(order, l.pools.Keys) && ScanPools(l, n, order, req).None?
    ensures ScanPools(l', n, order, req).None?
  {
    hide GoodPools, Admits, HasRoom, InPool, ScanPools;
    AllPoolsSearchExact(l, n, order, req);
    AllPoolsSearchExact(l', n, order, req);
    if ip :| ScanPools(l', n, order, req) == Some(ip) {
      var pool := PoolFor(l.pools, ip);
      RoomWitness(l', n, pool, ip, req);
      RoomShrinks(l, l', n, pool, req);
    }
  }

  // ---------- The whole run ----------

  /** A restart, every service processed, and then synchronisation. */
  ghost function Resumed(t: Text, w: World, events: seq<Event>): World
    requires w.config.Some?
  {
    Step(t, StepAll(t, Restarted(t, w), events), MarkSynced)
  }

  ghost predicate AllSettled(t: Text, w: World) {
    Good(t, w) && w.config.Some? && w.services.Keys <= w.settled && w.l.allocs.Keys <= w.services.Keys
  }

  /** Every service is processed, in some order, some of them more than once. */
  ghost predicate Round(w: World, events: seq<Event>) {
    Processing(events, w.services.Keys, w.l.pools) && Names(events) == w.services.Keys
  }

  lemma ResumedIs(t: Text, w: World, events: seq<Event>)
    requires RoundTrips(t) && AllSettled(t, w) && Round(w, events)
    ensures var r := Resumed(t, w, events);
      r.l == BackLedger(t, w, {}) && r.services == w.services && r.config == w.config && r.synced
  {
    hide Good, Spelled, RoundTrips, StepAll, Restarted, Processing;
    RegainAll(t, w, events);
    assert Regained(t, w, Names(events)) == Back(t, w, {});
  }

  /** No service without an address finds one among those that a restart leaves free. */
  ghost predicate NoneFits(t: Text, w: World) {
    forall n, order :: Waits(w, n) && A.Enumerates(order, w.l.pools.Keys) ==>
      Chosen(t, BackLedger(t, w, {}), n, w.services[n], order).None?
  }

  lemma {:induction false} AllBack(t: Text, w: World, r: World, events: seq<Event>)
    requires RoundTrips(t) && AllSettled(t, w) && NoneFits(t, w) && Processing(events, w.services.Keys, w.l.pools)
    requires r.l == BackLedger(t, w, {}) && r.services == w.services && r.config == w.config && r.synced
    ensures var r' := StepAll(t, r, events);
      && r'.l == BackLedger(t, w, Names(events)) && r'.services == w.services && r'.config == w.config && r'.synced
  {
    hide Inv, GoodPorts, Converge, RoundTrips, A.Enumerates, Back, Chosen;
    if events == [] {
    } else {
      var init, e := events[..|events| - 1], events[|events| - 1];
      AllBack(t, w, r, init);
      OneBack(t, w, Names(init), e.name, e.order);
      assert w.services[e.name := w.services[e.name]] == w.services;
    }
  }

  lemma OneBack(t: Text, w: World, done: set<string>, n: string, order: seq<string>)
    requires RoundTrips(t) && AllSettled(t, w) && NoneFits(t, w) && n in w.services
      && A.Enumerates(order, w.l.pools.Keys)
    ensures Converge(t, true, BackLedger(t, w, done), n, w.services[n], order)
      == Outcome(BackLedger(t, w, done + {n}), w.services[n], true)
  {
    hide GoodPorts, Converge, RoundTrips, A.Enumerates, Chosen, Sane, Homed, GoodPools, Spelled;
    assert Tracks(t, w, n);
    if n in w.l.allocs {
      HolderBack(t, w, done, n, order);
    } else {
      if Waits(w, n) {
        NoneLater(t, BackLedger(t, w, {}), BackLedger(t, w, done), n, w.services[n], order);
      }
      OtherBack(t, w, done, n, order);
    }
  }

  lemma BackAll(t: Text, w: World)
    requires w.l.allocs.Keys <= w.services.Keys
    ensures BackLedger(t, w, w.services.Keys) == w.l
  {
    hide Spelled;
    assert Back(t, w, w.services.Keys) == w.l.allocs;
  }

  // ---------- A service that takes what another had ----------

  lemma {:induction false} Keeps(t: Text, r: World, first: Event, rest: seq<Event>, n: string)
    requires n in Step(t, r, first).l.allocs && Inv(Step(t, r, first).l)
    requires forall m :: m in Step(t, r, first).services ==> GoodPorts(Step(t, r, first).services[m].req.ports)
    requires forall e :: e in rest ==> e.Process? && e.name != n
    ensures var r' := StepAll(t, r, [first] + rest);
      && n in r'.l.allocs && Inv(r'.l) && forall m :: m in r'.services ==> GoodPorts(r'.services[m].req.ports)
  {
    hide Inv, GoodPorts, Converge, A.Enumerates;
    if rest == [] {
      assert [first] + rest == [first] && [first][..0] == [];
    } else {
      var init, e := rest[..|rest| - 1], rest[|rest| - 1];
      assert ([first] + rest)[..|rest|] == [first] + init;
      Keeps(t, r, first, init, n);
      OtherProcessed(t, StepAll(t, r, [first] + init), e.name, e.order, e.writeOk, n);
    }
  }

  lemma OtherProcessed(t: Text, w: World, name: string, order: seq<string>, writeOk: bool, n: string)
    requires n in w.l.allocs && n != name && Inv(w.l)
    requires forall m :: m in w.services ==> GoodPorts(w.services[m].req.ports)
    ensures var w' := Processed(t, w, name, order, writeOk);
      && n in w'.l.allocs && Inv(w'.l) && forall m :: m in w'.services ==> GoodPorts(w'.services[m].req.ports)
  {
    hide Inv, GoodPorts, Converge, A.Enumerates;
    if name !in w.services {
      UnassignKeepsInv(w.l, name);
    } else if w.config.Some? && A.Enumerates(order, w.l.pools.Keys) {
      ConvergeAgrees(t, w.synced, w.l, name, w.services[name], order);
      SameElsewhere(w.l.allocs, Processed(t, w, name, order, writeOk).l.allocs, name, n);
    }
  }

  /** Every service of the set, each processed once. */
  lemma {:induction false} Visits(names: set<string>, order: seq<string>) returns (events: seq<Event>)
    ensures forall e :: e in events ==> e.Process? && e.name in names && e.order == order
    ensures Names(events) == names
  {
    if names == {} {
      events := [];
    } else {
      var n :| n in names;
      var init := Visits(names - {n}, order);
      events := init + [Process(n, order, true)];
      assert events[..|events| - 1] == init;
    }
  }

  /** A service without an address takes one, if it is the first to be processed. */
  lemma TakenFirst(t: Text, w: World, r: World, n: string, order: seq<string>) returns (events: seq<Event>)
    requires AllSettled(t, w) && Waits(w, n) && A.Enumerates(order, w.l.pools.Keys)
    requires Chosen(t, BackLedger(t, w, {}), n, w.services[n], order).Some?
    requires r.l == BackLedger(t, w, {}) && r.services == w.services && r.config == w.config && r.synced
    requires Inv(r.l)
    ensures Round(w, events) && n in StepAll(t, r, events).l.allocs
  {
    hide Inv, GoodPorts, A.Enumerates, Chosen, Back, StepAll;
    var first := Process(n, order, true);
    var rest := Visits(w.services.Keys - {n}, order);
    events := [first] + rest;
    assert Tracks(t, w, n);
    NotBack(t, w, {}, n);
    Takes(t, r, n, order);
    Keeps(t, r, first, rest, n);
    NamesFirst(first, rest);
    assert {n} + (w.services.Keys - {n}) == w.services.Keys;
  }

  lemma Takes(t: Text, r: World, n: string, order: seq<string>)
    requires Inv(r.l) && r.config.Some? && r.synced && A.Enumerates(order, r.l.pools.Keys) && n !in r.l.allocs
    requires n in r.services && r.services[n].kind == "LoadBalancer" && r.services[n].ingress == []
    requires Chosen(t, r.l, n, r.services[n], order).Some?
    requires forall m :: m in r.services ==> GoodPorts(r.services[m].req.ports)
    ensures var r' := Step(t, r, Process(n, order, true));
      && n in r'.l.allocs && Inv(r'.l) && forall m :: m in r'.services ==> GoodPorts(r'.services[m].req.ports)
  {
    hide Inv, GoodPorts, A.Enumerates, Chosen, Converge, Allocated;
    EmptyAgain(t, true, r.l, n, r.services[n], order);
    ChosenIn(t, r.l, n, r.services[n], order);
    ConvergeAgrees(t, true, r.l, n, r.services[n], order);
  }

  lemma ChosenIn(t: Text, l: Ledger, n: string, svc: Service, order: seq<string>)
    requires Inv(l) && n !in l.allocs && A.Enumerates(order, l.pools.Keys) && Chosen(t, l, n, svc, order).Some?
    ensures n in Allocated(t, true, Progress(l, svc, None), n, order).l.allocs
  {
    hide GoodPools, Admits, Chosen, A.Enumerates, Sane, Homed;
    ChosenAdmitted(t, l, n, svc, order);
  }

  lemma NamesFirst(first: Event, rest: seq<Event>)
    requires first.Process?
    ensures Names([first] + rest) == {first.name} + Names(rest)
  {
    var events := [first] + rest;
    assert first in events;
    forall n | n in Names(events)
      ensures n in {first.name} + Names(rest)
    {
      var e :| e in events && e.Process? && e.name == n;
    }
    forall n | n in Names(rest)
      ensures n in Names(events)
    {
      var e :| e in rest && e.Process? && e.name == n;
      assert e in events;
    }
  }

  lemma BackInv(t: Text, w: World)
    requires Good(t, w)
    ensures Inv(BackLedger(t, w, {}))
  {
    hide GoodPools, GoodPorts, Shares, PoolFor, Spelled;
  }

  /** After a restart, a round before synchronisation and a round after it, every allocation is
      back whatever the order of the second round, if and only if no service without an address
      finds one among those that the first round leaves free. */
  lemma SynchronisedRestores(t: Text, w: World, events: seq<Event>)
    requires RoundTrips(t) && AllSettled(t, w) && Round(w, events)
    ensures (forall more :: Round(w, more) ==> StepAll(t, Resumed(t, w, events), more).l == w.l) <==> NoneFits(t, w)
    ensures NoneFits(t, w) ==> forall more :: Round(w, more) ==>
      StepAll(t, Resumed(t, w, events), more).services == w.services
  {
    hide Good, RoundTrips, StepAll, Processing, Back, Chosen, A.Enumerates, Resumed;
    ResumedIs(t, w, events);
    var r := Resumed(t, w, events);
    if NoneFits(t, w) {
      forall more | Round(w, more)
        ensures StepAll(t, r, more).l == w.l && StepAll(t, r, more).services == w.services
      {
        AllBack(t, w, r, more);
        BackAll(t, w);
      }
    } else {
      var n, order :| Waits(w, n) && A.Enumerates(order, w.l.pools.Keys) &&
        Chosen(t, BackLedger(t, w, {}), n, w.services[n], order).Some?;
      assert Inv(r.l) by { BackInv(t, w); }
      var more := TakenFirst(t, w, r, n, order);
    }
  }

  // ---------- A reachable gap ----------

  /** A second spelling of the address, not the one the controller prints. */
  ghost predicate Misspells(t: Text, ip: Ip, other: string) {
    RoundTrips(t) && t.parse(other) == Some(ip) && other != "" && other != t.print_(ip)
  }

  function AsksFor(lbIp: string): Service {
    Service("LoadBalancer", [], lbIp, "", Request([Port("TCP", 80)], Key("", "")))
  }

  /** One service asks for the address and is given it. */
  function First(pools: PoolMap, other: string, order: seq<string>): seq<Event> {
    [Configure(Some(pools)), MarkSynced, Edit("a", AsksFor(other)), Process("a", order, true)]
  }

  /** A second one asks for it too, in vain. */
  function Second(pools: PoolMap, other: string, order: seq<string>): seq<Event> {
    First(pools, other, order) + [Edit("b", AsksFor(other)), Process("b", order, true)]
  }

  lemma HistorySnoc(t: Text, events: seq<Event>, e: Event)
    ensures History(t, events + [e]) == Step(t, History(t, events), e)
  {
    assert (events + [e])[..|events|] == events;
  }

  /** The service asks again, spelled its way: the address or nothing. */
  lemma AskedStep(t: Text, w: World, n: string, ip: Ip, other: string, order: seq<string>)
    requires Misspells(t, ip, other) && w.config == Some(w.l.pools) && w.synced && n in w.services
      && w.services[n] == AsksFor(other)
    requires A.Enumerates(order, w.l.pools.Keys) && Good(t, w)
    ensures var w' := Step(t, w, Process(n, order, true)); var svc := AsksFor(other);
      && w'.config == w.config && w'.synced && w'.settled == w.settled + {n} && OthersKept(w.l, w'.l, n)
      && if Admits(w.l, n, ip, svc.req) then
           n in w'.l.allocs && w'.l.allocs[n] == NewAlloc(w.l, ip, svc.req) &&
           w'.services == w.services[n := Published(t, svc, ip)]
         else n !in w'.l.allocs && w'.services == w.services
  {
    hide Admits, A.Enumerates, Converge, NewAlloc;
    ComesBackExact(t, w.l, n, w.services[n], ip, order);
    ConvergeAgrees(t, true, w.l, n, w.services[n], order);
    if !Converge(t, true, w.l, n, w.services[n], order).done {
      OnlyUnsynced(t, true, w.l, n, w.services[n], order);
    }
    assert w.services[n := w.services[n]] == w.services;
  }

  lemma FirstReached(t: Text, pools: PoolMap, ip: Ip, other: string, order: seq<string>)
    requires Misspells(t, ip, other) && GoodPools(pools) && PoolFor(pools, ip) != "" && A.Enumerates(order, pools.Keys)
    ensures var w := History(t, First(pools, other, order));
      && w.l == Ledger(pools, map["a" := NewAlloc(w.l, ip, AsksFor(other).req)]) && w.config == Some(pools) && w.synced
      && w.services == map["a" := Published(t, AsksFor(other), ip)] && w.settled == {"a"}
  {
    hide GoodPools, A.Enumerates, PoolFor, Good, Step, OthersKept;
    var es := First(pools, other, order);
    assert es[..1] == [] + [es[0]] && es[..2] == es[..1] + [es[1]] && es[..3] == es[..2] + [es[2]]
      && es == es[..3] + [es[3]];
    HistorySnoc(t, [], es[0]);
    HistorySnoc(t, es[..1], es[1]);
    HistorySnoc(t, es[..2], es[2]);
    HistorySnoc(t, es[..3], es[3]);
    EveryHistory(t, es[..3]);
    var w3 := History(t, es[..3]);
    assert w3 == World(Ledger(pools, map[]), Some(pools), true, map["a" := AsksFor(other)], {}) by {
      Begun(t, pools, es[2].svc);
    }
    AskedStep(t, w3, "a", ip, other, order);
    AloneIs(w3.l, History(t, es).l, "a");
  }

  lemma Begun(t: Text, pools: PoolMap, svc: Service)
    ensures Step(t, Step(t, Step(t, START, Configure(Some(pools))), MarkSynced), Edit("a", svc))
      == World(Ledger(pools, map[]), Some(pools), true, map["a" := svc], {})
  {
    assert Rehomed(map[], pools) == map[];
  }

  lemma AloneIs(l: Ledger, l': Ledger, n: string)
    requires OthersKept(l, l', n) && l.allocs == map[] && n in l'.allocs
    ensures l' == Ledger(l.pools, map[n := l'.allocs[n]])
  {
    assert l'.allocs == (l'.allocs - {n})[n := l'.allocs[n]];
    assert l'.allocs - {n} == map[];
  }

  lemma NoneTaken(l: Ledger, l': Ledger, n: string)
    requires OthersKept(l, l', n) && n !in l.allocs && n !in l'.allocs
    ensures l' == l
  {
    assert l'.allocs == l'.allocs - {n} && l.allocs == l.allocs - {n};
  }

  /** Any address of any pool, spelled in a second way: a history that ends with every service
      settled and the address held under that spelling, and one more in which a second service
      waits for it, and would be given it after a restart. */
  lemma GapReached(t: Text, pools: PoolMap, ip: Ip, other: string, order: seq<string>)
    requires Misspells(t, ip, other) && GoodPools(pools) && PoolFor(pools, ip) != "" && A.Enumerates(order, pools.Keys)
    ensures var w := History(t, First(pools, other, order));
      && AllSettled(t, w) && "a" in w.l.allocs && w.l.allocs["a"].ip == ip && !Spelled(t, w.l, "a", w.services["a"])
      && NoneFits(t, w)
    ensures var w := History(t, Second(pools, other, order));
      && AllSettled(t, w) && "a" in w.l.allocs && w.l.allocs["a"].ip == ip && Waits(w, "b") && !NoneFits(t, w)
  {
    hide GoodPools, A.Enumerates, PoolFor, Good, Step, Admits, OthersKept, Chosen;
    var es := Second(pools, other, order);
    assert es[..4] == First(pools, other, order) && es[..5] == es[..4] + [es[4]] && es == es[..5] + [es[5]];
    FirstReached(t, pools, ip, other, order);
    HistorySnoc(t, es[..4], es[4]);
    HistorySnoc(t, es[..5], es[5]);
    EveryHistory(t, es[..4]);
    EveryHistory(t, es[..5]);
    EveryHistory(t, es);
    var w4, w5, w := History(t, es[..4]), History(t, es[..5]), History(t, es);
    assert w5 == w4.(services := w4.services["b" := AsksFor(other)], settled := {"a"}) by {
      SecondEdit(t, w4, AsksFor(other));
    }
    assert !Admits(w5.l, "b", ip, AsksFor(other).req) by { Occupied(w5.l, ip, other); }
    AskedStep(t, w5, "b", ip, other, order);
    NoneTaken(w5.l, w.l, "b");
    GapFits(t, w, ip, other, order);
  }

  lemma SecondEdit(t: Text, w: World, svc: Service)
    requires w.settled == {"a"}
    ensures Step(t, w, Edit("b", svc)) == w.(services := w.services["b" := svc], settled := {"a"})
  {
    assert {"a"} - {"b"} == {"a"};
  }

  lemma Occupied(l: Ledger, ip: Ip, other: string)
    requires "a" in l.allocs && l.allocs["a"] == NewAlloc(l, ip, AsksFor(other).req)
    ensures !Admits(l, "b", ip, AsksFor(other).req)
  {
    hide PoolFor;
    assert !Shares(l.allocs["a"], AsksFor(other).req);
  }

  lemma GapFits(t: Text, w: World, ip: Ip, other: string, order: seq<string>)
    requires Misspells(t, ip, other) && A.Enumerates(order, w.l.pools.Keys) && PoolFor(w.l.pools, ip) != ""
    requires w.l.allocs.Keys == {"a"} && w.l.allocs["a"].ip == ip
    requires "a" in w.services && w.services["a"] == Published(t, AsksFor(other), ip) && "b" in w.services
      && w.services["b"] == AsksFor(other)
    ensures Waits(w, "b") && !NoneFits(t, w)
  {
    hide PoolFor, A.Enumerates;
    assert Back(t, w, {}) == map[];
    assert Chosen(t, BackLedger(t, w, {}), "b", w.services["b"], order) == Some(ip);
  }
}
