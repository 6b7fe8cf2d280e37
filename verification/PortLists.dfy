/** Which port lists the allocator can be trusted with: exactly the non-empty ones without
    repeats. Any other list, used in a few calls, makes it panic or lose a sharing key. */
module PortLists {
  import opened Net
  import opened Config
  import opened Ledgers
  import opened Indexes
  import opened AllocatorSpec

  ghost predicate Works(events: seq<Event>) {
    Run(events).Some? && Coherent(Run(events).value.l.allocs, Run(events).value.ix)
  }

  ghost predicate RunOver(events: seq<Event>, lists: iset<seq<Port>>) {
    forall e :: e in events ==> Legal(e, lists)
  }

  const KEY := Key("k", "")

  /** Three services' calls on one address of one configuration. */
  datatype Scene = Scene(pools: PoolMap, ip: Ip, own: string) {
    ghost predicate Valid() {
      GoodPools(pools) && own in pools && InPool(pools[own], ip)
    }

    function Given(ports: seq<Port>): Alloc {
      Alloc(own, ip, ports, KEY)
    }

    function Setup(): Event {
      EvSetPools(pools, [])
    }

    function Take(svc: string, ports: seq<Port>): Event {
      EvAssign(svc, ip, Request(ports, KEY))
    }

    function TakeAndLeave(ports: seq<Port>): seq<Event> {
      [Setup(), Take("a", ports), EvUnassign("a")]
    }

    function LeaveBehind(): seq<Event> {
      [Setup(), Take("a", []), Take("b", []), EvUnassign("b")]
    }
  }

  lemma SomeScene() returns (sc: Scene)
    ensures sc.Valid()
  {
    var c := Cidr(V4, 0, 32);
    var pools := map["p" := Pool("layer2", [c], false, true, [])];
    sc := Scene(pools, Ip(V4, 0), "p");
    assert HostBits(c) == 0;
    assert Aligned(c) && Contains(c, sc.ip);
    assert InPool(pools["p"], sc.ip) by { assert Contains(pools["p"].cidrs[0], sc.ip); }
    forall n, m, i, j, ip | Covers(pools, n, i, ip) && Covers(pools, m, j, ip)
      ensures n == m && i == j
    {
    }
  }

  lemma Owned(sc: Scene)
    requires sc.Valid()
    ensures PoolFor(sc.pools, sc.ip) == sc.own && sc.own != ""
  {
    OwnerUnique(sc.pools, sc.own, sc.ip);
  }

  lemma RunSnoc(events: seq<Event>, e: Event)
    requires Run(events).Some?
    ensures Run(events + [e]) == Step(Run(events).value, e)
  {
    var all := events + [e];
    assert all[..|all| - 1] == events;
  }

  lemma AfterSetup(sc: Scene)
    ensures Run([sc.Setup()]) == Some(State(Ledger(sc.pools, map[]), EMPTY))
  {
    RunSnoc([], sc.Setup());
    assert [] + [sc.Setup()] == [sc.Setup()];
    var s := State(Ledger(sc.pools, map[]), EMPTY);
    assert MovedAll(s, []) == Some(s);
  }

  lemma AfterFirst(sc: Scene, ports: seq<Port>)
    requires sc.Valid()
    ensures Run([sc.Setup(), sc.Take("a", ports)])
         == Some(State(Ledger(sc.pools, map["a" := sc.Given(ports)]), Add(EMPTY, "a", sc.Given(ports))))
  {
    hide Add, GoodPools, PoolFor, InPool;
    Owned(sc);
    AfterSetup(sc);
    RunSnoc([sc.Setup()], sc.Take("a", ports));
    assert [sc.Setup()] + [sc.Take("a", ports)] == [sc.Setup(), sc.Take("a", ports)];
  }

  lemma {:induction false} RemovedPortsGone(m: map<Port, string>, ports: seq<Port>, svc: string)
    requires RemovePorts(m, ports, svc).Some?
    ensures forall p :: p in ports ==> p !in RemovePorts(m, ports, svc).value
  {
    if ports != [] {
      RemovedPortsGone(m, ports[..|ports| - 1], svc);
    }
  }

  /** A repeated port is always fatal. */
  lemma {:induction false} RepeatedPortPanics(m: map<Port, string>, ports: seq<Port>, svc: string, i: nat, j: nat)
    requires svc != "" && i < j < |ports| && ports[i] == ports[j]
    ensures RemovePorts(m, ports, svc).None?
  {
    var init := ports[..|ports| - 1];
    if j < |ports| - 1 {
      RepeatedPortPanics(m, init, svc, i, j);
    } else if RemovePorts(m, init, svc).Some? {
      RemovedPortsGone(m, init, svc);
      assert init[i] in init;
    }
  }

  lemma RepeatedPortFails(sc: Scene, ports: seq<Port>, i: nat, j: nat)
    requires sc.Valid() && i < j < |ports| && ports[i] == ports[j]
    ensures Run(sc.TakeAndLeave(ports)).None?
  {
    hide GoodPools, PoolFor, InPool, AddPorts;
    AfterFirst(sc, ports);
    RunSnoc([sc.Setup(), sc.Take("a", ports)], EvUnassign("a"));
    assert [sc.Setup(), sc.Take("a", ports)] + [EvUnassign("a")] == sc.TakeAndLeave(ports);
    RepeatedPortPanics(AddPorts(map[], ports, "a"), ports, "a", i, j);
  }

  lemma AfterSecond(sc: Scene)
    requires sc.Valid()
    ensures Run([sc.Setup(), sc.Take("a", []), sc.Take("b", [])])
         == Some(State(Ledger(sc.pools, map["a" := sc.Given([]), "b" := sc.Given([])]),
                       Add(Add(EMPTY, "a", sc.Given([])), "b", sc.Given([]))))
  {
    hide Add, GoodPools, PoolFor, InPool;
    Owned(sc);
    AfterFirst(sc, []);
    RunSnoc([sc.Setup(), sc.Take("a", [])], sc.Take("b", []));
    assert [sc.Setup(), sc.Take("a", [])] + [sc.Take("b", [])] == [sc.Setup(), sc.Take("a", []), sc.Take("b", [])];
    KeyRecorded(sc.Given([]));
    assert map["a" := sc.Given([])]["b" := sc.Given([])] == map["a" := sc.Given([]), "b" := sc.Given([])];
  }

  lemma KeyRecorded(a: Alloc)
    ensures a.ip in Add(EMPTY, "a", a).sharingKeyForIp && Add(EMPTY, "a", a).sharingKeyForIp[a.ip] == a.key
  {
  }

  /** Without ports, one service leaving erases the key of the one that stays. */
  lemma KeyErased(a: Alloc)
    requires a.ports == []
    ensures Remove(Add(Add(EMPTY, "a", a), "b", a), "b", a).Some?
    ensures a.ip !in Remove(Add(Add(EMPTY, "a", a), "b", a), "b", a).value.sharingKeyForIp
  {
    var ix := Add(Add(EMPTY, "a", a), "b", a);
    assert RemovePorts(Get(ix.portsInUse, a.ip, map[]), [], "b") == Some(map[]);
  }

  lemma EmptyListFails(sc: Scene)
    requires sc.Valid()
    ensures Run(sc.LeaveBehind()).Some? && !Works(sc.LeaveBehind())
  {
    hide Add, Remove, GoodPools, PoolFor, InPool, PortsCoherent, ServicesCoherent, PoolIpsCoherent,
         PoolServicesCoherent;
    AfterSecond(sc);
    RunSnoc([sc.Setup(), sc.Take("a", []), sc.Take("b", [])], EvUnassign("b"));
    assert [sc.Setup(), sc.Take("a", []), sc.Take("b", [])] + [EvUnassign("b")] == sc.LeaveBehind();
    KeyErased(sc.Given([]));
    var s := Run(sc.LeaveBehind()).value;
    assert s.l.allocs["a"].ip == sc.ip;
  }

  lemma GoodListsWork(lists: iset<seq<Port>>, events: seq<Event>)
    requires (forall ports :: ports in lists ==> GoodPorts(ports)) && RunOver(events, lists)
    ensures Works(events)
  {
    hide Coherent, Run, Inv, Sound, GoodPorts, GoodPools;
    forall e | e in events
      ensures Legal(e, GOOD_LISTS)
    {
      assert Legal(e, lists);
    }
    EveryRun(events);
  }

  lemma AllowedRuns(sc: Scene, lists: iset<seq<Port>>, ports: seq<Port>)
    requires sc.Valid() && ports in lists
    ensures RunOver(sc.TakeAndLeave(ports), lists)
    ensures ports == [] ==> RunOver(sc.LeaveBehind(), lists)
  {
    hide GoodPools, PoolFor, InPool;
  }

  lemma BadListFails(lists: iset<seq<Port>>, ports: seq<Port>) returns (bad: seq<Event>)
    requires ports in lists && !GoodPorts(ports)
    ensures RunOver(bad, lists) && !Works(bad)
  {
    hide Coherent, Run, RunOver;
    var sc := SomeScene();
    AllowedRuns(sc, lists, ports);
    if ports == [] {
      EmptyListFails(sc);
      bad := sc.LeaveBehind();
    } else {
      var i, j :| 0 <= i < j < |ports| && ports[i] == ports[j];
      RepeatedPortFails(sc, ports, i, j);
      bad := sc.TakeAndLeave(ports);
    }
  }

  /** Every run over a family of port lists is free of panics and keeps its indexes exact
      if and only if all lists of the family are non-empty and free of repeats. */
  lemma PortHypothesisExact(lists: iset<seq<Port>>)
    ensures (forall events :: RunOver(events, lists) ==> Works(events))
      <==> (forall ports :: ports in lists ==> GoodPorts(ports))
  {
    hide Works, RunOver, GoodPorts;
    if forall ports :: ports in lists ==> GoodPorts(ports) {
      forall events | RunOver(events, lists)
        ensures Works(events)
      {
        GoodListsWork(lists, events);
      }
    } else {
      var ports :| ports in lists && !GoodPorts(ports);
      var bad := BadListFails(lists, ports);
    }
  }
}
