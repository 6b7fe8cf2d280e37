/** Every history of a cluster under the controller: users edit and delete services,
    configurations come and go, the controller processes services one at a time, its status
    writes may fail, and it may restart with empty memory. */
module Cluster {
  import opened Net
  import opened Config
  import opened Ledgers
  import opened AllocatorSpec
  import opened ControllerSpec

  /** `settled` names the services that the controller has processed to the end since they,
      or the controller, last changed. */
  datatype World = World(l: Ledger, config: Option<PoolMap>, synced: bool, services: map<string, Service>,
                         settled: set<string>)

  const START := World(INITIAL.l, None, false, map[], {})

  datatype Event =
    | Edit(name: string, svc: Service)
    | Delete(name: string)
    | Process(name: string, order: seq<string>, writeOk: bool)
    | Configure(pools: Option<PoolMap>)
    | MarkSynced
    | Restart

  ghost predicate Legal(e: Event) {
    match e
    case Edit(_, svc) => GoodPorts(svc.req.ports)
    case Configure(Some(pools)) => GoodPools(pools)
    case _ => true
  }

  ghost function Converged(t: Text, w: World, name: string, order: seq<string>, writeOk: bool): World
    requires name in w.services && Enumerates(order, w.l.pools.Keys)
  {
    var svc := w.services[name];
    var o := Converge(t, w.synced, w.l, name, svc, order);
    if o.done && (o.svc == svc || writeOk) then
      w.(l := o.l, services := w.services[name := o.svc], settled := w.settled + {name})
    else
      w.(l := o.l, settled := w.settled - {name})
  }

  /** `SetBalancer`: forget a deleted service, wait for a configuration, else converge and
      persist. An order that is not a visit of the pools is no event. */
  ghost function Processed(t: Text, w: World, name: string, order: seq<string>, writeOk: bool): World {
    if name !in w.services then w.(l := Unassign(w.l, name), settled := w.settled + {name})
    else if w.config.None? || !Enumerates(order, w.l.pools.Keys) then w
    else Converged(t, w, name, order, writeOk)
  }

  ghost function Configured(w: World, pools: PoolMap): World {
    if PoolsFit(w.l.allocs, pools) then w.(l := SetPools(w.l, pools), config := Some(pools)) else w
  }

  ghost function Step(t: Text, w: World, e: Event): World {
    match e
    case Edit(name, svc) => w.(services := w.services[name := svc], settled := w.settled - {name})
    case Delete(name) => w.(services := w.services - {name}, settled := w.settled - {name})
    case Process(name, order, writeOk) => Processed(t, w, name, order, writeOk)
    case Configure(None) => w
    case Configure(Some(pools)) => Configured(w, pools)
    case MarkSynced => w.(synced := true)
    case Restart => World(INITIAL.l, None, false, w.services, {})
  }

  ghost function History(t: Text, events: seq<Event>): World {
    if events == [] then START else Step(t, History(t, events[..|events| - 1]), events[|events| - 1])
  }

  /** The API object of n and the ledger tell the same story. */
  ghost predicate Tracks(t: Text, w: World, n: string) {
    if n in w.services then w.services[n].ingress == Status(t, w.l, n) && Deserved(t, w.l, n, w.services[n])
    else n !in w.l.allocs
  }

  ghost predicate Good(t: Text, w: World) {
    && Inv(w.l)
    && (w.config.Some? ==> w.l.pools == w.config.value)
    && (forall n :: n in w.services ==> GoodPorts(w.services[n].req.ports))
    && (forall n :: n in w.settled ==> Tracks(t, w, n))
  }

  lemma ProcessedGood(t: Text, w: World, name: string, order: seq<string>, writeOk: bool)
    requires Good(t, w)
    ensures Good(t, Processed(t, w, name, order, writeOk))
  {
    hide Inv, GoodPorts, Converge;
    var w' := Processed(t, w, name, order, writeOk);
    if name !in w.services {
      UnassignKeepsInv(w.l, name);
      ClearOthers(w.l, name);
      OthersTrack(t, w, w', name);
    } else if w.config.Some? && Enumerates(order, w.l.pools.Keys) {
      ConvergeAgrees(t, w.synced, w.l, name, w.services[name], order);
      ConvergeDeserved(t, w.synced, w.l, name, w.services[name], order);
      OthersTrack(t, w, w', name);
    }
  }

  /** A step that touches only name leaves every other service's story alone. */
  lemma OthersTrack(t: Text, w: World, w': World, name: string)
    requires OthersKept(w.l, w'.l, name) && w'.services - {name} == w.services - {name}
    requires forall n :: n in w.settled ==> Tracks(t, w, n)
    ensures forall n :: n in w.settled && n != name ==> Tracks(t, w', n)
  {
    forall n | n in w.settled && n != name
      ensures Tracks(t, w', n)
    {
      assert Tracks(t, w, n);
      SameElsewhere(w.l.allocs, w'.l.allocs, name, n);
      SameElsewhere(w.services, w'.services, name, n);
    }
  }

  lemma SameElsewhere<V>(m: map<string, V>, m': map<string, V>, name: string, n: string)
    requires m' - {name} == m - {name} && n != name
    ensures n in m' <==> n in m
    ensures n in m ==> m'[n] == m[n]
  {
    assert n in m <==> n in m - {name};
    assert n in m' <==> n in m' - {name};
    if n in m {
      assert (m - {name})[n] == m[n];
    }
  }

  lemma StepGood(t: Text, w: World, e: Event)
    requires Good(t, w) && Legal(e)
    ensures Good(t, Step(t, w, e))
  {
    hide Inv, GoodPorts, GoodPools, Converged;
    match e
    case Process(name, order, writeOk) => ProcessedGood(t, w, name, order, writeOk);
    case Configure(Some(pools)) =>
      SetPoolsKeepsInv(w.l, pools);
      var w' := Configured(w, pools);
      forall n | n in w'.settled
        ensures Tracks(t, w', n)
      {
        assert Tracks(t, w, n);
      }
    case Restart => InitialSound();
    case _ =>
      var w' := Step(t, w, e);
      forall n | n in w'.settled
        ensures Tracks(t, w', n)
      {
        assert Tracks(t, w, n);
      }
  }

  /** In every history, a settled service publishes exactly the address the allocator holds
      for it, and the allocator's pools are the accepted configuration's. */
  lemma {:induction false} EveryHistory(t: Text, events: seq<Event>)
    requires forall e :: e in events ==> Legal(e)
    ensures Good(t, History(t, events))
  {
    hide Good, Step, Legal;
    if events == [] {
      StartGood(t);
    } else {
      EveryHistory(t, events[..|events| - 1]);
      StepGood(t, History(t, events[..|events| - 1]), events[|events| - 1]);
    }
  }

  lemma StartGood(t: Text)
    ensures Good(t, START)
  {
    InitialSound();
  }

  /** In every history, two settled services never publish one address unless they agree on a
      non-empty sharing key and the backend key and use different ports. */
  lemma PublishedNeverClash(t: Text, events: seq<Event>, n: string, m: string)
    requires RoundTrips(t) && forall e :: e in events ==> Legal(e)
    requires var w := History(t, events);
             n != m && n in w.settled && m in w.settled && n in w.services && m in w.services
             && w.services[n].ingress == w.services[m].ingress != []
    ensures var l := History(t, events).l;
            && n in l.allocs && m in l.allocs && l.allocs[n].ip == l.allocs[m].ip
            && l.allocs[n].key == l.allocs[m].key && l.allocs[n].key.sharing != ""
            && forall p :: p in l.allocs[n].ports ==> p !in l.allocs[m].ports
  {
    hide Legal, History, GoodPools, Homed;
    EveryHistory(t, events);
    var w := History(t, events);
    assert Tracks(t, w, n) && Tracks(t, w, m);
    var a, b := w.l.allocs[n].ip, w.l.allocs[m].ip;
    assert t.parse(t.print_(a)) == Some(a) && t.parse(t.print_(b)) == Some(b);
    assert Ingress(t.print_(a), "") == Ingress(t.print_(b), "") by {
      assert w.services[n].ingress[0] == w.services[m].ingress[0];
    }
  }

  // ---------- Restarting ----------

  ghost function StepAll(t: Text, w: World, events: seq<Event>): World {
    if events == [] then w else Step(t, StepAll(t, w, events[..|events| - 1]), events[|events| - 1])
  }

  /** Some services are processed, in any order, any number of times. */
  ghost predicate Processing(events: seq<Event>, services: set<string>, pools: PoolMap) {
    forall e :: e in events ==> e.Process? && e.name in services && Enumerates(e.order, pools.Keys)
  }

  ghost function Names(events: seq<Event>): (r: set<string>)
    ensures forall n :: n in r <==> exists e :: e in events && e.Process? && e.name == n
  {
    if events == [] then {}
    else
      var rest, e := Names(events[..|events| - 1]), events[|events| - 1];
      assert events == events[..|events| - 1] + [e];
      if e.Process? then rest + {e.name} else rest
  }

  /** The user named no address, or spelled it the way the controller does. */
  predicate Spelled(t: Text, l: Ledger, n: string, svc: Service)
    requires n in l.allocs
  {
    svc.lbIp == "" || svc.lbIp == t.print_(l.allocs[n].ip)
  }

  /** The allocations of the services processed so far, less those spelled otherwise. */
  ghost function Regained(t: Text, w: World, done: set<string>): Allocations {
    map n | n in w.l.allocs && n in done && n in w.services && Spelled(t, w.l, n, w.services[n]) :: w.l.allocs[n]
  }

  /** After a restart and the same configuration. */
  ghost function Restarted(t: Text, w: World): World
    requires w.config.Some?
  {
    Step(t, Step(t, w, Restart), Configure(w.config))
  }

  lemma RestartedIs(t: Text, w: World)
    requires w.config.Some?
    ensures Restarted(t, w) == World(Ledger(w.config.value, map[]), w.config, false, w.services, {})
  {
    assert Rehomed(map[], w.config.value) == map[];
  }

  /** The claimed address is still free for its owner among those regained so far. */
  lemma RegainedAdmits(t: Text, w: World, done: set<string>, n: string)
    requires Inv(w.l) && n in w.l.allocs
    ensures Admits(Ledger(w.l.pools, Regained(t, w, done)), n, w.l.allocs[n].ip, Asks(w.l.allocs[n]))
  {
    hide GoodPools, Shares, PoolFor, Spelled;
    assert w.l.allocs[n].pool == PoolFor(w.l.pools, w.l.allocs[n].ip);
  }

  /** Processing one service before synchronisation takes back exactly its own address. */
  lemma RegainOne(t: Text, w: World, done: set<string>, n: string, order: seq<string>)
    requires RoundTrips(t) && Inv(w.l) && n in w.services && Tracks(t, w, n) && Enumerates(order, w.l.pools.Keys)
    ensures var o := Converge(t, false, Ledger(w.l.pools, Regained(t, w, done)), n, w.services[n], order);
      && o.l == Ledger(w.l.pools, Regained(t, w, done + {n}))
      && (o.done ==> o.svc == w.services[n])
  {
    hide Inv, Admits, Enumerates, RoundTrips;
    var l, svc := Ledger(w.l.pools, Regained(t, w, done)), w.services[n];
    if n in w.l.allocs {
      RegainedAdmits(t, w, done, n);
      ClaimedIs(t, svc, w.l.allocs[n].ip);
      RegainHeld(t, w, done, n, order);
    } else {
      assert Regained(t, w, done + {n}) == Regained(t, w, done);
      assert Unassign(l, n) == l by { assert l.allocs - {n} == l.allocs; }
    }
  }

  lemma ClaimedIs(t: Text, svc: Service, ip: Ip)
    requires RoundTrips(t) && svc.ingress == [Ingress(t.print_(ip), "")]
    ensures Claimed(t, svc) == Some(ip)
  {
  }

  lemma RegainHeld(t: Text, w: World, done: set<string>, n: string, order: seq<string>)
    requires Inv(w.l) && n in w.services && Tracks(t, w, n) && n in w.l.allocs && Enumerates(order, w.l.pools.Keys)
    requires Claimed(t, w.services[n]) == Some(w.l.allocs[n].ip)
    requires Admits(Ledger(w.l.pools, Regained(t, w, done)), n, w.l.allocs[n].ip, w.services[n].req)
    ensures var o := Converge(t, false, Ledger(w.l.pools, Regained(t, w, done)), n, w.services[n], order);
      && o.l == Ledger(w.l.pools, Regained(t, w, done + {n}))
      && (o.done ==> o.svc == w.services[n])
  {
    hide GoodPools, Sane, Admits, Enumerates, PoolFor;
    var l, svc, a := Ledger(w.l.pools, Regained(t, w, done)), w.services[n], w.l.allocs[n];
    assert NewAlloc(l, a.ip, svc.req) == a;
    var taken := l.allocs[n := a];
    if Spelled(t, w.l, n, svc) {
      assert taken == Regained(t, w, done + {n});
    } else {
      assert taken - {n} == Regained(t, w, done + {n}) == l.allocs;
    }
  }

  lemma {:induction false} RegainAll(t: Text, w: World, events: seq<Event>)
    requires RoundTrips(t) && Good(t, w) && w.config.Some? && w.services.Keys <= w.settled
    requires Processing(events, w.services.Keys, w.l.pools)
    ensures var w' := StepAll(t, Restarted(t, w), events);
      && w'.l == Ledger(w.l.pools, Regained(t, w, Names(events)))
      && w'.services == w.services && w'.config == w.config && !w'.synced
  {
    hide Inv, GoodPorts, Regained, Converge, RoundTrips, Enumerates;
    if events == [] {
      RestartedIs(t, w);
      assert Regained(t, w, {}) == map[] by { NothingRegained(t, w); }
    } else {
      var init, e := events[..|events| - 1], events[|events| - 1];
      RegainAll(t, w, init);
      assert Tracks(t, w, e.name);
      RegainOne(t, w, Names(init), e.name, e.order);
    }
  }

  lemma NothingRegained(t: Text, w: World)
    ensures Regained(t, w, {}) == map[]
  {
  }

  /** A restart forgets nothing that matters: if all services were settled and the configuration
      is the same, then processing every service before synchronisation, in any order and
      whatever the status writes do, leaves the API objects alone and regains every allocation
      but those whose requested address is spelled otherwise. */
  lemma RestartRestores(t: Text, w: World, events: seq<Event>)
    requires RoundTrips(t) && Good(t, w) && w.config.Some?
    requires w.services.Keys <= w.settled && w.l.allocs.Keys <= w.services.Keys
    requires Processing(events, w.services.Keys, w.l.pools) && Names(events) == w.services.Keys
    ensures var w' := StepAll(t, Restarted(t, w), events);
      && w'.services == w.services
      && w'.l == Ledger(w.l.pools, map n | n in w.l.allocs && Spelled(t, w.l, n, w.services[n]) :: w.l.allocs[n])
      && (w'.l == w.l <==> forall n :: n in w.l.allocs ==> Spelled(t, w.l, n, w.services[n]))
  {
    hide Good, Spelled, RoundTrips, StepAll, Restarted, Processing;
    RegainAll(t, w, events);
    var kept := map n | n in w.l.allocs && Spelled(t, w.l, n, w.services[n]) :: w.l.allocs[n];
    assert Regained(t, w, Names(events)) == kept;
    if forall n :: n in w.l.allocs ==> Spelled(t, w.l, n, w.services[n]) {
      assert kept == w.l.allocs;
    } else {
      var n :| n in w.l.allocs && !Spelled(t, w.l, n, w.services[n]);
      assert n !in kept;
    }
  }
}
