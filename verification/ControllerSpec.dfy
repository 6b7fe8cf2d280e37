/** The controller's convergence of one service (controller/service.go) as a function on the
    ledger, and the cluster it drives: API objects, configuration, allocations. */
module ControllerSpec {
  import opened Net
  import opened Config
  import opened Ledgers
  import opened AllocatorSpec

  datatype Ingress = Ingress(ip: string, hostname: string)

  /** The fields of a service that convergence reads or writes. */
  datatype Service = Service(kind: string, ingress: seq<Ingress>, lbIp: string, desiredPool: string, req: Request)

  /** `net.ParseIP` and `net.IP.String`. */
  datatype Text = Text(parse: string -> Option<Ip>, print_: Ip -> string)

  ghost predicate RoundTrips(t: Text) {
    forall ip :: t.parse(t.print_(ip)) == Some(ip)
  }

  /** A nil address prints as "<nil>". */
  function Show(t: Text, ip: Option<Ip>): string {
    if ip.Some? then t.print_(ip.value) else "<nil>"
  }

  function Cleared(svc: Service): Service {
    svc.(ingress := [])
  }

  function Published(t: Text, svc: Service, ip: Ip): Service {
    svc.(ingress := [Ingress(t.print_(ip), "")])
  }

  datatype Outcome = Outcome(l: Ledger, svc: Service, done: bool)

  /** Ledger, service and address in hand between the stages of `convergeBalancer`. */
  datatype Progress = Progress(l: Ledger, svc: Service, ip: Option<Ip>)

  function Clear(p: Progress, key: string): Progress {
    Progress(Unassign(p.l, key), Cleared(p.svc), None)
  }

  /** The address the status claims, if it is well formed. */
  function Claimed(t: Text, svc: Service): Option<Ip> {
    if |svc.ingress| == 1 then t.parse(svc.ingress[0].ip) else None
  }

  /** Keep the claimed address if it is still allowed, else start from a clean slate. */
  ghost function Reclaimed(t: Text, l: Ledger, key: string, svc: Service): Progress {
    var p := Progress(l, svc, Claimed(t, svc));
    if p.ip.Some? && Admits(l, key, p.ip.value, svc.req) then p.(l := Assign(l, key, p.ip.value, svc.req)) else Clear(p, key)
  }

  /** Drop an address other than the one the user asked for. */
  function Requested(t: Text, p: Progress, key: string): Progress {
    if p.svc.lbIp != "" && p.svc.lbIp != Show(t, p.ip) then Clear(p, key) else p
  }

  /** The address `allocateIP` settles on. */
  ghost function Chosen(t: Text, l: Ledger, key: string, svc: Service, order: seq<string>): Option<Ip>
    requires Enumerates(order, l.pools.Keys)
  {
    if svc.lbIp != "" then
      var ip := t.parse(svc.lbIp);
      if ip.Some? && Admits(l, key, ip.value, svc.req) then ip else None
    else if svc.desiredPool != "" then FromPool(l, key, svc.desiredPool, svc.req)
    else FromAnyPool(l, key, order, svc.req)
  }

  ghost function Allocated(t: Text, synced: bool, p: Progress, key: string, order: seq<string>): Outcome
    requires Enumerates(order, p.l.pools.Keys)
  {
    if p.ip.Some? then Outcome(p.l, Published(t, p.svc, p.ip.value), true)
    else if !synced then Outcome(p.l, p.svc, false)
    else match Chosen(t, p.l, key, p.svc, order)
      case None => Outcome(p.l, p.svc, true)
      case Some(ip) => Outcome(Assign(p.l, key, ip, p.svc.req), Published(t, p.svc, ip), true)
  }

  /** `convergeBalancer`. The order in which `Allocate` visits the pools is a parameter. */
  ghost function Converge(t: Text, synced: bool, l: Ledger, key: string, svc: Service, order: seq<string>): Outcome
    requires Enumerates(order, l.pools.Keys)
  {
    if svc.kind != "LoadBalancer" then Outcome(Unassign(l, key), Cleared(svc), true)
    else Allocated(t, synced, Requested(t, Reclaimed(t, l, key, svc), key), key, order)
  }

  // ---------- Status and ledger agree ----------

  /** What the status of key should be. */
  function Status(t: Text, l: Ledger, key: string): seq<Ingress> {
    if key in l.allocs then [Ingress(t.print_(l.allocs[key].ip), "")] else []
  }

  /** Between the stages: the ledger holds the address in hand for this very request, or nothing. */
  ghost predicate InHand(p: Progress, key: string) {
    match p.ip
    case Some(ip) => key in p.l.allocs && p.l.allocs[key] == NewAlloc(p.l, ip, p.svc.req)
    case None => key !in p.l.allocs && p.svc.ingress == []
  }

  ghost predicate OthersKept(l: Ledger, l': Ledger, key: string) {
    l'.pools == l.pools && l'.allocs - {key} == l.allocs - {key}
  }

  lemma ClearOthers(l: Ledger, key: string)
    ensures OthersKept(l, Unassign(l, key), key)
  {
    assert (l.allocs - {key}) - {key} == l.allocs - {key};
  }

  lemma AssignOthers(l: Ledger, key: string, ip: Ip, req: Request)
    ensures OthersKept(l, Assign(l, key, ip, req), key)
  {
    if Admits(l, key, ip, req) {
      assert l.allocs[key := NewAlloc(l, ip, req)] - {key} == l.allocs - {key};
    }
  }

  lemma ReclaimedInHand(t: Text, l: Ledger, key: string, svc: Service)
    requires Inv(l) && GoodPorts(svc.req.ports)
    ensures var p := Reclaimed(t, l, key, svc);
            InHand(p, key) && Inv(p.l) && OthersKept(l, p.l, key) && Cleared(p.svc) == Cleared(svc)
  {
    hide Inv, GoodPorts;
    var p := Reclaimed(t, l, key, svc);
    UnassignKeepsInv(l, key);
    ClearOthers(l, key);
    if p.ip.Some? {
      AssignKeepsInv(l, key, p.ip.value, svc.req);
      AssignOthers(l, key, p.ip.value, svc.req);
    }
  }

  lemma RequestedInHand(t: Text, p: Progress, key: string)
    requires InHand(p, key)
    ensures var r := Requested(t, p, key);
            InHand(r, key) && OthersKept(p.l, r.l, key) && Cleared(r.svc) == Cleared(p.svc)
  {
    ClearOthers(p.l, key);
  }

  lemma RequestedKeepsInv(t: Text, p: Progress, key: string)
    requires Inv(p.l)
    ensures Inv(Requested(t, p, key).l)
  {
    hide Inv;
    UnassignKeepsInv(p.l, key);
  }

  /** `allocateIP` runs without an allocation for key and answers an address the rules admit. */
  lemma ChosenAdmitted(t: Text, l: Ledger, key: string, svc: Service, order: seq<string>)
    requires GoodPools(l.pools) && key !in l.allocs && Enumerates(order, l.pools.Keys)
    ensures var r := Chosen(t, l, key, svc, order); r.Some? ==> Admits(l, key, r.value, svc.req)
  {
    hide GoodPools, Admits;
    if svc.lbIp == "" {
      if svc.desiredPool in l.pools {
        PoolSearchExact(l, key, svc.desiredPool, svc.req);
      }
      AllPoolsSearchExact(l, key, order, svc.req);
    }
  }

  lemma AllocatedAgrees(t: Text, synced: bool, p: Progress, key: string, order: seq<string>)
    requires InHand(p, key) && Inv(p.l) && GoodPorts(p.svc.req.ports) && Enumerates(order, p.l.pools.Keys)
    ensures var o := Allocated(t, synced, p, key, order);
            && o.svc == Cleared(p.svc).(ingress := Status(t, o.l, key))
            && Inv(o.l) && OthersKept(p.l, o.l, key)
  {
    hide GoodPools, Sane, Homed, GoodPorts, Enumerates;
    if p.ip.None? && synced {
      ChosenAdmitted(t, p.l, key, p.svc, order);
      if ip :| Chosen(t, p.l, key, p.svc, order) == Some(ip) {
        AssignKeepsInv(p.l, key, ip, p.svc.req);
        AssignOthers(p.l, key, ip, p.svc.req);
      }
    }
  }

  /** On every return the status lists exactly the address the ledger holds for the service,
      or both are empty; nothing else of the service and no other service's allocation changes. */
  lemma ConvergeAgrees(t: Text, synced: bool, l: Ledger, key: string, svc: Service, order: seq<string>)
    requires Inv(l) && GoodPorts(svc.req.ports) && Enumerates(order, l.pools.Keys)
    ensures var o := Converge(t, synced, l, key, svc, order);
            && o.svc == svc.(ingress := Status(t, o.l, key))
            && Inv(o.l) && OthersKept(l, o.l, key)
  {
    hide Inv, GoodPorts, Enumerates, Reclaimed, Requested, Allocated;
    if svc.kind != "LoadBalancer" {
      UnassignKeepsInv(l, key);
      ClearOthers(l, key);
    } else {
      ReclaimedInHand(t, l, key, svc);
      var p := Reclaimed(t, l, key, svc);
      RequestedInHand(t, p, key);
      RequestedKeepsInv(t, p, key);
      AllocatedAgrees(t, synced, Requested(t, p, key), key, order);
    }
  }

  /** What the service asks for is what it holds: for this request, and, if the user named an
      address, that address. */
  ghost predicate Deserved(t: Text, l: Ledger, key: string, svc: Service) {
    key in l.allocs ==>
      && svc.kind == "LoadBalancer" && Asks(l.allocs[key]) == svc.req
      && (svc.lbIp == "" || svc.lbIp == t.print_(l.allocs[key].ip) || t.parse(svc.lbIp) == Some(l.allocs[key].ip))
  }

  lemma AllocatedDeserved(t: Text, synced: bool, p: Progress, key: string, order: seq<string>)
    requires InHand(p, key) && GoodPools(p.l.pools) && Enumerates(order, p.l.pools.Keys) && p.svc.kind == "LoadBalancer"
    requires p.ip.Some? ==> p.svc.lbIp == "" || p.svc.lbIp == Show(t, p.ip)
    ensures var o := Allocated(t, synced, p, key, order); Deserved(t, o.l, key, o.svc)
  {
    hide GoodPools, Admits, Enumerates, PoolFor;
    if p.ip.None? && synced {
      ChosenAdmitted(t, p.l, key, p.svc, order);
    }
  }

  lemma ConvergeDeserved(t: Text, synced: bool, l: Ledger, key: string, svc: Service, order: seq<string>)
    requires Inv(l) && GoodPorts(svc.req.ports) && Enumerates(order, l.pools.Keys)
    ensures var o := Converge(t, synced, l, key, svc, order); Deserved(t, o.l, key, svc)
  {
    hide GoodPorts, Enumerates, Reclaimed, Allocated, GoodPools, Sane, Homed;
    if svc.kind == "LoadBalancer" {
      ReclaimedInHand(t, l, key, svc);
      var p := Reclaimed(t, l, key, svc);
      RequestedInHand(t, p, key);
      AllocatedDeserved(t, synced, Requested(t, p, key), key, order);
      ConvergeAgrees(t, synced, l, key, svc, order);
    }
  }

  // ---------- Convergence is idempotent ----------

  /** Asking again for what one already has changes nothing. */
  lemma AssignAgain(l: Ledger, key: string, req: Request)
    requires Inv(l) && key in l.allocs && Asks(l.allocs[key]) == req
    ensures Admits(l, key, l.allocs[key].ip, req) && Assign(l, key, l.allocs[key].ip, req) == l
  {
    var a := l.allocs[key];
    forall o | o in l.allocs && o != key && l.allocs[o].ip == a.ip
      ensures Shares(l.allocs[o], req)
    {
      assert Shares(l.allocs[o], Asks(a));
    }
    assert l.allocs[key := NewAlloc(l, a.ip, req)] == l.allocs;
  }

  /** Letting go of an address and asking for it again restores the ledger. */
  lemma ReleaseAndRetake(l: Ledger, key: string, req: Request)
    requires Inv(l) && key in l.allocs && Asks(l.allocs[key]) == req
    ensures Admits(Unassign(l, key), key, l.allocs[key].ip, req)
    ensures Assign(Unassign(l, key), key, l.allocs[key].ip, req) == l
  {
    AssignAgain(l, key, req);
    var a := l.allocs[key];
    assert (l.allocs - {key})[key := NewAlloc(l, a.ip, req)] == l.allocs;
  }

  /** The choice fails for every visiting order or for none. */
  lemma ChoiceFailsTogether(t: Text, l: Ledger, key: string, svc: Service, order: seq<string>, order': seq<string>)
    requires GoodPools(l.pools) && key !in l.allocs
    requires Enumerates(order, l.pools.Keys) && Enumerates(order', l.pools.Keys)
    requires Chosen(t, l, key, svc, order).None?
    ensures Chosen(t, l, key, svc, order').None?
  {
    hide GoodPools, Admits, HasRoom;
    AllPoolsSearchExact(l, key, order, svc.req);
    AllPoolsSearchExact(l, key, order', svc.req);
    if svc.lbIp == "" && svc.desiredPool == "" {
      if ip :| ScanPools(l, key, order', svc.req) == Some(ip) {
        var n := PoolFor(l.pools, ip);
        RoomWitness(l, key, n, ip, svc.req);
      }
    }
  }

  lemma RoomWitness(l: Ledger, key: string, n: string, ip: Ip, req: Request)
    requires n in l.pools && InPool(l.pools[n], ip) && Admits(l, key, ip, req)
    ensures HasRoom(l, key, n, req)
  {
  }

  /** A service that holds the address it publishes, for the request it makes, stays put. */
  ghost predicate Settled(t: Text, l: Ledger, key: string, svc: Service) {
    svc.ingress == Status(t, l, key) && (key in l.allocs ==> Asks(l.allocs[key]) == svc.req)
  }

  lemma HeldAgain(t: Text, synced: bool, l: Ledger, key: string, svc: Service, order: seq<string>)
    requires RoundTrips(t) && Inv(l) && GoodPorts(svc.req.ports) && Enumerates(order, l.pools.Keys)
    requires Settled(t, l, key, svc) && key in l.allocs && svc.kind == "LoadBalancer"
    requires svc.lbIp == "" || svc.lbIp == t.print_(l.allocs[key].ip)
             || (synced && t.parse(svc.lbIp) == Some(l.allocs[key].ip))
    ensures Converge(t, synced, l, key, svc, order) == Outcome(l, svc, true)
  {
    hide Inv, GoodPorts, Enumerates, Admits, Assign;
    AssignAgain(l, key, svc.req);
    ReleaseAndRetake(l, key, svc.req);
    var ip := l.allocs[key].ip;
    var p := Progress(l, svc, Some(ip));
    assert Reclaimed(t, l, key, svc) == p;
    assert Published(t, Cleared(svc), ip) == svc;
  }

  lemma EmptyAgain(t: Text, synced: bool, l: Ledger, key: string, svc: Service, order: seq<string>)
    requires Enumerates(order, l.pools.Keys) && svc.kind == "LoadBalancer" && svc.ingress == [] && key !in l.allocs
    ensures Converge(t, synced, l, key, svc, order) == Allocated(t, synced, Progress(l, svc, None), key, order)
  {
    hide Allocated, Enumerates;
    assert Unassign(l, key) == l by { assert l.allocs - {key} == l.allocs; }
  }

  lemma AllocatedAgain(t: Text, synced: bool, p: Progress, key: string, order: seq<string>, order': seq<string>)
    requires RoundTrips(t) && InHand(p, key) && Inv(p.l) && GoodPorts(p.svc.req.ports) && p.svc.kind == "LoadBalancer"
    requires Enumerates(order, p.l.pools.Keys) && Enumerates(order', p.l.pools.Keys)
    requires p.ip.Some? ==> p.svc.lbIp == "" || p.svc.lbIp == Show(t, p.ip)
    requires Allocated(t, synced, p, key, order).done
    ensures var o := Allocated(t, synced, p, key, order);
      o.l.pools == p.l.pools && Converge(t, synced, o.l, key, o.svc, order') == o
  {
    hide GoodPools, Sane, Homed, GoodPorts, Converge, Admits, Enumerates;
    var o := Allocated(t, synced, p, key, order);
    AllocatedAgrees(t, synced, p, key, order);
    if key in o.l.allocs {
      if p.ip.None? {
        ChosenAdmitted(t, p.l, key, p.svc, order);
      }
      HeldAgain(t, synced, o.l, key, o.svc, order');
    } else {
      EmptyAgain(t, synced, o.l, key, o.svc, order');
      if p.ip.None? && Chosen(t, p.l, key, p.svc, order).None? {
        ChoiceFailsTogether(t, p.l, key, p.svc, order, order');
      }
    }
  }

  /** Whether an address is admitted depends on the other services only. */
  lemma AdmitsElsewhere(l: Ledger, l': Ledger, key: string, ip: Ip, req: Request)
    requires OthersKept(l, l', key)
    ensures Admits(l', key, ip, req) <==> Admits(l, key, ip, req)
  {
    hide PoolFor, Shares;
    forall o | o != key
      ensures o in l'.allocs <==> o in l.allocs
      ensures o in l.allocs ==> l'.allocs[o] == l.allocs[o]
    {
      assert o in l.allocs <==> o in l.allocs - {key};
      assert o in l'.allocs <==> o in l'.allocs - {key};
      if o in l.allocs {
        assert (l.allocs - {key})[o] == (l'.allocs - {key})[o];
      }
    }
  }

  /** The return before synchronisation: the object stays as it is, and so does the ledger. */
  lemma WaitingAgain(t: Text, l: Ledger, key: string, svc: Service, order: seq<string>, order': seq<string>)
    requires Inv(l) && GoodPorts(svc.req.ports) && Enumerates(order, l.pools.Keys) && Enumerates(order', l.pools.Keys)
    requires !Converge(t, false, l, key, svc, order).done
    ensures var o := Converge(t, false, l, key, svc, order);
            o.l.pools == l.pools && Converge(t, false, o.l, key, svc, order') == o
  {
    hide Inv, GoodPorts, Enumerates, Admits;
    var o := Converge(t, false, l, key, svc, order);
    ReclaimedInHand(t, l, key, svc);
    RequestedInHand(t, Reclaimed(t, l, key, svc), key);
    ConvergeAgrees(t, false, l, key, svc, order);
    assert Unassign(o.l, key) == o.l by { assert o.l.allocs - {key} == o.l.allocs; }
    var ip := Claimed(t, svc);
    if ip.Some? {
      AdmitsElsewhere(l, o.l, key, ip.value, svc.req);
      RetakenAndCleared(o.l, key, ip.value, svc.req);
    }
  }

  lemma RetakenAndCleared(l: Ledger, key: string, ip: Ip, req: Request)
    requires key !in l.allocs
    ensures Unassign(Assign(l, key, ip, req), key) == l
  {
    hide Admits;
    assert l.allocs[key := NewAlloc(l, ip, req)] - {key} == l.allocs;
    assert l.allocs - {key} == l.allocs;
  }

  /** Running convergence again on what is persisted of its own result changes neither status
      nor allocations, after success, after failure, and when it returned to wait for
      synchronisation, whatever orders the two runs visit the pools in. */
  lemma ConvergeIdempotent(t: Text, synced: bool, l: Ledger, key: string, svc: Service, order: seq<string>,
                           order': seq<string>)
    requires RoundTrips(t) && Inv(l) && GoodPorts(svc.req.ports)
    requires Enumerates(order, l.pools.Keys) && Enumerates(order', l.pools.Keys)
    ensures var o := Converge(t, synced, l, key, svc, order);
            o.l.pools == l.pools && Converge(t, synced, o.l, key, if o.done then o.svc else svc, order') == o
  {
    hide Inv, GoodPorts, Enumerates, Reclaimed, Allocated;
    if svc.kind != "LoadBalancer" {
      assert (l.allocs - {key}) - {key} == l.allocs - {key};
    } else if Converge(t, synced, l, key, svc, order).done {
      ReclaimedInHand(t, l, key, svc);
      var p := Reclaimed(t, l, key, svc);
      RequestedInHand(t, p, key);
      RequestedKeepsInv(t, p, key);
      AllocatedAgain(t, synced, Requested(t, p, key), key, order, order');
    } else {
      assert !synced by { OnlyUnsynced(t, synced, l, key, svc, order); }
      WaitingAgain(t, l, key, svc, order, order');
    }
  }

  lemma OnlyUnsynced(t: Text, synced: bool, l: Ledger, key: string, svc: Service, order: seq<string>)
    requires Enumerates(order, l.pools.Keys) && !Converge(t, synced, l, key, svc, order).done
    ensures !synced
  {
    hide Reclaimed, Requested, Chosen, Enumerates;
  }
}
