/** The speaker's front end (speaker/main.go): which services it announces and through which
    protocol, over the BGP controller of SpeakerSpec. The layer 2 handler is I/O; only whether
    its calls succeed is part of the model. */
module FrontSpec {
  import opened Net
  import opened Config
  import opened Ledgers
  import opened Routes
  import opened Advertising
  import opened SpeakerSpec
  import A = AllocatorSpec

  // ---------- poolFor ----------

  ghost predicate Resolves(pools: PoolMap, ip: Ip, name: string) {
    if name == "" then forall n :: n in pools ==> !Spans(pools[n], ip)
    else name in pools && Spans(pools[name], ip)
  }

  /** `poolFor`: whichever pool the map iteration meets first, it is the only one. */
  method PoolOfAddress(pools: PoolMap, ip: Ip) returns (name: string)
    requires GoodPools(pools)
    ensures Resolves(pools, ip, name)
    ensures forall other :: Resolves(pools, ip, other) ==> other == name
  {
    hide GoodPools, Contains;
    var todo := pools.Keys;
    while todo != {}
      invariant todo <= pools.Keys
      invariant forall n :: n in pools && n !in todo ==> !Spans(pools[n], ip)
      decreases todo
    {
      var n :| n in todo;
      todo := todo - {n};
      for i := 0 to |pools[n].cidrs|
        invariant forall k :: 0 <= k < i ==> !Contains(pools[n].cidrs[k], ip)
      {
        if Contains(pools[n].cidrs[i], ip) {
          assert Spans(pools[n], ip);
          NamedPools(pools, n);
          forall other | Resolves(pools, ip, other)
            ensures other == n
          {
            OneResolution(pools, ip, n, other);
          }
          return n;
        }
      }
    }
    return "";
  }

  lemma NamedPools(pools: PoolMap, n: string)
    requires GoodPools(pools) && n in pools
    ensures n != ""
  {
  }

  lemma OneResolution(pools: PoolMap, ip: Ip, n: string, m: string)
    requires GoodPools(pools) && Resolves(pools, ip, n) && Resolves(pools, ip, m)
    ensures n == m
  {
    hide Contains;
    if n != "" && m != "" {
      var i :| 0 <= i < |pools[n].cidrs| && Contains(pools[n].cidrs[i], ip);
      var j :| 0 <= j < |pools[m].cidrs| && Contains(pools[m].cidrs[j], ip);
      assert Covers(pools, n, i, ip) && Covers(pools, m, j, ip);
    }
  }

  /** The allocator and the speaker agree on the pool of an address exactly when the speaker's
      pool does not avoid it. */
  lemma PoolsAgreeExact(pools: PoolMap, ip: Ip, name: string)
    requires GoodPools(pools) && Resolves(pools, ip, name)
    ensures PoolFor(pools, ip) == name <==> name == "" || !(pools[name].avoidBuggy && Buggy(ip))
  {
    hide Contains, Buggy;
    if name != "" && !(pools[name].avoidBuggy && Buggy(ip)) {
      OwnerUnique(pools, name, ip);
    }
  }

  /** A pool of the one address 0.0.0.0, which it avoids: the speaker finds the pool, the
      allocator none. */
  lemma PoolsDisagree()
    ensures var pools, ip := map["p" := Pool("bgp", [Cidr(V4, 0, 32)], true, true, [])], Ip(V4, 0);
            GoodPools(pools) && Resolves(pools, ip, "p") && PoolFor(pools, ip) == ""
  {
    var pools, ip: Ip := map["p" := Pool("bgp", [Cidr(V4, 0, 32)], true, true, [])], Ip(V4, 0);
    assert Contains(pools["p"].cidrs[0], ip);
    PoolsAgreeExact(pools, ip, "p");
  }

  /** In every run of the allocator, an address it has given out of a pool resolves to that
      pool in a speaker with the same configuration. */
  lemma AssignedResolves(events: seq<A.Event>, svc: string, name: string)
    requires forall i :: 0 <= i < |events| ==> A.Legal(events[i], A.GOOD_LISTS)
    ensures A.Run(events).Some?
    ensures var l := A.Run(events).value.l;
      svc in l.allocs && Resolves(l.pools, l.allocs[svc].ip, name) ==> name == l.allocs[svc].pool
  {
    hide GoodPools, InPool, A.Run, Sane;
    A.EveryRun(events);
    var l := A.Run(events).value.l;
    if svc in l.allocs && Resolves(l.pools, l.allocs[svc].ip, name) {
      var ip, own := l.allocs[svc].ip, l.allocs[svc].pool;
      assert Spans(l.pools[own], ip) by { InPoolSpans(l.pools[own], ip); }
      OneResolution(l.pools, ip, own, name);
    }
  }

  lemma InPoolSpans(p: Pool, ip: Ip)
    requires InPool(p, ip)
    ensures Spans(p, ip)
  {
  }

  // ---------- The front end ----------

  datatype Front = Front(config: Option<PoolMap>, announced: map<string, string>, svcIp: map<string, Ip>, bgp: Ctl)

  const IDLE := Front(None, map[], map[], START)

  /** A service as the speaker sees it; None is an address that does not parse. */
  datatype Svc = Svc(loadBalancer: bool, ingress: seq<Option<Ip>>)

  /** The outcomes that a call may meet: layer 2 calls (the first
      when a service moves to another protocol), orders of map iteration, the lists of
      communities, and what the handler's `ShouldAnnounce` answers. Outcomes that cannot be
      (a wrong list, a wrong order) change nothing. */
  datatype Luck = Luck(moved: bool, l2ok: bool, o1: seq<string>, o2: seq<string>, ads: seq<Adv>, refusal: string)

  /** Whether an update of the advertisements is accepted. */
  ghost predicate Takes(c: Ctl) {
    AllSendable(c.svcAds) || !SomeRun(c.peers)
  }

  ghost function Forgotten(f: Front, name: string): Front {
    f.(announced := f.announced - {name}, svcIp := f.svcIp - {name})
  }

  /** `deleteBalancer`. It failed exactly if the service is still announced. */
  ghost function Withdrawn(m: Matcher, f: Front, name: string, l2ok: bool, order: seq<string>): Front
    requires Sound(f.bgp)
  {
    if name !in f.announced then f
    else if f.announced[name] != "bgp" then if l2ok then Forgotten(f, name) else f
    else if !A.Enumerates(order, f.bgp.svcAds.Keys - {name}) then f
    else
      var f' := f.(bgp := Step(m, f.bgp, EvDelete(name, order)));
      if name !in f.bgp.svcAds || Takes(f'.bgp) then Forgotten(f', name) else f'
  }

  ghost function Noted(f: Front, name: string, ip: Ip, proto: string): Front {
    if name in f.announced then f else f.(announced := f.announced[name := proto], svcIp := f.svcIp[name := ip])
  }

  predicate Handled(layer2: bool, proto: string) {
    proto == "bgp" || (layer2 && proto == "layer2")
  }

  ghost predicate Moves(f: Front, name: string, proto: string) {
    name in f.announced && f.announced[name] != proto
  }

  ghost predicate Apt(c: Ctl, name: string, ip: Ip, pool: Pool, luck: Luck) {
    ValidIp(ip) && AdsFor(ip, pool, luck.ads) && A.Enumerates(luck.o2, c.svcAds.Keys + {name})
  }

  /** `SetBalancer` once the pool is known and the service is not announced otherwise. */
  ghost function Announced(m: Matcher, layer2: bool, f: Front, name: string, ip: Ip, pool: Pool, luck: Luck): Front
    requires Sound(f.bgp)
  {
    if !Handled(layer2, pool.protocol) || luck.refusal != "" then Withdrawn(m, f, name, luck.l2ok, luck.o2)
    else if pool.protocol == "bgp" then
      if !Apt(f.bgp, name, ip, pool, luck) then f else
      var f' := f.(bgp := Step(m, f.bgp, EvBalancer(name, ip, pool, luck.ads, luck.o2)));
      if Takes(f'.bgp) then Noted(f', name, ip, "bgp") else f'
    else if luck.l2ok then Noted(f, name, ip, pool.protocol) else f
  }

  ghost function Placed(m: Matcher, layer2: bool, f: Front, name: string, ip: Ip, pool: Pool, luck: Luck): Front
    requires Sound(f.bgp)
  {
    if Moves(f, name, pool.protocol) then
      var f' := Withdrawn(m, f, name, luck.moved, luck.o1);
      if name in f'.announced || !Sound(f'.bgp) then f' else Announced(m, layer2, f', name, ip, pool, luck)
    else Announced(m, layer2, f, name, ip, pool, luck)
  }

  // ---------- What SetBalancer reports ----------

  /** Whether a call reports success from here on. What cannot be does not succeed. */
  ghost predicate AnnouncedOk(m: Matcher, layer2: bool, f: Front, name: string, ip: Ip, pool: Pool, luck: Luck)
    requires Sound(f.bgp)
  {
    if !Handled(layer2, pool.protocol) || luck.refusal != "" then
      name !in Withdrawn(m, f, name, luck.l2ok, luck.o2).announced
    else if pool.protocol == "bgp" then
      Apt(f.bgp, name, ip, pool, luck) && Takes(Step(m, f.bgp, EvBalancer(name, ip, pool, luck.ads, luck.o2)))
    else luck.l2ok
  }

  ghost predicate PlacedOk(m: Matcher, layer2: bool, f: Front, name: string, ip: Ip, pool: Pool, luck: Luck)
    requires Sound(f.bgp)
  {
    if Moves(f, name, pool.protocol) then
      var f' := Withdrawn(m, f, name, luck.moved, luck.o1);
      name !in f'.announced && Sound(f'.bgp) && AnnouncedOk(m, layer2, f', name, ip, pool, luck)
    else AnnouncedOk(m, layer2, f, name, ip, pool, luck)
  }

  ghost predicate ServiceOk(m: Matcher, layer2: bool, f: Front, name: string, svc: Option<Svc>, pool: string,
                            luck: Luck)
    requires Sound(f.bgp)
  {
    if Ignored(f, svc) then true
    else if !HasAddress(svc) then name !in Withdrawn(m, f, name, luck.l2ok, luck.o2).announced
    else
      var ip := svc.value.ingress[0].value;
      && Resolves(f.config.value, ip, pool)
      && if pool == "" then name !in Withdrawn(m, f, name, luck.l2ok, luck.o2).announced
         else PlacedOk(m, layer2, f, name, ip, f.config.value[pool], luck)
  }

  datatype Event =
    | FvService(name: string, svc: Option<Svc>, pool: string, luck: Luck)
    | FvConfig(pools: PoolMap, cfgs: seq<PeerCfg>, reached: bool, ok: bool, oks: seq<bool>, order: seq<string>)
    | FvBgp(e: SpeakerSpec.Event)

  /** Whether a service is to be looked at, and has one address that parses. */
  ghost predicate HasAddress(svc: Option<Svc>) {
    svc.Some? && svc.value.loadBalancer && |svc.value.ingress| == 1 && svc.value.ingress[0].Some?
  }

  ghost predicate Ignored(f: Front, svc: Option<Svc>) {
    svc.Some? && svc.value.loadBalancer && f.config.None?
  }

  ghost predicate AllSpanned(svcIp: map<string, Ip>, pools: PoolMap) {
    forall s :: s in svcIp ==> exists n :: n in pools && Spans(pools[n], svcIp[s])
  }

  /** One event. The pool in a service event is the one that `poolFor` finds. */
  ghost function Next(m: Matcher, layer2: bool, f: Front, e: Event): Front
    requires Sound(f.bgp)
  {
    match e
    case FvService(name, svc, pool, luck) =>
      if Ignored(f, svc) then f
      else if !HasAddress(svc) then Withdrawn(m, f, name, luck.l2ok, luck.o2)
      else
        var ip := svc.value.ingress[0].value;
        if !Resolves(f.config.value, ip, pool) then f
        else if pool == "" then Withdrawn(m, f, name, luck.l2ok, luck.o2)
        else Placed(m, layer2, f, name, ip, f.config.value[pool], luck)
    case FvConfig(pools, cfgs, reached, ok, oks, order) =>
      if !AllSpanned(f.svcIp, pools) then f
      else
        var f' := if reached then f.(bgp := Step(m, f.bgp, EvConfig(cfgs, oks, order))) else f;
        if reached && ok then f'.(config := Some(pools)) else f'
    case FvBgp(e) =>
      if e.EvNode? || e.EvSession? then f.(bgp := Step(m, f.bgp, e)) else f
  }
}
