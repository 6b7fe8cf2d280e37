/** From the events of the speaker to the routes at its peers: which service called for which
    address last, and what its pool's configuration makes of it. */
module FrontRoutes {
  import opened Net
  import Bytes
  import opened Config
  import opened Ledgers
  import opened Routes
  import opened Advertising
  import opened SpeakerSpec
  import opened SpeakerRuns
  import opened SpeakerRoutes
  import opened FrontSpec
  import opened FrontRuns
  import opened FrontCalls
  import S = SessionSpec
  import P = SessionProofs
  import R = SessionRoutes

  // ---------- The last call ----------

  ghost function Before(m: Matcher, layer2: bool, events: seq<FrontSpec.Event>, k: nat): Front
    requires k <= |events|
  {
    History(m, layer2, IDLE, events[..k])
  }

  /** Event k is a call about the service, and there is a configuration if it takes one. */
  ghost predicate Call(m: Matcher, layer2: bool, events: seq<FrontSpec.Event>, name: string, k: int) {
    && 0 <= k < |events| && events[k].FvService? && events[k].name == name
    && !Ignored(Before(m, layer2, events, k), events[k].svc)
  }

  ghost predicate LastCall(m: Matcher, layer2: bool, events: seq<FrontSpec.Event>, name: string, k: int) {
    Call(m, layer2, events, name, k) && forall j :: k < j < |events| ==> !Call(m, layer2, events, name, j)
  }

  /** The call reported success. */
  ghost predicate Succeeded(m: Matcher, layer2: bool, events: seq<FrontSpec.Event>, k: int) {
    && 0 <= k < |events| && events[k].FvService?
    && var f, e := Before(m, layer2, events, k), events[k];
       Sound(f.bgp) && ServiceOk(m, layer2, f, e.name, e.svc, e.pool, e.luck)
  }

  /** The state of affairs is what the call asked for. */
  ghost predicate Heeded(layer2: bool, config: Option<PoolMap>, e: FrontSpec.Event, f: Front)
    requires e.FvService?
  {
    && (e.name in f.announced <==> Wanted(layer2, config, e.svc, e.luck.refusal))
    && forall n, ip :: CallsFor(layer2, config, e.svc, e.luck.refusal, n, ip) ==>
         InPlace(f, e.name, ip, config.value[n])
  }

  ghost predicate Tracked(m: Matcher, layer2: bool, events: seq<FrontSpec.Event>, name: string) {
    var f := History(m, layer2, IDLE, events);
    && (forall k :: LastCall(m, layer2, events, name, k) && Succeeded(m, layer2, events, k) ==>
          Heeded(layer2, Before(m, layer2, events, k).config, events[k], f))
    && ((forall k :: !Call(m, layer2, events, name, k)) ==> name !in f.announced)
  }

  /** Nothing about the service has changed. */
  ghost predicate SameAt(f: Front, f': Front, name: string) {
    && (name in f'.announced <==> name in f.announced)
    && (name in f.announced ==> f'.announced[name] == f.announced[name])
    && (name in f'.bgp.svcAds <==> name in f.bgp.svcAds)
    && (name in f.bgp.svcAds ==> f'.bgp.svcAds[name] == f.bgp.svcAds[name])
  }

  lemma ConfinedSame(f: Front, f': Front, other: string, name: string)
    requires Confined(f, f', other) && name != other
    ensures SameAt(f, f', name)
  {
    SameElsewhere(f.announced, f'.announced, other, name);
    SameElsewhere(f.bgp.svcAds, f'.bgp.svcAds, other, name);
  }

  lemma SameElsewhere<V>(m: map<string, V>, m': map<string, V>, other: string, name: string)
    requires m' - {other} == m - {other} && name != other
    ensures name in m' <==> name in m
    ensures name in m ==> m'[name] == m[name]
  {
    assert name in m <==> name in m - {other};
    assert name in m' <==> name in m' - {other};
    if name in m {
      assert (m - {other})[name] == m[name];
    }
  }

  lemma NextElsewhere(m: Matcher, layer2: bool, f: Front, e: FrontSpec.Event, name: string)
    requires Fine(m, f) && Sound(f.bgp) && (f.config.Some? ==> GoodPools(f.config.value))
    requires !(e.FvService? && e.name == name && !Ignored(f, e.svc))
    ensures SameAt(f, Next(m, layer2, f, e), name)
  {
    hide Fine, GoodPools, Sound, Step, Withdrawn, Placed, Confined, Wanted, CallsFor, InPlace, Spans;
    match e
    case FvService(other, svc, pool, luck) =>
      if !Ignored(f, svc) {
        CallExact(m, layer2, f, other, svc, pool, luck);
        ConfinedSame(f, Next(m, layer2, f, e), other, name);
      }
    case FvConfig(pools, cfgs, reached, ok, oks, order) =>
      StepLeavesAds(m, f.bgp, EvConfig(cfgs, oks, order));
    case FvBgp(e') =>
      if e'.EvNode? || e'.EvSession? {
        StepLeavesAds(m, f.bgp, e');
      }
  }

  // ---------- Configurations that can be in force ----------

  /** Accepted, and without advertisements that no session takes. */
  ghost predicate Proper(e: FrontSpec.Event) {
    e.FvConfig? ==> GoodPools(e.pools) && CleanConfig(e.pools)
  }

  lemma NextConfig(m: Matcher, layer2: bool, f: Front, e: FrontSpec.Event)
    requires Fine(m, f) && Sound(f.bgp) && (f.config.Some? ==> GoodPools(f.config.value)) && Proper(e)
    ensures var f' := Next(m, layer2, f, e); f'.config.Some? ==> GoodPools(f'.config.value)
  {
    hide Fine, GoodPools, CleanConfig, Sound, Step, Withdrawn, Placed, Wanted, CallsFor, InPlace, Spans;
    if e.FvService? {
      CallExact(m, layer2, f, e.name, e.svc, e.pool, e.luck);
    }
  }

  lemma {:induction false} ConfigInForce(m: Matcher, layer2: bool, events: seq<FrontSpec.Event>)
    requires forall e :: e in events ==> Proper(e)
    ensures var f := History(m, layer2, IDLE, events);
      Fine(m, f) && Sound(f.bgp) && (f.config.Some? ==> GoodPools(f.config.value))
  {
    hide Fine, GoodPools, Sound, Next, Proper;
    EveryFrontHistory(m, layer2, events);
    FineSound(m, History(m, layer2, IDLE, events));
    if events != [] {
      var n := |events| - 1;
      ConfigInForce(m, layer2, events[..n]);
      NextConfig(m, layer2, History(m, layer2, IDLE, events[..n]), events[n]);
    }
  }

  // ---------- Every history ----------

  lemma CallsBefore(m: Matcher, layer2: bool, init: seq<FrontSpec.Event>, e: FrontSpec.Event, name: string)
    requires !Call(m, layer2, init + [e], name, |init|)
    ensures forall k :: Call(m, layer2, init + [e], name, k) <==> Call(m, layer2, init, name, k)
    ensures forall k :: LastCall(m, layer2, init + [e], name, k) <==> LastCall(m, layer2, init, name, k)
    ensures forall k :: 0 <= k < |init| ==> (init + [e])[..k] == init[..k] && (init + [e])[k] == init[k]
  {
    hide Ignored, History;
    var events := init + [e];
    forall k | 0 <= k < |init|
      ensures events[..k] == init[..k] && events[k] == init[k]
    {
    }
    forall k
      ensures Call(m, layer2, events, name, k) <==> Call(m, layer2, init, name, k)
    {
    }
  }

  lemma HeededSame(layer2: bool, config: Option<PoolMap>, e: FrontSpec.Event, f: Front, f': Front)
    requires e.FvService? && Heeded(layer2, config, e, f) && SameAt(f, f', e.name)
    ensures Heeded(layer2, config, e, f')
  {
    hide Wanted, CallsFor, AdsFor;
  }

  lemma TrackedBefore(m: Matcher, layer2: bool, init: seq<FrontSpec.Event>, e: FrontSpec.Event, name: string)
    requires Tracked(m, layer2, init, name) && !Call(m, layer2, init + [e], name, |init|)
    requires SameAt(History(m, layer2, IDLE, init), History(m, layer2, IDLE, init + [e]), name)
    ensures Tracked(m, layer2, init + [e], name)
  {
    hide History, Call, Heeded, ServiceOk, Sound, LastCall;
    var events := init + [e];
    var f, f' := History(m, layer2, IDLE, init), History(m, layer2, IDLE, events);
    CallsBefore(m, layer2, init, e, name);
    forall k | LastCall(m, layer2, events, name, k) && Succeeded(m, layer2, events, k)
      ensures Heeded(layer2, Before(m, layer2, events, k).config, events[k], f')
    {
      LastIsCall(m, layer2, init, name, k);
      assert Succeeded(m, layer2, init, k);
      HeededSame(layer2, Before(m, layer2, init, k).config, init[k], f, f');
    }
  }

  lemma LastIsCall(m: Matcher, layer2: bool, events: seq<FrontSpec.Event>, name: string, k: int)
    requires LastCall(m, layer2, events, name, k)
    ensures 0 <= k < |events| && events[k].FvService? && events[k].name == name
  {
  }

  lemma TrackedNow(m: Matcher, layer2: bool, init: seq<FrontSpec.Event>, e: FrontSpec.Event, name: string)
    requires Call(m, layer2, init + [e], name, |init|)
    requires var f := History(m, layer2, IDLE, init);
      Fine(m, f) && Sound(f.bgp) && (f.config.Some? ==> GoodPools(f.config.value))
    ensures Tracked(m, layer2, init + [e], name)
  {
    hide Fine, GoodPools, Next, Wanted, CallsFor, InPlace, ServiceOk, Sound;
    var events, n := init + [e], |init|;
    assert events[..n] == init && events[n] == e;
    var f := History(m, layer2, IDLE, init);
    assert History(m, layer2, IDLE, events) == Next(m, layer2, f, e);
    CallExact(m, layer2, f, name, e.svc, e.pool, e.luck);
    assert e == FvService(name, e.svc, e.pool, e.luck);
    forall k | LastCall(m, layer2, events, name, k)
      ensures k == n
    {
      LastIsCall(m, layer2, events, name, k);
    }
  }

  /** In every history a service whose last call succeeded is announced as that call asked, and
      a service nobody called about is not announced. */
  lemma {:induction false} EveryCallTracked(m: Matcher, layer2: bool, events: seq<FrontSpec.Event>, name: string)
    requires forall e :: e in events ==> Proper(e)
    ensures Tracked(m, layer2, events, name)
  {
    hide Fine, GoodPools, Sound, Next, Proper, Tracked, Call, SameAt;
    if events == [] {
      assert Tracked(m, layer2, events, name) by { NobodyCalled(m, layer2, name); }
    } else {
      var n := |events| - 1;
      var init, e := events[..n], events[n];
      assert events == init + [e];
      EveryCallTracked(m, layer2, init, name);
      ConfigInForce(m, layer2, init);
      if Call(m, layer2, events, name, n) {
        TrackedNow(m, layer2, init, e, name);
      } else {
        assert !(e.FvService? && e.name == name && !Ignored(History(m, layer2, IDLE, init), e.svc)) by {
          NotCalled(m, layer2, init, e, name);
        }
        NextElsewhere(m, layer2, History(m, layer2, IDLE, init), e, name);
        TrackedBefore(m, layer2, init, e, name);
      }
    }
  }

  lemma NobodyCalled(m: Matcher, layer2: bool, name: string)
    ensures Tracked(m, layer2, [], name)
  {
  }

  lemma NotCalled(m: Matcher, layer2: bool, init: seq<FrontSpec.Event>, e: FrontSpec.Event, name: string)
    requires !Call(m, layer2, init + [e], name, |init|)
    ensures !(e.FvService? && e.name == name && !Ignored(History(m, layer2, IDLE, init), e.svc))
  {
    hide Ignored, History;
    assert (init + [e])[..|init|] == init;
  }

  // ---------- The books ----------

  /** The last call about the service asks for it to be announced through BGP, with this address
      from this pool of the configuration then in force. */
  ghost predicate Through(m: Matcher, layer2: bool, events: seq<FrontSpec.Event>, name: string, pool: Pool, ip: Ip) {
    exists k, n ::
      && LastCall(m, layer2, events, name, k)
      && CallsFor(layer2, Before(m, layer2, events, k).config, events[k].svc, events[k].luck.refusal, n, ip)
      && pool == Before(m, layer2, events, k).config.value[n] && pool.protocol == "bgp"
  }

  /** The queue has been served: of every service the last call succeeded. */
  ghost predicate Served(m: Matcher, layer2: bool, events: seq<FrontSpec.Event>) {
    forall name, k :: LastCall(m, layer2, events, name, k) ==> Succeeded(m, layer2, events, k)
  }

  lemma {:induction false} SomeLast(m: Matcher, layer2: bool, events: seq<FrontSpec.Event>, name: string, k: int)
    returns (last: int)
    requires Call(m, layer2, events, name, k)
    ensures LastCall(m, layer2, events, name, last)
    decreases |events| - k
  {
    hide Ignored, History;
    if j :| k < j < |events| && Call(m, layer2, events, name, j) {
      last := SomeLast(m, layer2, events, name, j);
    } else {
      last := k;
    }
  }

  lemma InBooks(m: Matcher, layer2: bool, events: seq<FrontSpec.Event>, name: string, pool: Pool, ip: Ip)
    requires Served(m, layer2, events) && Tracked(m, layer2, events, name) && Through(m, layer2, events, name, pool, ip)
    ensures var c := History(m, layer2, IDLE, events).bgp; name in c.svcAds && AdsFor(ip, pool, c.svcAds[name])
  {
    hide History, Succeeded, Wanted, AdsFor, Spans, Ignored;
    var k, n :|
      && LastCall(m, layer2, events, name, k)
      && CallsFor(layer2, Before(m, layer2, events, k).config, events[k].svc, events[k].luck.refusal, n, ip)
      && pool == Before(m, layer2, events, k).config.value[n] && pool.protocol == "bgp";
    LastIsCall(m, layer2, events, name, k);
    assert Heeded(layer2, Before(m, layer2, events, k).config, events[k], History(m, layer2, IDLE, events));
  }

  lemma FromBooks(m: Matcher, layer2: bool, events: seq<FrontSpec.Event>, name: string)
    requires Served(m, layer2, events) && Tracked(m, layer2, events, name)
    requires var f := History(m, layer2, IDLE, events); name in f.announced && f.announced[name] == "bgp"
    ensures exists pool, ip :: Through(m, layer2, events, name, pool, ip)
  {
    hide History, Call, Succeeded, AdsFor;
    var f := History(m, layer2, IDLE, events);
    var k0 :| Call(m, layer2, events, name, k0);
    var k := SomeLast(m, layer2, events, name, k0);
    LastIsCall(m, layer2, events, name, k);
    var config := Before(m, layer2, events, k).config;
    assert Heeded(layer2, config, events[k], f);
    var n, ip :| CallsFor(layer2, config, events[k].svc, events[k].luck.refusal, n, ip);
    assert Through(m, layer2, events, name, config.value[n], ip);
  }

  // ---------- The routes ----------

  /** What an entry of a pool makes of an address: the address masked to the entry's length. */
  ghost predicate Masked(ip: Ip, ad: BgpAd, q: Cidr) {
    ip.fam == V4 && 0 <= ad.aggLen <= 32 && q == Cidr(V4, Mask(ip.n, 32 - ad.aggLen), ad.aggLen)
  }

  /** Some service's last call brings the prefix about, through this entry of its pool. */
  ghost predicate Brings(m: Matcher, layer2: bool, events: seq<FrontSpec.Event>, name: string, pool: Pool, ip: Ip,
                         ad: BgpAd, q: Cidr) {
    Through(m, layer2, events, name, pool, ip) && ad in pool.ads && Masked(ip, ad, q)
  }

  /** The route says what the entry says: own AS, own address on this connection, the entry's
      local preference within the AS, and its communities in ascending order. */
  ghost predicate RouteMeans(cfg: PeerCfg, address: Bytes.U32, ad: BgpAd, r: Route) {
    && r.origin == 2 && r.asPath == (if cfg.myAsn == cfg.asn then [] else [cfg.myAsn]) && r.nextHop == address
    && r.localPref == (if cfg.myAsn == cfg.asn then Some(ad.localPref) else None)
    && (forall v :: v in r.communities <==> v in ad.communities)
    && (forall i, j :: 0 <= i < j < |r.communities| ==> r.communities[i] < r.communities[j])
  }

  lemma AdMasked(ip: Ip, pool: Pool, ads: seq<Adv>, i: nat)
    requires AdsFor(ip, pool, ads) && i < |ads| && Sendable(ads[i])
    ensures pool.ads[i] in pool.ads && Masked(ip, pool.ads[i], ads[i].prefix)
  {
    hide ListOf, Mask;
  }

  lemma AdMeansRoute(cfg: PeerCfg, address: Bytes.U32, ip: Ip, ad: BgpAd, a: Adv, r: Route)
    requires AdFor(ip, ad, a) && R.SaysOf(Terms(cfg), address, a, r)
    ensures RouteMeans(cfg, address, ad, r)
  {
    hide Mask;
  }

  ghost predicate RoutesAre(m: Matcher, layer2: bool, events: seq<FrontSpec.Event>, cfg: PeerCfg, address: Bytes.U32,
                            t: S.Table) {
    && (forall q :: q in t <==> exists name, pool, ip, ad :: Brings(m, layer2, events, name, pool, ip, ad, q))
    && (forall q :: q in t ==> exists name, pool, ip, ad ::
          Brings(m, layer2, events, name, pool, ip, ad, q) && RouteMeans(cfg, address, ad, t[q]))
  }

  /** An advertisement in the books is brought about by the service's last call. */
  lemma BooksBring(m: Matcher, layer2: bool, events: seq<FrontSpec.Event>, name: string, a: Adv)
    returns (pool: Pool, ip: Ip, ad: BgpAd)
    requires Served(m, layer2, events) && Tracked(m, layer2, events, name)
    requires var f := History(m, layer2, IDLE, events); Faithful(f) && name in f.bgp.svcAds && a in f.bgp.svcAds[name]
    ensures Brings(m, layer2, events, name, pool, ip, ad, a.prefix) && AdFor(ip, ad, a)
  {
    hide History, Served, Tracked, Through, CleanConfig, Sendable, Masked, AdFor;
    FromBooks(m, layer2, events, name);
    pool, ip :| Through(m, layer2, events, name, pool, ip);
    InBooks(m, layer2, events, name, pool, ip);
    var ads := History(m, layer2, IDLE, events).bgp.svcAds[name];
    var i :| 0 <= i < |ads| && ads[i] == a;
    ad := pool.ads[i];
    AdMasked(ip, pool, ads, i);
  }

  /** What the last call brings about is in the books. */
  lemma BroughtToBooks(m: Matcher, layer2: bool, events: seq<FrontSpec.Event>, name: string, pool: Pool, ip: Ip,
                       ad: BgpAd, q: Cidr) returns (a: Adv)
    requires Served(m, layer2, events) && Tracked(m, layer2, events, name)
    requires Brings(m, layer2, events, name, pool, ip, ad, q)
    ensures var c := History(m, layer2, IDLE, events).bgp; name in c.svcAds && a in c.svcAds[name] && a.prefix == q
  {
    hide History, Served, Tracked, Through, Mask, ListOf;
    InBooks(m, layer2, events, name, pool, ip);
    var i :| 0 <= i < |pool.ads| && pool.ads[i] == ad;
    a := History(m, layer2, IDLE, events).bgp.svcAds[name][i];
    assert AdFor(ip, ad, a);
  }

  lemma ServicesAre(m: Matcher, layer2: bool, events: seq<FrontSpec.Event>, cfg: PeerCfg, address: Bytes.U32,
                    t: S.Table)
    requires Served(m, layer2, events) && Faithful(History(m, layer2, IDLE, events))
    requires forall name :: Tracked(m, layer2, events, name)
    requires ShowsServices(cfg, address, History(m, layer2, IDLE, events).bgp.svcAds, t)
    ensures RoutesAre(m, layer2, events, cfg, address, t)
  {
    hide History, Served, Tracked, Brings, Faithful, AdFor, RouteMeans, R.SaysOf;
    var svcAds := History(m, layer2, IDLE, events).bgp.svcAds;
    forall q | q in t
      ensures exists name, pool, ip, ad ::
        Brings(m, layer2, events, name, pool, ip, ad, q) && RouteMeans(cfg, address, ad, t[q])
    {
      var s: string, a: Adv :| s in svcAds && a in svcAds[s] && a.prefix == q && R.SaysOf(Terms(cfg), address, a, t[q]);
      var pool, ip, ad := BooksBring(m, layer2, events, s, a);
      AdMeansRoute(cfg, address, ip, ad, a, t[q]);
    }
    forall q | exists name, pool, ip, ad :: Brings(m, layer2, events, name, pool, ip, ad, q)
      ensures q in t
    {
      var name, pool, ip, ad :| Brings(m, layer2, events, name, pool, ip, ad, q);
      var a := BroughtToBooks(m, layer2, events, name, pool, ip, ad, q);
    }
  }

  /** In every history over accepted configurations whose advertisements can be sent, once the
      last call about every service has succeeded: whenever a running session rests, its peer has
      a route for exactly the prefixes that the services' last calls bring about, and each route
      says what an entry of such a service's pool says, in the name of the address of the attempt
      that made the connection. */
  lemma RoutesFromEvents(m: Matcher, layer2: bool, events: seq<FrontSpec.Event>, peer: Peer, h: nat)
    requires (forall e :: e in events ==> Proper(e)) && Served(m, layer2, events)
    requires var c := History(m, layer2, IDLE, events).bgp;
      && peer in c.peers && peer.bgp == Some(h) && h < |c.sessions|
      && P.Resting(S.Run(Terms(peer.cfg), c.sessions[h].log))
    ensures var s := History(m, layer2, IDLE, events).bgp.sessions[h];
      && s.p == Terms(peer.cfg) && S.Usable(S.Run(s.p, s.log))
      && exists k :: R.UpSince(s.p, s.log, k)
           && RoutesAre(m, layer2, events, peer.cfg, s.log[k].dial.address, P.PeerTable(S.Run(s.p, s.log)))
  {
    hide History, Served, Tracked, Proper, Fine, Good, P.Resting, S.Run, P.PeerTable, ShowsServices, RoutesAre,
         AllSendable, CleanConfig, Matching;
    var c := History(m, layer2, IDLE, events).bgp;
    assert Faithful(History(m, layer2, IDLE, events)) by { ProperFaithful(m, layer2, events); }
    EveryFrontHistory(m, layer2, events);
    FineGood(m, History(m, layer2, IDLE, events));
    PeerSays(m, c, peer, h);
    forall name
      ensures Tracked(m, layer2, events, name)
    {
      EveryCallTracked(m, layer2, events, name);
    }
    var s := c.sessions[h];
    var t := P.PeerTable(S.Run(s.p, s.log));
    var k :| R.UpSince(s.p, s.log, k) && ShowsServices(peer.cfg, s.log[k].dial.address, c.svcAds, t);
    ServicesAre(m, layer2, events, peer.cfg, s.log[k].dial.address, t);
  }

  lemma ProperFaithful(m: Matcher, layer2: bool, events: seq<FrontSpec.Event>)
    requires forall e :: e in events ==> Proper(e)
    ensures Faithful(History(m, layer2, IDLE, events))
  {
    hide Faithful, GoodPools, CleanConfig, History;
    CleanHistory(m, layer2, events);
  }
}
