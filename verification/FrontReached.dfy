/** A whole history from nothing to a route: one service, one peer, one entry in its table. */
module FrontReached {
  import opened Net
  import opened Config
  import opened Ledgers
  import opened Routes
  import opened UpdateCodec
  import opened Advertising
  import opened SpeakerSpec
  import opened SpeakerRoutes
  import opened FrontSpec
  import opened FrontRuns
  import opened FrontHistories
  import opened FrontRefusals
  import opened FrontTables
  import opened FrontRoutes
  import S = SessionSpec
  import P = SessionProofs
  import X = SessionPrefixes
  import R = SessionRoutes
  import SpeakerRuns

  /** The pool of 0.0.0.0/32. */
  const POOLS: PoolMap := map["q" := HostPool(V4_HOST)]

  const SEND_ONE := S.Enter([V4_HOST], 1)

  lemma PoolsProper()
    ensures GoodPools(POOLS) && CleanConfig(POOLS)
  {
    assert Aligned(V4_HOST);
  }

  /** A service that is set while no peer is there is a success. */
  lemma CalmOk(m: Matcher, layer2: bool, f: Front, labels: Labels, name: string, ip: Ip, pool: string, ads: seq<Adv>,
               order: seq<string>)
    requires Fine(m, f) && Sound(f.bgp) && Calm(f, labels, map[], map[]) && f.config.Some?
    requires pool != "" && Resolves(f.config.value, ip, pool) && f.config.value[pool].protocol == "bgp"
    requires Apt(f.bgp, name, ip, f.config.value[pool], Luck(true, true, [], order, ads, ""))
    ensures var e := SetService(name, ip, pool, ads, order); ServiceOk(m, layer2, f, name, e.svc, pool, e.luck)
  {
    hide Sound, Step, Apt, Spans, SpeakerRuns.Good, AllSendable;
    var luck := Luck(true, true, [], order, ads, "");
    BalancerEffect(m, f.bgp, name, ip, f.config.value[pool], luck);
    assert !SomeRun(f.bgp.peers);
  }

  lemma OutsetServed(m: Matcher, layer2: bool, labels: Labels, sel: Selector, pools: PoolMap, n: string, ip: Ip,
                     ads: seq<Adv>, send: S.Event)
    requires Offers(pools, n, ip, ads)
    ensures Served(m, layer2, Outset(labels, sel, pools, n, ip, ads, true, send))
  {
    hide Next, Sound, History, Fine, SetLabels, SetPoolsOnly, Resolves, AllSpanned, AdsFor, ValidIp, Spans, ServiceOk,
         Apt;
    var es := Outset(labels, sel, pools, n, ip, ads, true, send);
    assert es[..1] == [] + [es[0]] && es[..2] == es[..1] + [es[1]];
    HistorySnoc(m, layer2, [], es[0]);
    HistorySnoc(m, layer2, es[..1], es[1]);
    EmptyHistory(m, layer2);
    OneThenTwo();
    OfferSpans(pools, n, ip, ads);
    CalmStart(m, layer2, labels);
    EveryFrontHistory(m, layer2, es[..1]);
    FineSound(m, History(m, layer2, IDLE, es[..1]));
    EveryFrontHistory(m, layer2, es[..2]);
    CalmConfig(m, layer2, History(m, layer2, IDLE, es[..1]), labels, map[], map[], pools, []);
    var f := History(m, layer2, IDLE, es[..2]);
    FineSound(m, f);
    assert Apt(f.bgp, "a", ip, pools[n], Luck(true, true, [], ["a"], ads, "")) by {
      AptFirst(f.bgp, ip, pools[n], ads);
    }
    CalmOk(m, layer2, f, labels, "a", ip, n, ads, ["a"]);
    assert Succeeded(m, layer2, es, 2);
    forall name, k | LastCall(m, layer2, es, name, k)
      ensures k == 2
    {
      LastIsCall(m, layer2, es, name, k);
      OnlyService(labels, sel, pools, n, ip, ads, send, k);
    }
  }

  lemma AptFirst(c: Ctl, ip: Ip, pool: Pool, ads: seq<Adv>)
    requires ValidIp(ip) && AdsFor(ip, pool, ads) && c.svcAds == map[]
    ensures Apt(c, "a", ip, pool, Luck(true, true, [], ["a"], ads, ""))
  {
    hide AdsFor;
  }

  lemma OnlyService(labels: Labels, sel: Selector, pools: PoolMap, n: string, ip: Ip, ads: seq<Adv>, send: S.Event,
                    k: int)
    requires 0 <= k < |Outset(labels, sel, pools, n, ip, ads, true, send)|
    ensures Outset(labels, sel, pools, n, ip, ads, true, send)[k].FvService? ==> k == 2
  {
  }

  lemma HostAds(ads: seq<Adv>)
    requires AdsFor(Ip(V4, 0), HostPool(V4_HOST), ads)
    ensures V4Prefix(V4_HOST) && ads == [X.Plain(V4_HOST)]
  {
    ListSize(ads[0].communities, {});
  }

  /** The session that is told of this one prefix connects, sends it and rests. */
  lemma OneRests(p: S.Params)
    requires p == S.Params(1, 2, 90) && V4Prefix(V4_HOST)
    ensures var s := S.Run(p, [S.SetAdvs([X.Plain(V4_HOST)]), CONNECT, SEND_ONE]);
      && P.Resting(s) && S.Usable(s)
      && P.PeerTable(s) == map[V4_HOST := Route(2, [1], 0, None, [])]
  {
    hide S.Run, Canon;
    var k := V4_HOST;
    var es := [S.SetAdvs([X.Plain(k)]), CONNECT, SEND_ONE];
    assert X.Swap(p, k, k)[..3] == es;
    X.First(p, k, k);
    var s := S.Run(p, es);
    assert P.Injective(iset{k});
    P.PeerInSync(p, iset{k}, es);
    assert s.desired == map[k := X.Plain(k)] by { P.OneConnection(p, es); }
    assert s.address == 0 by { OwnAddress(p, es); }
    assert Canon(k) == k by { HostCanon(); }
    assert P.PeerTable(s) == map[k := RouteOf(S.SpeakerOf(p, s), X.Plain(k))];
  }

  lemma OwnAddress(p: S.Params, es: seq<S.Event>)
    requires es == [S.SetAdvs([X.Plain(V4_HOST)]), CONNECT, SEND_ONE] && V4Prefix(V4_HOST) && S.Run(p, es).conn.Some?
    ensures S.Run(p, es).address == 0
  {
    hide S.Run;
    var k := R.MadeByAttempt(p, es);
  }

  lemma HostCanon()
    ensures Canon(V4_HOST) == V4_HOST
  {
  }

  /** From nothing: labels, a configuration, a service, a peer, its session connects and sends.
      All is served, the session rests, and its peer has the one route. */
  lemma RouteReached(m: Matcher, layer2: bool, labels: Labels, sel: Selector)
    requires m(sel, labels)
    ensures exists events :: var c := History(m, layer2, IDLE, events).bgp;
      && (forall e :: e in events ==> Proper(e)) && Served(m, layer2, events)
      && c.peers == [Peer(PeerFor(sel), Some(0))] && |c.sessions| == 1
      && var s := S.Run(Terms(PeerFor(sel)), c.sessions[0].log);
         P.Resting(s) && S.Usable(s) && P.PeerTable(s) == map[V4_HOST := Route(2, [1], 0, None, [])]
  {
    hide History, Offers, Served, GoodPools, CleanConfig, P.Resting, P.PeerTable, S.Run, HostPool;
    PoolsProper();
    var ads := HostOffers(POOLS, "q", V4_HOST);
    assert ads == [X.Plain(V4_HOST)] && V4Prefix(V4_HOST) by { OfferedAds(ads); }
    var es := Outset(labels, sel, POOLS, "q", Ip(V4, 0), ads, true, SEND_ONE);
    AfterOutset(m, layer2, labels, sel, POOLS, "q", Ip(V4, 0), ads, true, SEND_ONE);
    OutsetServed(m, layer2, labels, sel, POOLS, "q", Ip(V4, 0), ads, SEND_ONE);
    OneRests(Terms(PeerFor(sel)));
    assert forall e :: e in es ==> Proper(e);
  }

  lemma OfferedAds(ads: seq<Adv>)
    requires Offers(POOLS, "q", Ip(V4, 0), ads)
    ensures V4Prefix(V4_HOST) && ads == [X.Plain(V4_HOST)]
  {
    HostAds(ads);
  }
}
