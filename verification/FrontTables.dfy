/** From what the speaker announces to what its peers have: the two agree exactly as long as
    nothing is refused. */
module FrontTables {
  import opened Net
  import opened Config
  import opened Ledgers
  import opened Routes
  import opened OpenCodec
  import opened Advertising
  import opened SpeakerSpec
  import opened SpeakerProofs
  import opened SpeakerRuns
  import opened FrontSpec
  import opened FrontRuns
  import opened FrontHistories
  import opened FrontRefusals
  import S = SessionSpec
  import P = SessionProofs
  import A = AllocatorSpec

  /** A service that is announced through BGP advertises the prefix. */
  ghost predicate Announces(f: Front, q: Cidr) {
    exists s, a :: s in f.announced && f.announced[s] == "bgp" && s in f.bgp.svcAds && a in f.bgp.svcAds[s] && a.prefix == q
  }

  ghost function StateOf(s: Sess): S.State {
    S.Run(s.p, s.log)
  }

  /** The session rests, and its peer has a route for exactly the announced prefixes. */
  ghost predicate Tells(f: Front, s: Sess) {
    P.Resting(StateOf(s)) ==>
      S.Usable(StateOf(s)) && forall q :: q in P.PeerTable(StateOf(s)) <==> Announces(f, q)
  }

  ghost predicate Truthful(f: Front) {
    forall peer, h :: peer in f.bgp.peers && peer.bgp == Some(h) && h < |f.bgp.sessions| ==> Tells(f, f.bgp.sessions[h])
  }

  ghost predicate AlwaysTruthful(m: Matcher, layer2: bool, u: iset<PoolMap>) {
    forall events :: OverConfigs(u, events) ==> Truthful(History(m, layer2, IDLE, events))
  }

  // ---------- Clean configurations ----------

  lemma FaithfulAnnounces(f: Front, q: Cidr)
    requires Faithful(f)
    ensures Announces(f, q) <==> exists s, a :: s in f.bgp.svcAds && a in f.bgp.svcAds[s] && a.prefix == q
  {
    hide CleanConfig, AllSendable;
    if s, a :| s in f.bgp.svcAds && a in f.bgp.svcAds[s] && a.prefix == q {
      assert s in f.announced && f.announced[s] == "bgp";
    }
  }

  lemma FaithfulTruthful(m: Matcher, f: Front)
    requires Good(m, f.bgp) && Faithful(f)
    ensures Truthful(f)
  {
    hide Good, Matching, CleanConfig, AllSendable, Announces, P.PeerTable, P.Resting, S.Run;
    forall peer, h | peer in f.bgp.peers && peer.bgp == Some(h) && h < |f.bgp.sessions|
      ensures Tells(f, f.bgp.sessions[h])
    {
      PeerLearns(m, f.bgp, peer, h);
      if P.Resting(StateOf(f.bgp.sessions[h])) {
        forall q
          ensures S.Usable(StateOf(f.bgp.sessions[h]))
            && (q in P.PeerTable(StateOf(f.bgp.sessions[h])) <==> Announces(f, q))
        {
          PeerTableExact(m, f.bgp, peer, h, q);
          FaithfulAnnounces(f, q);
        }
      }
    }
  }

  // ---------- Any other configuration ----------

  function Reply(): S.Dial {
    S.Answered(0, OpenResult(2, 90, true, true), true, true)
  }

  const CONNECT := S.Connect(Reply())

  const SEND_ALL := S.Enter([], 0)

  /** A session that refused its only list comes to rest with nothing to tell. */
  lemma RefusedRests(p: S.Params, advs: seq<Adv>)
    requires p.peerAsn == 2 && S.AllWellFormed(advs) && S.Merge(advs).None?
    ensures var s := S.Run(p, [S.SetAdvs(advs), CONNECT, SEND_ALL]);
      P.Resting(s) && S.Usable(s) && P.PeerTable(s) == map[]
  {
    hide S.Merge, S.AllWellFormed, S.Replay;
    var es := [S.SetAdvs(advs), CONNECT, SEND_ALL];
    assert es[..2] == [S.SetAdvs(advs), CONNECT] && es[..2][..1] == [S.SetAdvs(advs)] && [S.SetAdvs(advs)][..0] == [];
    assert S.Run(p, []) == S.NEW && S.Run(p, es[..2][..1]) == S.NEW;
    P.ConnectedIs(p, S.NEW, Reply());
    var s := S.Run(p, es[..2]);
    assert s.pc == S.Ready && s.conn == Some(0) && s.wire[0] == [S.Opened, S.Keepalive] && S.Want(s) == map[];
    assert S.Visit([], S.Want(s).Keys);
    assert S.Announcements(S.SpeakerOf(p, s), map[], S.Want(s), []) == [];
    assert [S.Opened, S.Keepalive] + [] == [S.Opened, S.Keepalive];
    P.QuietLog();
  }

  /** A service while nothing runs, then the peer, whose session refuses it and comes to rest. */
  function Untold(labels: Labels, sel: Selector, pools: PoolMap, n: string, ip: Ip,
                  ads: seq<Adv>): seq<FrontSpec.Event> {
    Outset(labels, sel, pools, n, ip, ads, false, SEND_ALL)
  }

  /** A service while nothing runs, then the peer, whose session connects and sends. */
  function Outset(labels: Labels, sel: Selector, pools: PoolMap, n: string, ip: Ip, ads: seq<Adv>, ok: bool,
                  send: S.Event): seq<FrontSpec.Event> {
    [SetLabels(labels), SetPoolsOnly(pools, []), SetService("a", ip, n, ads, ["a"]), SetPeer(pools, sel, ok, ["a"]),
     FvBgp(EvSession(0, CONNECT)), FvBgp(EvSession(0, send))]
  }

  lemma OwnStep(m: Matcher, c: Ctl, p: S.Params, log: seq<S.Event>, e: S.Event)
    requires Sound(c) && c.sessions == [Sess(p, log)] && !e.SetAdvs? && !e.Close?
    ensures Step(m, c, EvSession(0, e)) == c.(sessions := [Sess(p, log + [e])])
  {
  }

  lemma AfterOutset(m: Matcher, layer2: bool, labels: Labels, sel: Selector, pools: PoolMap, n: string, ip: Ip,
                    ads: seq<Adv>, ok: bool, send: S.Event)
    requires m(sel, labels) && Offers(pools, n, ip, ads) && !send.SetAdvs? && !send.Close?
    ensures var f := History(m, layer2, IDLE, Outset(labels, sel, pools, n, ip, ads, ok, send));
      && f.announced == map["a" := "bgp"] && f.bgp.svcAds == map["a" := ads]
      && f.bgp.peers == [Peer(PeerFor(sel), Some(0))]
      && f.bgp.sessions == [Sess(ParamsOf(PeerFor(sel)), [S.SetAdvs(ads), CONNECT, send])]
  {
    hide Sound, History, Fine, Offers;
    var es := Outset(labels, sel, pools, n, ip, ads, ok, send);
    assert es[..5] == es[..4] + [es[4]] && es == es[..5] + [es[5]];
    HistorySnoc(m, layer2, es[..4], es[4]);
    HistorySnoc(m, layer2, es[..5], es[5]);
    FirstNeighbour(m, layer2, labels, sel, pools, n, ip, ads, ok, es);
    var f4 := History(m, layer2, IDLE, es[..4]);
    assert Concat(map["a" := ads], ["a"]) == ads by { OnlyList(ads); }
    var p, told := ParamsOf(PeerFor(sel)), [S.SetAdvs(ads)];
    OwnStep(m, f4.bgp, p, told, CONNECT);
    OwnStep(m, History(m, layer2, IDLE, es[..5]).bgp, p, told + [CONNECT], send);
    assert told + [CONNECT] + [send] == [S.SetAdvs(ads), CONNECT, send];
  }

  lemma OnlyList(ads: seq<Adv>)
    ensures Concat(map["a" := ads], ["a"]) == ads
  {
    assert ["a"][..0] == [];
    assert Concat(map["a" := ads], []) == [];
  }

  /** The service is announced, and the resting peer has nothing. */
  lemma UntoldIsUntrue(m: Matcher, layer2: bool, labels: Labels, sel: Selector, pools: PoolMap, n: string, ip: Ip,
                       ads: seq<Adv>)
    requires m(sel, labels) && Offers(pools, n, ip, ads) && SomeUnfair(ip, pools[n])
    ensures !Truthful(History(m, layer2, IDLE, Untold(labels, sel, pools, n, ip, ads)))
  {
    hide History, AdsFor, Spans, ValidIp, SomeUnfair, S.Run, P.Resting, S.Usable, Good, S.Merge;
    var f := History(m, layer2, IDLE, Untold(labels, sel, pools, n, ip, ads));
    AfterOutset(m, layer2, labels, sel, pools, n, ip, ads, false, SEND_ALL);
    BadExact(ip, pools[n], ads);
    var a :| a in ads && !Sendable(a);
    EveryFrontHistory(m, layer2, Untold(labels, sel, pools, n, ip, ads));
    assert AllGood(f.bgp.svcAds) by { GoodAds(m, f.bgp); }
    OneListRefused(ads, a);
    RefusedRests(ParamsOf(PeerFor(sel)), ads);
    assert Announces(f, a.prefix) by { assert "a" in f.announced && a in f.bgp.svcAds["a"]; }
    var peer := f.bgp.peers[0];
    assert peer in f.bgp.peers && !Tells(f, f.bgp.sessions[0]);
  }

  lemma OneListRefused(ads: seq<Adv>, a: Adv)
    requires AllGood(map["a" := ads]) && a in ads && !Sendable(a)
    ensures S.AllWellFormed(ads) && S.Merge(ads).None?
  {
    hide S.Merge, Sendable, WellFormedAdv;
    var svcAds: SvcAds := map["a" := ads];
    assert forall i :: 0 <= i < |ads| ==> "a" in svcAds && ads[i] in svcAds["a"];
    MergeDefined(ads);
  }

  lemma UncleanUntrue(m: Matcher, layer2: bool, labels: Labels, sel: Selector, pools: PoolMap)
    returns (events: seq<FrontSpec.Event>)
    requires m(sel, labels) && GoodPools(pools) && !CleanConfig(pools)
    ensures Only(pools, events) && !Truthful(History(m, layer2, IDLE, events))
  {
    hide History, Truthful, AdsFor, Spans, ValidIp, SomeUnfair, GoodPools, CleanConfig;
    var n, ip, ads := UnfairOffer(pools);
    UntoldIsUntrue(m, layer2, labels, sel, pools, n, ip, ads);
    events := Untold(labels, sel, pools, n, ip, ads);
  }

  /** Over a family of accepted configurations, at every rest of every history each peer has a
      route for exactly the prefixes of the services announced through BGP, if and only if every
      configuration is clean. */
  lemma TruthHypothesisExact(m: Matcher, layer2: bool, u: iset<PoolMap>, labels: Labels, sel: Selector)
    requires m(sel, labels) && forall pools :: pools in u ==> GoodPools(pools)
    ensures AlwaysTruthful(m, layer2, u) <==> forall pools :: pools in u ==> CleanConfig(pools)
  {
    hide History, GoodPools, CleanConfig, Truthful;
    if forall pools :: pools in u ==> CleanConfig(pools) {
      forall events | OverConfigs(u, events)
        ensures Truthful(History(m, layer2, IDLE, events))
      {
        hide Faithful, Good;
        CleanHistory(m, layer2, events);
        EveryFrontHistory(m, layer2, events);
        FineGood(m, History(m, layer2, IDLE, events));
        FaithfulTruthful(m, History(m, layer2, IDLE, events));
      }
    } else {
      var pools :| pools in u && !CleanConfig(pools);
      var events := UncleanUntrue(m, layer2, labels, sel, pools);
      assert OverConfigs(u, events);
    }
  }

  // ---------- A route for a service that is gone ----------

  /** Both services of a refused pair are deleted, the fair one first. */
  function Deleted(labels: Labels, sel: Selector, pools: PoolMap, n: string, ip: Ip, ads: seq<Adv>,
                   k: string, jp: Ip, more: seq<Adv>): seq<FrontSpec.Event> {
    Neighbours(labels, sel, pools, n, ip, ads, k, jp, more) + [DeleteService("b", ["a"]), DeleteService("a", ["b"])]
  }

  lemma OnlyB(ads: seq<Adv>, more: seq<Adv>)
    ensures var svcAds: SvcAds := map["a" := ads, "b" := more];
      svcAds - {"a"} == map["b" := more] && svcAds.Keys - {"a"} == {"b"}
    ensures A.Enumerates(["b"], {"b"})
  {
  }

  lemma OfferSendable(pools: PoolMap, k: string, jp: Ip, more: seq<Adv>)
    requires Offers(pools, k, jp, more) && !SomeUnfair(jp, pools[k])
    ensures AllSendable(map["b" := more])
  {
    hide AdsFor, Sendable, Spans, ValidIp, SomeUnfair;
    BadExact(jp, pools[k], more);
  }

  /** Nothing is announced any more, but the session is told of the fair service: its deletion
      did nothing, and the deletion of the other lets its list through. */
  lemma DeletedIsTold(m: Matcher, layer2: bool, labels: Labels, sel: Selector, pools: PoolMap, n: string, ip: Ip,
                      ads: seq<Adv>,
                      k: string, jp: Ip, more: seq<Adv>)
    requires m(sel, labels) && Offers(pools, n, ip, ads) && Offers(pools, k, jp, more)
    requires SomeUnfair(ip, pools[n]) && !SomeUnfair(jp, pools[k])
    ensures var f := History(m, layer2, IDLE, Deleted(labels, sel, pools, n, ip, ads, k, jp, more));
      && f.announced == map[] && f.bgp.svcAds == map["b" := more] && f.bgp.peers == [Peer(PeerFor(sel), Some(0))]
      && |f.bgp.sessions| > 0 && forall a :: a in more ==> a.prefix in Desired(f.bgp.sessions[0])
  {
    hide Sound, History, SomeUnfair, Fine, Offers, Step, AllSendable, Desired, SomeRun, A.Enumerates;
    var es := Neighbours(labels, sel, pools, n, ip, ads, k, jp, more);
    var d1, d2 := DeleteService("b", ["a"]), DeleteService("a", ["b"]);
    assert Deleted(labels, sel, pools, n, ip, ads, k, jp, more) == (es + [d1]) + [d2];
    HistorySnoc(m, layer2, es, d1);
    HistorySnoc(m, layer2, es + [d1], d2);
    NeighbourRefused(m, layer2, labels, sel, pools, n, ip, ads, k, jp, more);
    FirstNeighbour(m, layer2, labels, sel, pools, n, ip, ads, false, es);
    EveryFrontHistory(m, layer2, es);
    var f := History(m, layer2, IDLE, es);
    assert Good(m, f.bgp) by { FineGood(m, f); }
    OnlyB(ads, more);
    OfferSendable(pools, k, jp, more);
    LetThrough(m, f.bgp, sel, ads, more);
  }

  /** An accepted configuration and a history that ends with nothing announced and something
      told. */
  lemma DeletedReached(m: Matcher, layer2: bool, labels: Labels, sel: Selector)
    requires m(sel, labels)
    ensures SoundDecoders(MixedDecoders()) && Accepts(MixedDecoders(), MIXED)
    ensures exists events :: var f := History(m, layer2, IDLE, events);
      && Only(PoolsOf(MixedDecoders(), MIXED), events) && f.announced == map[]
      && f.bgp.peers == [Peer(PeerFor(sel), Some(0))] && |f.bgp.sessions| > 0 && Desired(f.bgp.sessions[0]) != map[]
  {
    hide History, Accepts, SoundDecoders, PoolsOf, SomeUnfair, Offers, HostPool, Desired;
    MixedAccepted();
    var pools := PoolsOf(MixedDecoders(), MIXED);
    var ads := HostOffers(pools, "p", V6_HOST);
    var more := HostOffers(pools, "q", V4_HOST);
    DeletedIsTold(m, layer2, labels, sel, pools, "p", Ip(V6, 0), ads, "q", Ip(V4, 0), more);
    var es := Deleted(labels, sel, pools, "p", Ip(V6, 0), ads, "q", Ip(V4, 0), more);
    assert Only(pools, es);
    assert more[0].prefix in Desired(History(m, layer2, IDLE, es).bgp.sessions[0]);
  }

  lemma LetThrough(m: Matcher, c: Ctl, sel: Selector, ads: seq<Adv>, more: seq<Adv>)
    requires Good(m, c) && Sound(c) && c.svcAds == map["a" := ads, "b" := more]
      && c.peers == [Peer(PeerFor(sel), Some(0))]
    requires AllSendable(map["b" := more])
    ensures var c' := Step(m, c, EvDelete("a", ["b"]));
      && c'.svcAds == map["b" := more] && c'.peers == c.peers && |c'.sessions| == |c.sessions| && |c.sessions| > 0
      && forall a :: a in more ==> a.prefix in Desired(c'.sessions[0])
  {
    hide Good, Desired, SetAll, Concat, AllGood, AllSendable, A.Enumerates, Merged;
    var c1 := c.(svcAds := c.svcAds - {"a"});
    OnlyB(ads, more);
    assert AllGood(c1.svcAds) by { LessGood(c.svcAds, "a"); }
    assert Held(c1) by { FrontHeld(m, c); }
    UpdatedBound(c1, ["b"]);
    HandleThere(c, PeerFor(sel));
    forall a | a in more
      ensures a.prefix in Merged(c1.svcAds, ["b"])
    {
      assert "b" in c1.svcAds && a in c1.svcAds["b"];
      MergedKeys(c1.svcAds, ["b"], a.prefix);
    }
  }

  lemma LessGood(svcAds: SvcAds, name: string)
    requires AllGood(svcAds)
    ensures AllGood(svcAds - {name})
  {
    hide WellFormedAdv;
  }

  lemma FrontHeld(m: Matcher, c: Ctl)
    requires Good(m, c)
    ensures Held(c)
  {
  }

  lemma HandleThere(c: Ctl, cfg: PeerCfg)
    requires Numbered(c.peers, c.sessions) && c.peers == [Peer(cfg, Some(0))]
    ensures 0 in Handles(c.peers) && |c.sessions| > 0
  {
    var slots := SlotsOf(c.peers);
    assert slots[0] == Some(c.peers[0]);
    assert HoldsAt(slots, 0, 0);
    HasHandle(slots, 0);
    assert c.peers[0].bgp.Some?;
  }
}
