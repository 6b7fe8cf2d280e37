/** Which configurations keep the speaker's books straight: exactly those without an
    advertisement that the sessions refuse. Any other leads from the start to a stuck service. */
module FrontRefusals {
  import opened Net
  import Bytes
  import opened Config
  import opened Ledgers
  import opened Routes
  import opened Advertising
  import opened SpeakerSpec
  import opened FrontSpec
  import opened FrontRuns
  import opened SpeakerRuns
  import opened FrontHistories
  import A = AllocatorSpec

  // ---------- Lists of advertisements ----------

  lemma {:induction false} SomeList(all: set<Bytes.U32>) returns (list: seq<Bytes.U32>)
    ensures ListOf(list, all)
    decreases |all|
  {
    if all == {} {
      list := [];
    } else {
      var x :| x in all;
      list := SomeList(all - {x});
      var n := Place(list, x);
      assert n > 0 ==> list[n - 1] in list;
      InsertedHere(list, n, x, all - {x});
      list := list[..n] + [x] + list[n..];
      assert all - {x} + {x} == all;
    }
  }

  lemma {:induction false} Place(list: seq<Bytes.U32>, x: Bytes.U32) returns (n: nat)
    requires Ascending(list)
    ensures n <= |list| && (n > 0 ==> list[n - 1] <= x) && forall i :: n <= i < |list| ==> x < list[i]
  {
    if list == [] || list[|list| - 1] <= x {
      n := |list|;
    } else {
      n := Place(list[..|list| - 1], x);
    }
  }

  lemma SomeAd(ip: Ip, cfg: BgpAd) returns (a: Adv)
    ensures AdFor(ip, cfg, a)
  {
    hide Mask;
    var list := SomeList(cfg.communities);
    var prefix := if ip.fam == V4 && 0 <= cfg.aggLen <= 32 then Cidr(V4, Mask(ip.n, 32 - cfg.aggLen), cfg.aggLen)
                  else Cidr(V6, 0, 0);
    a := Adv(prefix, None, cfg.localPref, list);
  }

  /** Every call of `SetBalancer` makes some list. */
  lemma {:induction false} SomeAds(ip: Ip, cfgs: seq<BgpAd>) returns (ads: seq<Adv>)
    ensures |ads| == |cfgs| && forall i :: 0 <= i < |ads| ==> AdFor(ip, cfgs[i], ads[i])
  {
    hide AdFor;
    if cfgs == [] {
      ads := [];
    } else {
      var init := SomeAds(ip, cfgs[..|cfgs| - 1]);
      var a := SomeAd(ip, cfgs[|cfgs| - 1]);
      ads := init + [a];
    }
  }

  // ---------- A new service is refused ----------

  /** The node's labels, one peer that they select, one service. */
  function Refusal(labels: Labels, sel: Selector, pools: PoolMap, n: string, ip: Ip,
                   ads: seq<Adv>): seq<FrontSpec.Event> {
    [SetLabels(labels), SetPeer(pools, sel, true, []), SetService("s", ip, n, ads, ["s"])]
  }

  lemma NoneVisited()
    ensures A.Enumerates([], {}) && A.Enumerates(["s"], {} + {"s"})
  {
  }

  lemma BeforeService(m: Matcher, layer2: bool, labels: Labels, sel: Selector, pools: PoolMap, n: string, ip: Ip,
                      ads: seq<Adv>)
    requires m(sel, labels)
    ensures var f := History(m, layer2, IDLE, Refusal(labels, sel, pools, n, ip, ads)[..2]);
      f.config == Some(pools) && f.announced == map[] && f.bgp.svcAds == map[] && SomeRun(f.bgp.peers)
  {
    hide History, Sound, Next, SetLabels, SetPeer;
    var es := Refusal(labels, sel, pools, n, ip, ads);
    assert es[..1] == [] + [es[0]] && es[..2] == es[..1] + [es[1]];
    HistorySnoc(m, layer2, [], es[0]);
    HistorySnoc(m, layer2, es[..1], es[1]);
    EmptyHistory(m, layer2);
    CalmStart(m, layer2, labels);
    NoneVisited();
    CalmPeer(m, layer2, History(m, layer2, IDLE, es[..1]), labels, map[], map[], pools, sel, true, []);
    assert History(m, layer2, IDLE, es[..2]).bgp.peers[0].bgp.Some?;
  }

  /** From the start to a stuck service, with any configuration that has an unfair entry. */
  lemma RefusedFromStart(m: Matcher, layer2: bool, labels: Labels, sel: Selector, pools: PoolMap, n: string, ip: Ip,
                         ads: seq<Adv>)
    requires m(sel, labels) && n in pools && n != "" && pools[n].protocol == "bgp"
    requires ValidIp(ip) && Spans(pools[n], ip) && AdsFor(ip, pools[n], ads) && SomeUnfair(ip, pools[n])
    ensures var f := History(m, layer2, IDLE, Refusal(labels, sel, pools, n, ip, ads)); !Matching(f) && Stuck(f, "s")
  {
    hide History, Sound, Announced, SomeRun, Spans, AdsFor, ValidIp, SomeUnfair, Fine, Stuck;
    var es := Refusal(labels, sel, pools, n, ip, ads);
    assert es == es[..2] + [es[2]];
    HistorySnoc(m, layer2, es[..2], es[2]);
    BeforeService(m, layer2, labels, sel, pools, n, ip, ads);
    EveryFrontHistory(m, layer2, es[..2]);
    var f := History(m, layer2, IDLE, es[..2]);
    var luck := es[2].luck;
    NoneVisited();
    assert Apt(f.bgp, "s", ip, pools[n], luck);
    assert Resolves(f.config.value, ip, n);
    MatchingExact(m, layer2, f, "s", ip, pools[n], luck);
  }

  /** An accepted configuration that leads there: one IPv6 address in a BGP pool. */
  lemma StuckReached(m: Matcher, layer2: bool, labels: Labels, sel: Selector)
    requires m(sel, labels)
    ensures Accepts(V6Decoders(), [V6_POOL])
    ensures exists events :: Only(PoolsOf(V6Decoders(), [V6_POOL]), events) && Stuck(History(m, layer2, IDLE, events), "s")
  {
    hide History, Accepts, Stuck, SoundDecoders, PoolsOf, AdsFit, AdFor, Pow2, Mask, AdsOf, CidrsOf;
    DefaultTooShortAccepted();
    V6PoolIs();
    var pools := PoolsOf(V6Decoders(), [V6_POOL]);
    var pool := pools["p"];
    var ip := Ip(V6, 0);
    var ads := SomeAds(ip, pool.ads);
    assert Contains(pool.cidrs[0], ip);
    assert pool.ads[0] in pool.ads && !Fair(ip, pool.ads[0]);
    assert ValidIp(ip) by { PositivePow(128); }
    RefusedFromStart(m, layer2, labels, sel, pools, "p", ip, ads);
    assert Only(pools, Refusal(labels, sel, pools, "p", ip, ads));
  }

  lemma PositivePow(k: nat)
    ensures Pow2(k) > 0
  {
  }

  // ---------- A fair service beside an unfair one ----------

  /** The address is one of the pool's, and the list what the pool makes of it. */
  ghost predicate Offers(pools: PoolMap, n: string, ip: Ip, ads: seq<Adv>) {
    && n != "" && n in pools && pools[n].protocol == "bgp"
    && ValidIp(ip) && Spans(pools[n], ip) && AdsFor(ip, pools[n], ads)
  }

  /** One service while nothing runs, then the peer, then another service. The configuration
      with the peer is not accepted as a whole, because its session refuses the list. */
  function Neighbours(labels: Labels, sel: Selector, pools: PoolMap, n: string, ip: Ip, ads: seq<Adv>,
                      k: string, jp: Ip, more: seq<Adv>): seq<FrontSpec.Event> {
    [SetLabels(labels), SetPoolsOnly(pools, []), SetService("a", ip, n, ads, ["a"]),
     SetPeer(pools, sel, false, ["a"]), SetService("b", jp, k, more, ["a", "b"])]
  }

  lemma OneThenTwo()
    ensures A.Enumerates(["a"], {"a"}) && A.Enumerates(["a"], {} + {"a"}) && A.Enumerates(["a", "b"], {"a"} + {"b"})
  {
  }

  lemma OfferSpans(pools: PoolMap, n: string, ip: Ip, ads: seq<Adv>)
    requires Offers(pools, n, ip, ads)
    ensures Resolves(pools, ip, n) && AllSpanned(map["a" := ip], pools) && AllSpanned(map[], pools)
  {
    hide Spans, AdsFor;
  }

  /** The first four events: a service that nobody refused, a session that is told of it. */
  lemma FirstNeighbour(m: Matcher, layer2: bool, labels: Labels, sel: Selector, pools: PoolMap, n: string, ip: Ip,
                       ads: seq<Adv>, ok: bool, es: seq<FrontSpec.Event>)
    requires m(sel, labels) && Offers(pools, n, ip, ads) && |es| >= 4
    requires es[..4] == [SetLabels(labels), SetPoolsOnly(pools, []), SetService("a", ip, n, ads, ["a"]),
                         SetPeer(pools, sel, ok, ["a"])]
    ensures var f := History(m, layer2, IDLE, es[..4]);
      && A.Enumerates(["a"], {"a"}) && f.config == Some(pools) && f.announced == map["a" := "bgp"]
      && f.bgp == FirstTold(Ctl([], Some(labels), map["a" := ads], []), sel, ["a"])
  {
    hide Next, Sound, History, Fine, SetLabels, SetPoolsOnly, SetService, SetPeer, Resolves, AllSpanned, AdsFor,
         ValidIp, FirstTold, Spans;
    var svcAds: SvcAds, ips := map["a" := ads], map["a" := ip];
    assert es[..1] == [] + [es[..4][0]] && es[..2] == es[..1] + [es[..4][1]] && es[..3] == es[..2] + [es[..4][2]]
      && es[..4] == es[..3] + [es[..4][3]];
    HistorySnoc(m, layer2, [], es[..4][0]);
    HistorySnoc(m, layer2, es[..1], es[..4][1]);
    HistorySnoc(m, layer2, es[..2], es[..4][2]);
    HistorySnoc(m, layer2, es[..3], es[..4][3]);
    EmptyHistory(m, layer2);
    OneThenTwo();
    OfferSpans(pools, n, ip, ads);
    CalmStart(m, layer2, labels);
    CalmConfig(m, layer2, History(m, layer2, IDLE, es[..1]), labels, map[], map[], pools, []);
    EveryFrontHistory(m, layer2, es[..2]);
    CalmService(m, layer2, History(m, layer2, IDLE, es[..2]), labels, map[], map[], "a", ip, n, ads, ["a"]);
    var f3 := History(m, layer2, IDLE, es[..3]);
    assert Calm(f3, labels, svcAds, ips);
    CalmPeer(m, layer2, f3, labels, svcAds, ips, pools, sel, ok, ["a"]);
    assert f3.announced == map["a" := "bgp"];
  }

  /** The second service is new and fair, and the match breaks for it all the same. */
  lemma NeighbourRefused(m: Matcher, layer2: bool, labels: Labels, sel: Selector, pools: PoolMap, n: string, ip: Ip,
                         ads: seq<Adv>,
                         k: string, jp: Ip, more: seq<Adv>)
    requires m(sel, labels) && Offers(pools, n, ip, ads) && Offers(pools, k, jp, more)
    requires SomeUnfair(ip, pools[n]) && !SomeUnfair(jp, pools[k])
    ensures var es := Neighbours(labels, sel, pools, n, ip, ads, k, jp, more);
      var f, f' := History(m, layer2, IDLE, es[..4]), History(m, layer2, IDLE, es);
      && Matching(f) && "b" !in f.announced && !Matching(f')
      && f'.announced == map["a" := "bgp"] && f'.bgp.svcAds == map["a" := ads, "b" := more]
      && f'.bgp.peers == f.bgp.peers
  {
    hide Sound, History, SomeUnfair, Fine, AdsFor, Spans, ValidIp, A.Enumerates, SomeBad, Step, AllSendable;
    var es := Neighbours(labels, sel, pools, n, ip, ads, k, jp, more);
    assert es == es[..4] + [es[4]];
    HistorySnoc(m, layer2, es[..4], es[4]);
    FirstNeighbour(m, layer2, labels, sel, pools, n, ip, ads, false, es);
    EveryFrontHistory(m, layer2, es[..4]);
    var f, luck := History(m, layer2, IDLE, es[..4]), es[4].luck;
    assert Good(m, f.bgp) by { FineGood(m, f); }
    assert f.bgp.peers[0].bgp.Some?;
    OneThenTwo();
    assert f.bgp.svcAds.Keys == {"a"};
    assert Apt(f.bgp, "b", jp, pools[k], luck);
    OfferSpans(pools, k, jp, more);
    BadExact(ip, pools[n], ads);
    assert !AllSendable(f.bgp.svcAds) by { StuckAds(f.bgp.svcAds, f.bgp.svcAds, "a"); }
    MatchingExact(m, layer2, f, "b", jp, pools[k], luck);
    BalancerEffect(m, f.bgp, "b", jp, pools[k], luck);
  }

  // ---------- An accepted configuration with both ----------

  /** The address text "6" means one IPv6 address, every other one IPv4 address. */
  function MixedDecoders(): Decoders {
    Decoders(s => Some([if s == "6" then V6_HOST else V4_HOST]), _ => None, map[])
  }

  const V4_HOST := Cidr(V4, 0, 32)

  function MixedPool(name: string, address: string): RawPool {
    RawPool("bgp", name, [address], false, None, [])
  }

  const MIXED: seq<RawPool> := [MixedPool("p", "6"), MixedPool("q", "4")]

  function HostPool(c: Cidr): Pool {
    Pool("bgp", [c], false, true, [BgpAd(32, 0, {})])
  }

  lemma MixedPoolIs(name: string, address: string)
    requires name != ""
    ensures var c := if address == "6" then V6_HOST else V4_HOST;
      && CidrsOf(MixedDecoders(), [address]) == [c] && PoolOk(MixedDecoders(), MixedPool(name, address))
      && PoolOf(MixedDecoders(), MixedPool(name, address)) == HostPool(c)
  {
    assert [address][..0] == [];
    assert CidrsOf(MixedDecoders(), []) == [];
  }

  lemma MixedAccepted()
    ensures SoundDecoders(MixedDecoders()) && Accepts(MixedDecoders(), MIXED)
    ensures PoolsOf(MixedDecoders(), MIXED) == map["p" := HostPool(V6_HOST), "q" := HostPool(V4_HOST)]
  {
    hide PoolOk, PoolOf, CidrsOf, HostPool, Contains;
    var d := MixedDecoders();
    MixedPoolIs("p", "6");
    MixedPoolIs("q", "4");
    MixedSound();
    var one := MIXED[..1];
    assert one == [MixedPool("p", "6")] && one[..0] == [];
    assert FlatCidrs(d, []) == [] && PoolsOf(d, []) == map[];
    assert FlatCidrs(d, one) == [] + [V6_HOST] && PoolsOf(d, one) == map["p" := HostPool(V6_HOST)];
    assert FlatCidrs(d, MIXED) == [V6_HOST] + [V4_HOST] == [V6_HOST, V4_HOST];
    FamiliesApart();
  }

  lemma FamiliesApart()
    ensures NoSharedAddress([V6_HOST, V4_HOST])
  {
    hide Mask;
  }

  lemma MixedSound()
    ensures SoundDecoders(MixedDecoders())
  {
    hide Pow2;
    PositivePow(32);
    PositivePow(128);
  }

  lemma HostOffers(pools: PoolMap, n: string, c: Cidr) returns (ads: seq<Adv>)
    requires n != "" && n in pools && pools[n] == HostPool(c) && (c == V4_HOST || c == V6_HOST)
    ensures Offers(pools, n, Ip(c.fam, 0), ads) && (SomeUnfair(Ip(c.fam, 0), pools[n]) <==> c.fam == V6)
    ensures c.fam == V4 ==> |ads| == 1
  {
    hide AdFor, Pow2, Mask;
    var ip := Ip(c.fam, 0);
    ads := SomeAds(ip, pools[n].ads);
    PositivePow(32);
    PositivePow(128);
    assert Contains(pools[n].cidrs[0], ip);
    assert pools[n].ads[0] in pools[n].ads;
  }

  /** An accepted configuration and a history from the start in which the match breaks for a
      service that is fair itself. */
  lemma NeighbourReached(m: Matcher, layer2: bool, labels: Labels, sel: Selector)
    requires m(sel, labels)
    ensures SoundDecoders(MixedDecoders()) && Accepts(MixedDecoders(), MIXED)
    ensures var pools := PoolsOf(MixedDecoders(), MIXED);
      && "q" in pools && !SomeUnfair(Ip(V4, 0), pools["q"])
      && exists events, ads, order :: var last := SetService("b", Ip(V4, 0), "q", ads, order);
           && Only(pools, events) && Matching(History(m, layer2, IDLE, events))
           && "b" !in History(m, layer2, IDLE, events).announced && !Matching(History(m, layer2, IDLE, events + [last]))
  {
    hide History, Accepts, SoundDecoders, PoolsOf, SomeUnfair, Offers, Matching, HostPool;
    MixedAccepted();
    var pools := PoolsOf(MixedDecoders(), MIXED);
    var ads := HostOffers(pools, "p", V6_HOST);
    var more := HostOffers(pools, "q", V4_HOST);
    NeighbourRefused(m, layer2, labels, sel, pools, "p", Ip(V6, 0), ads, "q", Ip(V4, 0), more);
    var es := Neighbours(labels, sel, pools, "p", Ip(V6, 0), ads, "q", Ip(V4, 0), more);
    assert es == es[..4] + [SetService("b", Ip(V4, 0), "q", more, ["a", "b"])];
    assert Only(pools, es[..4]);
  }

  // ---------- Families of configurations ----------

  ghost predicate OverConfigs(u: iset<PoolMap>, events: seq<FrontSpec.Event>) {
    forall e :: e in events && e.FvConfig? ==> e.pools in u
  }

  ghost predicate AlwaysMatching(m: Matcher, layer2: bool, u: iset<PoolMap>) {
    forall events :: OverConfigs(u, events) ==> Matching(History(m, layer2, IDLE, events))
  }

  /** An address of an unclean configuration that makes an advertisement nobody can send. */
  lemma UnfairOffer(pools: PoolMap) returns (n: string, ip: Ip, ads: seq<Adv>)
    requires GoodPools(pools) && !CleanConfig(pools)
    ensures Offers(pools, n, ip, ads) && SomeUnfair(ip, pools[n])
  {
    hide Exclusive, AdFor, Aligned, Contains, Fair;
    n :| n in pools && !CleanPool(pools[n]);
    var c, ad :| c in pools[n].cidrs && ad in pools[n].ads && !Fair(Ip(c.fam, c.base), ad);
    ip := Ip(c.fam, c.base);
    var i :| 0 <= i < |pools[n].cidrs| && pools[n].cidrs[i] == c;
    assert AllAligned(pools[n].cidrs);
    BaseInside(c);
    assert Spans(pools[n], ip);
    ads := SomeAds(ip, pools[n].ads);
  }

  lemma UncleanRefused(m: Matcher, layer2: bool, labels: Labels, sel: Selector, pools: PoolMap)
    returns (events: seq<FrontSpec.Event>)
    requires m(sel, labels) && GoodPools(pools) && !CleanConfig(pools)
    ensures Only(pools, events) && !Matching(History(m, layer2, IDLE, events))
  {
    hide History, Matching, GoodPools, CleanConfig, AdsFor, Spans, ValidIp, SomeUnfair;
    var n, ip, ads := UnfairOffer(pools);
    RefusedFromStart(m, layer2, labels, sel, pools, n, ip, ads);
    events := Refusal(labels, sel, pools, n, ip, ads);
  }

  lemma BaseInside(c: Cidr)
    requires Aligned(c)
    ensures Contains(c, Ip(c.fam, c.base)) && ValidIp(Ip(c.fam, c.base))
  {
  }

  /** Over a family of accepted configurations, what BGP advertises is what is announced
      through BGP in all histories, if and only if every BGP pool of every configuration has
      IPv4 prefixes, masks of 0 to 32 bits and at most 63 communities wherever it advertises. */
  lemma MatchingHypothesisExact(m: Matcher, layer2: bool, u: iset<PoolMap>, labels: Labels, sel: Selector)
    requires m(sel, labels) && forall pools :: pools in u ==> GoodPools(pools)
    ensures AlwaysMatching(m, layer2, u) <==> forall pools :: pools in u ==> CleanConfig(pools)
  {
    hide History, GoodPools, CleanConfig, Matching;
    if forall pools :: pools in u ==> CleanConfig(pools) {
      forall events | OverConfigs(u, events)
        ensures Matching(History(m, layer2, IDLE, events))
      {
        CleanHistory(m, layer2, events);
      }
    } else {
      var pools :| pools in u && !CleanConfig(pools);
      var events := UncleanRefused(m, layer2, labels, sel, pools);
      assert OverConfigs(u, events);
    }
  }
}
