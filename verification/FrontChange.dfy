/** A change of configuration, and the trace that map order leaves after it. */
module FrontChange {
  import opened Net
  import Bytes
  import opened Config
  import opened Ledgers
  import opened Routes
  import opened Advertising
  import opened SpeakerSpec
  import opened SpeakerProofs
  import opened SpeakerRuns
  import opened FrontSpec
  import opened FrontRuns
  import opened FrontHistories
  import S = SessionSpec
  import A = AllocatorSpec

  const BLOCK := Cidr(V4, 0, 24)

  /** Every address text means 0.0.0.0/24. */
  function BlockDecoders(): Decoders {
    Decoders(_ => Some([BLOCK]), _ => None, map[])
  }

  /** One BGP pool that advertises the whole block with a local preference. */
  function BlockPool(pref: Bytes.U32): RawPool {
    RawPool("bgp", "p", ["x"], false, None, [RawAd(Some(24), Some(pref), [])])
  }

  function Block(pref: Bytes.U32): Pool {
    Pool("bgp", [BLOCK], false, true, [BgpAd(24, pref, {})])
  }

  lemma BlockIs(pref: Bytes.U32)
    ensures PoolOf(BlockDecoders(), BlockPool(pref)) == Block(pref)
  {
    var d, p := BlockDecoders(), BlockPool(pref);
    assert CidrsOf(d, ["x"]) == [] + [BLOCK] by { assert ["x"][..0] == []; }
    assert AdOf(d, p.ads[0]) == BgpAd(24, pref, {});
    assert AdsOf(d, p.ads) == [BgpAd(24, pref, {})];
  }

  lemma BlockOk(pref: Bytes.U32)
    ensures PoolOk(BlockDecoders(), BlockPool(pref))
  {
    hide AdsOf;
    BlockIs(pref);
    assert CidrsOf(BlockDecoders(), ["x"]) == [BLOCK] by {
      assert PoolOf(BlockDecoders(), BlockPool(pref)).cidrs == [BLOCK];
    }
  }

  lemma BlockAligned()
    ensures Aligned(BLOCK) && SoundDecoders(BlockDecoders())
  {
    Pow2Constants();
    MaskIdempotent(0, 8);
  }

  lemma BlockAccepted(pref: Bytes.U32)
    ensures SoundDecoders(BlockDecoders()) && Accepts(BlockDecoders(), [BlockPool(pref)])
    ensures PoolsOf(BlockDecoders(), [BlockPool(pref)]) == map["p" := Block(pref)]
  {
    hide PoolOk, SoundDecoders, Accepts, PoolsOf, AdsOf, Aligned;
    BlockAligned();
    BlockOk(pref);
    BlockIs(pref);
    assert CidrsOf(BlockDecoders(), BlockPool(pref).addresses) == [BLOCK] by {
      assert PoolOf(BlockDecoders(), BlockPool(pref)).cidrs == [BLOCK];
    }
    OnePool(BlockDecoders(), BlockPool(pref));
  }

  function BlockAd(pref: Bytes.U32): Adv {
    Adv(BLOCK, None, pref, [])
  }

  lemma InBlock(n: nat, pref: Bytes.U32)
    requires n < 256
    ensures ValidIp(Ip(V4, n)) && Spans(Block(pref), Ip(V4, n)) && AdsFor(Ip(V4, n), Block(pref), [BlockAd(pref)])
    ensures Block(pref).protocol == "bgp"
  {
    Pow2Constants();
    assert Pow2(8) == 256;
    MaskMod(n, 8);
    MaskMod(0, 8);
    assert Mask(n, 8) == 0 && Mask(0, 8) == 0;
    assert HostBits(BLOCK) == 8;
    assert Contains(Block(pref).cidrs[0], Ip(V4, n));
  }

  function BlockPools(pref: Bytes.U32): PoolMap {
    map["p" := Block(pref)]
  }

  /** A service before and a service after a change of the local preference, which also brings
      the first peer. The order is the one in which the last update visits the services. */
  function Change(labels: Labels, sel: Selector, order: seq<string>): seq<FrontSpec.Event> {
    [SetLabels(labels),
     SetPoolsOnly(BlockPools(1), []),
     SetService("a", Ip(V4, 1), "p", [BlockAd(1)], ["a"]),
     SetPeer(BlockPools(2), sel, true, ["a"]),
     SetService("b", Ip(V4, 2), "p", [BlockAd(2)], order)]
  }

  lemma InPools(n: nat, pref: Bytes.U32)
    requires n < 256
    ensures "p" in BlockPools(pref) && ValidIp(Ip(V4, n)) && Resolves(BlockPools(pref), Ip(V4, n), "p")
    ensures BlockPools(pref)["p"].protocol == "bgp"
    ensures AdsFor(Ip(V4, n), BlockPools(pref)["p"], [BlockAd(pref)])
    ensures AllSpanned(map["a" := Ip(V4, n)], BlockPools(pref)) && AllSpanned(map[], BlockPools(pref))
  {
    hide Spans, AdsFor, ValidIp;
    InBlock(n, pref);
    assert BlockPools(pref)["p"] == Block(pref);
  }

  lemma BlockAdGood(pref: Bytes.U32)
    ensures Sendable(BlockAd(pref)) && WellFormedAdv(BlockAd(pref))
    ensures S.AllWellFormed([BlockAd(pref)]) && S.Merge([BlockAd(pref)]) == Some(map[BLOCK := BlockAd(pref)])
  {
    Pow2Constants();
    assert [BlockAd(pref)][..0] == [];
    assert S.Merge([]) == Some(map[]);
  }

  /** The first four events: one service, one session, told of it. */
  lemma BeforeSecond(m: Matcher, layer2: bool, labels: Labels, sel: Selector, order: seq<string>)
    requires m(sel, labels)
    ensures var f := History(m, layer2, IDLE, Change(labels, sel, order)[..4]);
      && A.Enumerates(["a"], {"a"}) && f.config == Some(BlockPools(2)) && f.announced == map["a" := "bgp"]
      && f.bgp == FirstTold(Ctl([], Some(labels), map["a" := [BlockAd(1)]], []), sel, ["a"])
  {
    hide Next, Sound, History, Fine, SetLabels, SetPoolsOnly, SetService, SetPeer, BlockAd, BlockPools, Resolves,
         AllSpanned, AdsFor, ValidIp, FirstTold;
    var es := Change(labels, sel, order);
    var ads: SvcAds, ips := map["a" := [BlockAd(1)]], map["a" := Ip(V4, 1)];
    assert es[..1] == [] + [es[0]] && es[..2] == es[..1] + [es[1]] && es[..3] == es[..2] + [es[2]]
      && es[..4] == es[..3] + [es[3]];
    HistorySnoc(m, layer2, [], es[0]);
    HistorySnoc(m, layer2, es[..1], es[1]);
    HistorySnoc(m, layer2, es[..2], es[2]);
    HistorySnoc(m, layer2, es[..3], es[3]);
    EmptyHistory(m, layer2);
    CalmStart(m, layer2, labels);
    InPools(1, 1);
    InPools(1, 2);
    CalmConfig(m, layer2, History(m, layer2, IDLE, es[..1]), labels, map[], map[], BlockPools(1), []);
    EveryFrontHistory(m, layer2, es[..2]);
    CalmService(m, layer2, History(m, layer2, IDLE, es[..2]), labels, map[], map[], "a", Ip(V4, 1), "p", [BlockAd(1)], ["a"]);
    var f3 := History(m, layer2, IDLE, es[..3]);
    assert Calm(f3, labels, ads, ips);
    CalmPeer(m, layer2, f3, labels, ads, ips, BlockPools(2), sel, true, ["a"]);
    assert f3.announced == map["a" := "bgp"];
  }

  lemma Both(order: seq<string>)
    requires order == ["a", "b"] || order == ["b", "a"]
    ensures A.Enumerates(order, {"a", "b"})
  {
  }

  lemma BothSendable(svcAds: SvcAds)
    requires svcAds == map["a" := [BlockAd(1)], "b" := [BlockAd(2)]]
    ensures AllGood(svcAds) && AllSendable(svcAds)
    ensures Part(svcAds, "a") == map[BLOCK := BlockAd(1)] && Part(svcAds, "b") == map[BLOCK := BlockAd(2)]
  {
    hide S.Merge, Sendable, WellFormedAdv, BlockAd;
    BlockAdGood(1);
    BlockAdGood(2);
    assert forall s, a :: s in svcAds && a in svcAds[s] ==> a == BlockAd(1) || a == BlockAd(2);
  }

  /** After the last event the session is to bring about what the last service visited says. */
  lemma AfterSecond(m: Matcher, layer2: bool, labels: Labels, sel: Selector, order: seq<string>)
    requires m(sel, labels) && (order == ["a", "b"] || order == ["b", "a"])
    ensures var c := History(m, layer2, IDLE, Change(labels, sel, order)).bgp;
      && c.svcAds == map["a" := [BlockAd(1)], "b" := [BlockAd(2)]]
      && AllGood(c.svcAds) && AllSendable(c.svcAds) && A.Enumerates(order, c.svcAds.Keys)
      && c.peers == [Peer(PeerFor(sel), Some(0))] && |c.sessions| == 1
      && Desired(c.sessions[0]) == Merged(c.svcAds, order)
  {
    hide Sound, History, Fine, BlockAd, BlockPools, Resolves, AdsFor, ValidIp, Desired, Merged, Good, AllGood,
         AllSendable, Part, A.Enumerates, Takes, Step;
    var es := Change(labels, sel, order);
    assert es == es[..4] + [es[4]];
    HistorySnoc(m, layer2, es[..4], es[4]);
    BeforeSecond(m, layer2, labels, sel, order);
    EveryFrontHistory(m, layer2, es[..4]);
    var f := History(m, layer2, IDLE, es[..4]);
    assert Good(m, f.bgp) by { FineGood(m, f); }
    InPools(2, 2);
    Both(order);
    var svcAds: SvcAds := map["a" := [BlockAd(1)], "b" := [BlockAd(2)]];
    BothSendable(svcAds);
    SecondSet(m, f.bgp, sel, labels, order, svcAds);
    assert f.bgp.svcAds.Keys == {"a"};
    assert Apt(f.bgp, "b", Ip(V4, 2), BlockPools(2)["p"], es[4].luck) by { OneMore(f.bgp, order); }
    assert Takes(Step(m, f.bgp, EvBalancer("b", Ip(V4, 2), BlockPools(2)["p"], [BlockAd(2)], order))) by {
      AllTaken(m, f.bgp, sel, labels, order, svcAds);
    }
  }

  lemma OneMore(c: Ctl, order: seq<string>)
    requires c.svcAds.Keys == {"a"} && A.Enumerates(order, {"a", "b"})
    ensures A.Enumerates(order, c.svcAds.Keys + {"b"})
  {
    assert c.svcAds.Keys + {"b"} == {"a", "b"};
  }

  lemma AllTaken(m: Matcher, c: Ctl, sel: Selector, labels: Labels, order: seq<string>, svcAds: SvcAds)
    requires A.Enumerates(["a"], {"a"})
      && c == FirstTold(Ctl([], Some(labels), map["a" := [BlockAd(1)]], []), sel, ["a"])
    requires Sound(c) && AllSendable(svcAds)
    requires Step(m, c, EvBalancer("b", Ip(V4, 2), BlockPools(2)["p"], [BlockAd(2)], order)).svcAds == svcAds
    ensures Takes(Step(m, c, EvBalancer("b", Ip(V4, 2), BlockPools(2)["p"], [BlockAd(2)], order)))
  {
    hide Step, AllSendable, FirstTold;
  }

  lemma SecondSet(m: Matcher, c: Ctl, sel: Selector, labels: Labels, order: seq<string>, svcAds: SvcAds)
    requires A.Enumerates(["a"], {"a"})
      && c == FirstTold(Ctl([], Some(labels), map["a" := [BlockAd(1)]], []), sel, ["a"])
    requires Good(m, c) && Sound(c) && ValidIp(Ip(V4, 2)) && AdsFor(Ip(V4, 2), BlockPools(2)["p"], [BlockAd(2)])
    requires svcAds == map["a" := [BlockAd(1)], "b" := [BlockAd(2)]] && AllGood(svcAds) && AllSendable(svcAds)
    requires A.Enumerates(order, {"a", "b"})
    ensures var c' := Step(m, c, EvBalancer("b", Ip(V4, 2), BlockPools(2)["p"], [BlockAd(2)], order));
      && c'.svcAds == svcAds && A.Enumerates(order, svcAds.Keys) && c'.peers == c.peers && |c'.sessions| == 1
      && Desired(c'.sessions[0]) == Merged(svcAds, order)
  {
    hide Good, AdsFor, ValidIp, BlockAd, BlockPools, AllGood, AllSendable, Desired, Merged, SetAll, Concat,
         A.Enumerates;
    var c1 := c.(svcAds := c.svcAds["b" := [BlockAd(2)]]);
    assert c1.svcAds == svcAds && svcAds.Keys == {"a", "b"};
    assert Held(c1) by { GoodHeld(m, c); }
    UpdatedBound(c1, order);
    OneHandle(PeerFor(sel));
  }

  lemma GoodHeld(m: Matcher, c: Ctl)
    requires Good(m, c)
    ensures Held(c)
  {
  }

  lemma OneHandle(cfg: PeerCfg)
    ensures 0 in Handles([Peer(cfg, Some(0))])
  {
    var slots := SlotsOf([Peer(cfg, Some(0))]);
    assert HoldsAt(slots, 0, 0);
    HasHandle(slots, 0);
  }

  /** After two configurations, each accepted, the services may disagree. Two histories that
      differ only in the order of one visit of the services then leave the running session with
      different routes to bring about. */
  lemma ChangeLeavesTrace(m: Matcher, layer2: bool, labels: Labels, sel: Selector)
    requires m(sel, labels)
    ensures forall order, e :: e in Change(labels, sel, order) && e.FvConfig? ==>
      exists pref :: Accepts(BlockDecoders(), [BlockPool(pref)]) && e.pools == PoolsOf(BlockDecoders(), [BlockPool(pref)])
    ensures var c, d := History(m, layer2, IDLE, Change(labels, sel, ["a", "b"])).bgp,
                         History(m, layer2, IDLE, Change(labels, sel, ["b", "a"])).bgp;
      && c.peers == d.peers == [Peer(PeerFor(sel), Some(0))] && c.svcAds == d.svcAds
      && |c.sessions| == |d.sessions| == 1 && Desired(c.sessions[0]) != Desired(d.sessions[0])
  {
    hide History, Accepts, PoolsOf, BlockAd, Part, Merged, A.Enumerates, AllGood, AllSendable, Block, Desired;
    BlockAccepted(1);
    BlockAccepted(2);
    AfterSecond(m, layer2, labels, sel, ["a", "b"]);
    AfterSecond(m, layer2, labels, sel, ["b", "a"]);
    var svcAds: SvcAds := map["a" := [BlockAd(1)], "b" := [BlockAd(2)]];
    BothSendable(svcAds);
    LastSays(svcAds, ["a", "b"]);
    LastSays(svcAds, ["b", "a"]);
    assert BlockAd(1) != BlockAd(2) by { Differ(); }
  }

  lemma Differ()
    ensures BlockAd(1) != BlockAd(2)
  {
  }

  lemma LastSays(svcAds: SvcAds, order: seq<string>)
    requires AllGood(svcAds) && AllSendable(svcAds) && A.Enumerates(order, svcAds.Keys) && order != []
    requires BLOCK in Part(svcAds, order[|order| - 1])
    ensures BLOCK in Merged(svcAds, order) && Merged(svcAds, order)[BLOCK] == Part(svcAds, order[|order| - 1])[BLOCK]
  {
    hide AllGood, AllSendable, Part, S.Merge, Concat;
    MergeOfVisit(svcAds, order, BLOCK);
  }
}
