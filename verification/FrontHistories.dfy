/** Histories of the speaker's front end from its start: what one configuration guarantees, and
    what a change of configuration or an advertisement that cannot be sent brings about. */
module FrontHistories {
  import opened Net
  import opened Config
  import opened Ledgers
  import opened Routes
  import opened Advertising
  import opened SpeakerSpec
  import opened SpeakerRuns
  import opened FrontSpec
  import opened FrontRuns
  import S = SessionSpec
  import A = AllocatorSpec

  lemma HistorySnoc(m: Matcher, layer2: bool, events: seq<FrontSpec.Event>, e: FrontSpec.Event)
    ensures Sound(History(m, layer2, IDLE, events).bgp)
    ensures History(m, layer2, IDLE, events + [e]) == Next(m, layer2, History(m, layer2, IDLE, events), e)
  {
    hide Sound, Next, Fine;
    assert (events + [e])[..|events|] == events;
    EveryFrontHistory(m, layer2, events);
    FineSound(m, History(m, layer2, IDLE, events));
  }

  // ---------- One configuration ----------

  /** Every configuration in the history is this one. */
  ghost predicate Only(pools: PoolMap, events: seq<FrontSpec.Event>) {
    forall e :: e in events && e.FvConfig? ==> e.pools == pools
  }

  ghost predicate FromOne(f: Front, pools: PoolMap) {
    (f.config.Some? ==> f.config.value == pools) && FromPools(f.bgp.svcAds, pools)
  }

  lemma WithdrawnFrom(m: Matcher, f: Front, name: string, l2ok: bool, order: seq<string>, pools: PoolMap)
    requires FromOne(f, pools) && Fine(m, f) && Sound(f.bgp)
    ensures FromOne(Withdrawn(m, f, name, l2ok, order), pools)
  {
    hide Good, Source, Step, A.Enumerates;
    if name in f.bgp.svcAds && A.Enumerates(order, f.bgp.svcAds.Keys - {name}) {
      DeleteEffect(m, f.bgp, name, order);
    } else if name !in f.bgp.svcAds {
      NothingToDelete(m, f.bgp, name, order);
    }
  }

  lemma AnnouncedFrom(m: Matcher, layer2: bool, f: Front, name: string, ip: Ip, pool: string, luck: Luck,
                      pools: PoolMap)
    requires FromOne(f, pools) && Fine(m, f) && Sound(f.bgp) && pool in pools && Spans(pools[pool], ip)
    ensures FromOne(Announced(m, layer2, f, name, ip, pools[pool], luck), pools)
  {
    hide Good, Step, Withdrawn, Apt, Sound, Spans, AdsFor, Source;
    WithdrawnFrom(m, f, name, luck.l2ok, luck.o2, pools);
    if Apt(f.bgp, name, ip, pools[pool], luck) {
      BalancerEffect(m, f.bgp, name, ip, pools[pool], luck);
      assert Source(pools, pool, ip, luck.ads) by { AptSource(f.bgp, name, ip, pool, luck, pools); }
    }
  }

  lemma AptSource(c: Ctl, name: string, ip: Ip, pool: string, luck: Luck, pools: PoolMap)
    requires pool in pools && Apt(c, name, ip, pools[pool], luck) && Spans(pools[pool], ip)
    ensures Source(pools, pool, ip, luck.ads)
  {
  }

  lemma PlacedFrom(m: Matcher, layer2: bool, f: Front, name: string, ip: Ip, pool: string, luck: Luck, pools: PoolMap)
    requires FromOne(f, pools) && Fine(m, f) && Sound(f.bgp) && pool in pools && Spans(pools[pool], ip)
    ensures FromOne(Placed(m, layer2, f, name, ip, pools[pool], luck), pools)
  {
    hide Fine, FromOne, Spans, Sound, Withdrawn, Announced;
    if Moves(f, name, pools[pool].protocol) {
      var f' := Withdrawn(m, f, name, luck.moved, luck.o1);
      WithdrawnKeeps(m, f, name, luck.moved, luck.o1);
      WithdrawnFrom(m, f, name, luck.moved, luck.o1, pools);
      if name !in f'.announced && Sound(f'.bgp) {
        AnnouncedFrom(m, layer2, f', name, ip, pool, luck, pools);
      }
    } else {
      AnnouncedFrom(m, layer2, f, name, ip, pool, luck, pools);
    }
  }

  lemma NextFrom(m: Matcher, layer2: bool, f: Front, e: FrontSpec.Event, pools: PoolMap)
    requires FromOne(f, pools) && Fine(m, f) && Sound(f.bgp) && (e.FvConfig? ==> e.pools == pools)
    ensures FromOne(Next(m, layer2, f, e), pools)
  {
    hide Sound, Withdrawn, Placed, Spans, Fine, Step, Source;
    match e
    case FvService(name, svc, pool, luck) =>
      if !Ignored(f, svc) {
        WithdrawnFrom(m, f, name, luck.l2ok, luck.o2, pools);
        if HasAddress(svc) && Resolves(f.config.value, svc.value.ingress[0].value, pool) && pool != "" {
          PlacedFrom(m, layer2, f, name, svc.value.ingress[0].value, pool, luck, pools);
        }
      }
    case FvConfig(_, cfgs, reached, ok, oks, order) =>
      StepLeavesAds(m, f.bgp, EvConfig(cfgs, oks, order));
    case FvBgp(e) =>
      if e.EvNode? || e.EvSession? {
        StepLeavesAds(m, f.bgp, e);
      }
  }

  /** With one configuration, every service's list was made from it. */
  lemma {:induction false} OneConfigHistory(m: Matcher, layer2: bool, pools: PoolMap, events: seq<FrontSpec.Event>)
    requires Only(pools, events)
    ensures FromOne(History(m, layer2, IDLE, events), pools)
  {
    hide Fine, Sound, Next, Source;
    if events != [] {
      hide FromOne;
      var init := events[..|events| - 1];
      OneConfigHistory(m, layer2, pools, init);
      EveryFrontHistory(m, layer2, init);
      var before := History(m, layer2, IDLE, init);
      if Sound(before.bgp) {
        NextFrom(m, layer2, before, events[|events| - 1], pools);
      }
    }
  }

  /** In every history with one accepted configuration, whenever all advertisements in the books
      can be sent, the services agree and each resting peer shows the merge of their
      advertisements in every order. */
  lemma OneConfigEveryOrder(m: Matcher, layer2: bool, d: Decoders, ps: seq<RawPool>, events: seq<FrontSpec.Event>,
                            peer: Peer, h: nat)
    requires SoundDecoders(d) && Accepts(d, ps) && Only(PoolsOf(d, ps), events)
    requires var c := History(m, layer2, IDLE, events).bgp;
      AllSendable(c.svcAds) && peer in c.peers && peer.bgp == Some(h)
    ensures var c := History(m, layer2, IDLE, events).bgp;
      && AllGood(c.svcAds) && Agree(c.svcAds) && h < |c.sessions|
      && forall order :: A.Enumerates(order, c.svcAds.Keys) ==> Learned(c.sessions[h], Merged(c.svcAds, order))
  {
    hide Books, Good, History, AllGood, AllSendable, Agree, Merged, Learned, A.Enumerates, Accepts, SoundDecoders,
         PoolsOf, GoodPools, AdsFitV4, FromPools, Only, Fine;
    var pools := PoolsOf(d, ps);
    var c := History(m, layer2, IDLE, events).bgp;
    EveryFrontHistory(m, layer2, events);
    OneConfigHistory(m, layer2, pools, events);
    AcceptedConfigIsGood(d, ps);
    FineGood(m, History(m, layer2, IDLE, events));
    GoodAds(m, c);
    OneConfigAgrees(c.svcAds, pools);
    PeerLearns(m, c, peer, h);
  }

  lemma GoodAds(m: Matcher, c: Ctl)
    requires Good(m, c)
    ensures AllGood(c.svcAds)
  {
  }

  lemma EmptyHistory(m: Matcher, layer2: bool)
    ensures History(m, layer2, IDLE, []) == IDLE
  {
  }

  // ---------- Histories that begin without peers ----------

  /** One peer, for nodes that the selector matches. */
  function PeerFor(sel: Selector): PeerCfg {
    PeerCfg(1, 2, "", 179, 90, None, [sel], "")
  }

  function SetLabels(labels: Labels): FrontSpec.Event {
    FvBgp(EvNode(labels, [], []))
  }

  /** A configuration without peers, which is accepted. */
  function SetPoolsOnly(pools: PoolMap, order: seq<string>): FrontSpec.Event {
    FvConfig(pools, [], true, true, [], order)
  }

  /** A configuration with the peer; ok says whether the whole is accepted. */
  function SetPeer(pools: PoolMap, sel: Selector, ok: bool, order: seq<string>): FrontSpec.Event {
    FvConfig(pools, [PeerFor(sel)], true, ok, [true], order)
  }

  function SetService(name: string, ip: Ip, pool: string, ads: seq<Adv>, order: seq<string>): FrontSpec.Event {
    FvService(name, Some(Svc(true, [Some(ip)])), pool, Luck(true, true, [], order, ads, ""))
  }

  function DeleteService(name: string, order: seq<string>): FrontSpec.Event {
    FvService(name, None, "", Luck(true, true, [], order, [], ""))
  }

  /** No peers yet; these services are announced through BGP, with these lists. */
  ghost predicate Calm(f: Front, labels: Labels, svcAds: SvcAds, ips: map<string, Ip>) {
    && f.bgp == Ctl([], Some(labels), svcAds, [])
    && f.svcIp == ips && f.announced.Keys == ips.Keys && svcAds.Keys == ips.Keys
    && forall s :: s in f.announced ==> f.announced[s] == "bgp"
  }

  lemma CalmStart(m: Matcher, layer2: bool, labels: Labels)
    ensures Calm(Next(m, layer2, IDLE, SetLabels(labels)), labels, map[], map[])
  {
  }

  /** No peers: configuring changes nothing in the BGP controller. */
  lemma ConfigureIdle(m: Matcher, c: Ctl, order: seq<string>)
    requires Sound(c) && c.peers == [] && c.sessions == []
    ensures Step(m, c, EvConfig([], [], order)) == c
  {
    hide AllGood, A.Enumerates;
    assert Matched([], SlotsOf([])) == Match([], []);
    assert Configured(c, []) == c;
  }

  lemma CalmConfig(m: Matcher, layer2: bool, f: Front, labels: Labels, svcAds: SvcAds, ips: map<string, Ip>,
                   pools: PoolMap, order: seq<string>)
    requires Sound(f.bgp) && Calm(f, labels, svcAds, ips) && AllSpanned(ips, pools)
    ensures var f' := Next(m, layer2, f, SetPoolsOnly(pools, order));
      Calm(f', labels, svcAds, ips) && f'.config == Some(pools)
  {
    hide Sound, Step, AllSpanned;
    ConfigureIdle(m, f.bgp, order);
  }

  lemma CalmService(m: Matcher, layer2: bool, f: Front, labels: Labels, svcAds: SvcAds, ips: map<string, Ip>,
                    name: string, ip: Ip, pool: string, ads: seq<Adv>, order: seq<string>)
    requires Fine(m, f) && Sound(f.bgp) && Calm(f, labels, svcAds, ips) && name !in ips && f.config.Some?
    requires pool != "" && Resolves(f.config.value, ip, pool) && f.config.value[pool].protocol == "bgp"
    requires Apt(f.bgp, name, ip, f.config.value[pool], Luck(true, true, [], order, ads, ""))
    ensures var f' := Next(m, layer2, f, SetService(name, ip, pool, ads, order));
      Calm(f', labels, svcAds[name := ads], ips[name := ip]) && f'.config == f.config
  {
    hide Sound, Step, Apt, Spans, Good, AllSendable;
    var luck := Luck(true, true, [], order, ads, "");
    BalancerEffect(m, f.bgp, name, ip, f.config.value[pool], luck);
    var e := EvBalancer(name, ip, f.config.value[pool], ads, order);
    IdleSessions(m, f.bgp, e);
    assert !SomeRun(Step(m, f.bgp, e).peers);
  }

  lemma IdleSessions(m: Matcher, c: Ctl, e: SpeakerSpec.Event)
    requires Sound(c) && c.peers == [] && e.EvBalancer?
    ensures Step(m, c, e) == c.(svcAds := Step(m, c, e).svcAds)
  {
    hide AllGood, AdsFor, A.Enumerates, Concat, S.AllWellFormed;
  }

  lemma OnlyPeer(c: Ctl, cfg: PeerCfg)
    requires c.peers == [] && c.sessions == []
    ensures Configured(c, [cfg]) == c.(peers := [Peer(cfg, None)])
  {
    assert [cfg][..0] == [];
    assert Matched([], SlotsOf([])) == Match([], []);
    assert Matched([cfg], SlotsOf([])) == Match([] + [Peer(cfg, None)], []);
  }

  /** The controller with its first peer running, told this list. */
  ghost function FirstTold(c: Ctl, sel: Selector, order: seq<string>): Ctl
    requires A.Enumerates(order, c.svcAds.Keys)
  {
    c.(peers := [Peer(PeerFor(sel), Some(0))],
       sessions := [Sess(ParamsOf(PeerFor(sel)), [S.SetAdvs(Concat(c.svcAds, order))])])
  }

  lemma FirstSynced(m: Matcher, labels: Option<Labels>, cfg: PeerCfg)
    requires ShouldRun(m, cfg, labels)
    ensures SyncUpTo(m, labels, [Peer(cfg, None)], [], [true], 1)
      == Sync([Peer(cfg, Some(0))], [Sess(ParamsOf(cfg), [])], true, false)
  {
    hide ShouldRun;
    var ps := [Peer(cfg, None)];
    assert SyncUpTo(m, labels, ps, [], [true], 0) == Sync([], [], false, false);
    assert SyncUpTo(m, labels, ps, [], [true], 1) == SyncOne(m, labels, Sync([], [], false, false), ps[0], true);
  }

  lemma FirstSetAll(cfg: PeerCfg, advs: seq<Adv>)
    requires S.AllWellFormed(advs)
    ensures SetAll([Peer(cfg, Some(0))], [Sess(ParamsOf(cfg), [])], advs) == [Sess(ParamsOf(cfg), [S.SetAdvs(advs)])]
  {
    hide S.Merge, WellFormedAdv;
    var peers, sessions := [Peer(cfg, Some(0))], [Sess(ParamsOf(cfg), [])];
    assert peers[..0] == [];
    assert SetAll([], sessions, advs) == sessions && !SomeRun([]);
    assert [] + [S.SetAdvs(advs)] == [S.SetAdvs(advs)];
  }

  /** The first session starts and is told the services' list, which it may refuse. */
  lemma StartPeer(m: Matcher, c: Ctl, sel: Selector, labels: Labels, order: seq<string>)
    requires Sound(c) && c == Ctl([], Some(labels), c.svcAds, []) && m(sel, labels)
      && A.Enumerates(order, c.svcAds.Keys)
    ensures Step(m, c, EvConfig([PeerFor(sel)], [true], order)) == FirstTold(c, sel, order)
  {
    hide SetAll, Concat, AllGood, A.Enumerates, PeerFor, SyncUpTo, Configured;
    var cfg := PeerFor(sel);
    assert ShouldRun(m, cfg, Some(labels)) by { Selected(m, sel, labels); }
    OnlyPeer(c, cfg);
    FirstSynced(m, Some(labels), cfg);
    EnumeratesKnown(c.svcAds, order);
    ConcatGood(c.svcAds, order);
    FirstSetAll(cfg, Concat(c.svcAds, order));
  }

  lemma Selected(m: Matcher, sel: Selector, labels: Labels)
    requires m(sel, labels)
    ensures ShouldRun(m, PeerFor(sel), Some(labels))
  {
    assert m(PeerFor(sel).selectors[0], LabelsOf(Some(labels)));
  }

  lemma EnumeratesKnown(svcAds: SvcAds, order: seq<string>)
    requires A.Enumerates(order, svcAds.Keys)
    ensures Known(svcAds, order)
  {
  }

  lemma CalmPeer(m: Matcher, layer2: bool, f: Front, labels: Labels, svcAds: SvcAds, ips: map<string, Ip>,
                 pools: PoolMap, sel: Selector, ok: bool, order: seq<string>)
    requires Sound(f.bgp) && Calm(f, labels, svcAds, ips) && AllSpanned(ips, pools) && m(sel, labels)
      && A.Enumerates(order, svcAds.Keys)
    ensures var f' := Next(m, layer2, f, SetPeer(pools, sel, ok, order));
      && f' == f.(bgp := FirstTold(f.bgp, sel, order), config := f'.config)
      && f'.config == if ok then Some(pools) else f.config
  {
    hide Sound, Step, AllSpanned, FirstTold, A.Enumerates;
    StartPeer(m, f.bgp, sel, labels, order);
  }
}
