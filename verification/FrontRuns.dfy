/** The speaker's front end over whole histories. */
module FrontRuns {
  import opened Net
  import Bytes
  import opened Config
  import opened Ledgers
  import opened Routes
  import opened Advertising
  import opened SpeakerSpec
  import opened SpeakerProofs
  import opened SpeakerRuns
  import opened FrontSpec
  import S = SessionSpec
  import A = AllocatorSpec

  // ---------- What every event keeps ----------

  /** The books agree: every announced service has its address noted, and the configuration in
      force spans all of them. */
  ghost predicate Books(f: Front) {
    && f.svcIp.Keys == f.announced.Keys
    && (if f.config.Some? then AllSpanned(f.svcIp, f.config.value) else f.announced == map[])
  }

  ghost predicate Fine(m: Matcher, f: Front) {
    Good(m, f.bgp) && Books(f)
  }

  lemma FineSound(m: Matcher, f: Front)
    requires Fine(m, f)
    ensures Sound(f.bgp)
  {
    BaseGood(f.bgp);
  }

  lemma WithdrawnKeeps(m: Matcher, f: Front, name: string, l2ok: bool, order: seq<string>)
    requires Fine(m, f) && Sound(f.bgp)
    ensures Fine(m, Withdrawn(m, f, name, l2ok, order)) && Withdrawn(m, f, name, l2ok, order).config == f.config
  {
    hide Good, Spans, Step, Sound;
    StepKeeps(m, f.bgp, EvDelete(name, order));
  }

  lemma NotedKeeps(f: Front, name: string, ip: Ip, proto: string, pool: string)
    requires Books(f) && f.config.Some? && pool in f.config.value && Spans(f.config.value[pool], ip)
    ensures Books(Noted(f, name, ip, proto))
  {
    hide Spans;
  }

  lemma AnnouncedKeeps(m: Matcher, layer2: bool, f: Front, name: string, ip: Ip, pool: string, luck: Luck)
    requires Fine(m, f) && Sound(f.bgp) && f.config.Some? && pool in f.config.value && Spans(f.config.value[pool], ip)
    ensures Fine(m, Announced(m, layer2, f, name, ip, f.config.value[pool], luck))
    ensures Announced(m, layer2, f, name, ip, f.config.value[pool], luck).config == f.config
  {
    hide Good, Spans, Step, Sound, Apt, Withdrawn, Takes, AllSpanned;
    var p := f.config.value[pool];
    WithdrawnKeeps(m, f, name, luck.l2ok, luck.o2);
    var f' := f.(bgp := Step(m, f.bgp, EvBalancer(name, ip, p, luck.ads, luck.o2)));
    StepKeeps(m, f.bgp, EvBalancer(name, ip, p, luck.ads, luck.o2));
    NotedKeeps(f', name, ip, "bgp", pool);
    NotedKeeps(f, name, ip, p.protocol, pool);
  }

  lemma PlacedKeeps(m: Matcher, layer2: bool, f: Front, name: string, ip: Ip, pool: string, luck: Luck)
    requires Fine(m, f) && Sound(f.bgp) && f.config.Some? && pool in f.config.value && Spans(f.config.value[pool], ip)
    ensures Fine(m, Placed(m, layer2, f, name, ip, f.config.value[pool], luck))
  {
    hide Fine, Spans, Sound, Withdrawn, Announced;
    if Moves(f, name, f.config.value[pool].protocol) {
      var f' := Withdrawn(m, f, name, luck.moved, luck.o1);
      WithdrawnKeeps(m, f, name, luck.moved, luck.o1);
      if name !in f'.announced && Sound(f'.bgp) {
        AnnouncedKeeps(m, layer2, f', name, ip, pool, luck);
      }
    } else {
      AnnouncedKeeps(m, layer2, f, name, ip, pool, luck);
    }
  }

  lemma NextKeeps(m: Matcher, layer2: bool, f: Front, e: FrontSpec.Event)
    requires Fine(m, f) && Sound(f.bgp)
    ensures Fine(m, Next(m, layer2, f, e))
  {
    hide Sound, Withdrawn, Placed, Spans, Good, Step;
    match e
    case FvService(name, svc, pool, luck) =>
      if !Ignored(f, svc) {
        WithdrawnKeeps(m, f, name, luck.l2ok, luck.o2);
        if HasAddress(svc) && Resolves(f.config.value, svc.value.ingress[0].value, pool) && pool != "" {
          PlacedKeeps(m, layer2, f, name, svc.value.ingress[0].value, pool, luck);
        }
      }
    case FvConfig(pools, cfgs, reached, ok, oks, order) =>
      StepKeeps(m, f.bgp, EvConfig(cfgs, oks, order));
    case FvBgp(e) =>
      StepKeeps(m, f.bgp, e);
  }

  ghost function History(m: Matcher, layer2: bool, f: Front, events: seq<FrontSpec.Event>): Front {
    if events == [] then f
    else
      var before := History(m, layer2, f, events[..|events| - 1]);
      if Sound(before.bgp) then Next(m, layer2, before, events[|events| - 1]) else before
  }

  /** In every history the announced services have addresses that the configuration in force
      allows, and the BGP controller keeps its own promises. */
  lemma {:induction false} EveryFrontHistory(m: Matcher, layer2: bool, events: seq<FrontSpec.Event>)
    ensures Fine(m, History(m, layer2, IDLE, events))
  {
    hide Fine, Sound, Next;
    if events == [] {
      IdleFine(m);
    } else {
      EveryFrontHistory(m, layer2, events[..|events| - 1]);
      var before := History(m, layer2, IDLE, events[..|events| - 1]);
      if Sound(before.bgp) {
        NextKeeps(m, layer2, before, events[|events| - 1]);
      }
    }
  }

  lemma IdleFine(m: Matcher)
    ensures Fine(m, IDLE)
  {
    StartGood(m);
  }

  // ---------- Sendable configurations ----------

  /** The sessions accept what this entry makes of the address. */
  predicate Fair(ip: Ip, ad: BgpAd) {
    ip.fam == V4 && 0 <= ad.aggLen <= 32 && |ad.communities| <= 63
  }

  /** A pool whose advertisements the sessions accept for each of its prefixes. */
  ghost predicate CleanPool(p: Pool) {
    p.protocol == "bgp" ==> forall c, ad :: c in p.cidrs && ad in p.ads ==> Fair(Ip(c.fam, c.base), ad)
  }

  ghost predicate CleanConfig(pools: PoolMap) {
    forall n :: n in pools ==> CleanPool(pools[n])
  }

  lemma {:induction false} ListSize(list: seq<Bytes.U32>, all: set<Bytes.U32>)
    requires ListOf(list, all)
    ensures |list| == |all|
  {
    if list == [] {
      assert all == {};
    } else {
      var x := list[|list| - 1];
      WithoutLast(list, all);
      ListSize(list[..|list| - 1], all - {x});
      assert x in list;
    }
  }

  /** When the sessions accept an advertisement: what can be known before the call. */
  lemma AdSendableExact(ip: Ip, cfg: BgpAd, a: Adv)
    requires AdFor(ip, cfg, a)
    ensures Sendable(a) <==> Fair(ip, cfg)
  {
    hide ListOf, Mask;
    ListSize(a.communities, cfg.communities);
  }

  lemma CleanSendable(p: Pool, ip: Ip, ads: seq<Adv>, a: Adv)
    requires CleanPool(p) && p.protocol == "bgp" && Spans(p, ip) && AdsFor(ip, p, ads) && a in ads
    ensures Sendable(a)
  {
    hide AdFor, Contains;
    var i :| 0 <= i < |p.cidrs| && Contains(p.cidrs[i], ip);
    SameFamily(p.cidrs[i], ip);
    var j :| 0 <= j < |ads| && ads[j] == a;
    assert p.cidrs[i] in p.cidrs && p.ads[j] in p.ads;
    AdSendableExact(ip, p.ads[j], a);
  }

  /** The BGP controller advertises for exactly the services announced through BGP. */
  ghost predicate Matching(f: Front) {
    forall n :: n in f.bgp.svcAds <==> n in f.announced && f.announced[n] == "bgp"
  }

  ghost predicate Faithful(f: Front) {
    && (f.config.Some? ==> CleanConfig(f.config.value))
    && AllSendable(f.bgp.svcAds)
    && Matching(f)
  }

  lemma WithdrawnFaithful(m: Matcher, f: Front, name: string, l2ok: bool, order: seq<string>)
    requires Faithful(f) && Fine(m, f) && Sound(f.bgp)
    ensures Faithful(Withdrawn(m, f, name, l2ok, order))
  {
    hide CleanConfig, Sendable, Good, A.Enumerates;
    if name in f.bgp.svcAds && A.Enumerates(order, f.bgp.svcAds.Keys - {name}) {
      DeleteEffect(m, f.bgp, name, order);
    }
  }

  lemma DeleteEffect(m: Matcher, c: Ctl, name: string, order: seq<string>)
    requires Good(m, c) && Sound(c) && name in c.svcAds && A.Enumerates(order, c.svcAds.Keys - {name})
    ensures Step(m, c, EvDelete(name, order)).svcAds == c.svcAds - {name}
    ensures Step(m, c, EvDelete(name, order)).peers == c.peers
  {
    hide InForce, RunsRight, SetAll, Held, LogsAligned;
    DeleteKeeps(c, name);
    assert (c.svcAds - {name}).Keys == c.svcAds.Keys - {name};
  }

  lemma BalancerEffect(m: Matcher, c: Ctl, name: string, ip: Ip, pool: Pool, luck: Luck)
    requires Good(m, c) && Sound(c) && Apt(c, name, ip, pool, luck)
    ensures Step(m, c, EvBalancer(name, ip, pool, luck.ads, luck.o2)).svcAds == c.svcAds[name := luck.ads]
    ensures Step(m, c, EvBalancer(name, ip, pool, luck.ads, luck.o2)).peers == c.peers
  {
    hide InForce, RunsRight, SetAll, Held, LogsAligned, AdsFor;
    BalancerKeeps(c, name, ip, pool, luck.ads);
    assert c.svcAds[name := luck.ads].Keys == c.svcAds.Keys + {name};
  }

  lemma AnnouncedFaithful(m: Matcher, layer2: bool, f: Front, name: string, ip: Ip, pool: Pool, luck: Luck)
    requires Faithful(f) && Fine(m, f) && Sound(f.bgp) && CleanPool(pool) && Spans(pool, ip)
      && !Moves(f, name, pool.protocol)
    ensures Faithful(Announced(m, layer2, f, name, ip, pool, luck))
  {
    hide CleanConfig, CleanPool, Sendable, Good, Spans, Step, Withdrawn, Apt, Sound;
    WithdrawnFaithful(m, f, name, luck.l2ok, luck.o2);
    if pool.protocol == "bgp" && Apt(f.bgp, name, ip, pool, luck) {
      BalancerEffect(m, f.bgp, name, ip, pool, luck);
      forall a | a in luck.ads
        ensures Sendable(a)
      {
        assert AdsFor(ip, pool, luck.ads) by { AptAds(f.bgp, name, ip, pool, luck); }
        CleanSendable(pool, ip, luck.ads, a);
      }
    }
  }

  lemma AptAds(c: Ctl, name: string, ip: Ip, pool: Pool, luck: Luck)
    requires Apt(c, name, ip, pool, luck)
    ensures AdsFor(ip, pool, luck.ads)
  {
  }

  lemma PlacedFaithful(m: Matcher, layer2: bool, f: Front, name: string, ip: Ip, pool: Pool, luck: Luck)
    requires Faithful(f) && Fine(m, f) && Sound(f.bgp) && CleanPool(pool) && Spans(pool, ip)
    ensures Faithful(Placed(m, layer2, f, name, ip, pool, luck))
  {
    hide Fine, Faithful, Spans, Sound, Withdrawn, Announced, CleanPool;
    if Moves(f, name, pool.protocol) {
      var f' := Withdrawn(m, f, name, luck.moved, luck.o1);
      WithdrawnKeeps(m, f, name, luck.moved, luck.o1);
      WithdrawnFaithful(m, f, name, luck.moved, luck.o1);
      if name !in f'.announced && Sound(f'.bgp) {
        AnnouncedFaithful(m, layer2, f', name, ip, pool, luck);
      }
    } else {
      AnnouncedFaithful(m, layer2, f, name, ip, pool, luck);
    }
  }

  /** Configuration, node and session events leave the services' advertisements alone. */
  lemma StepLeavesAds(m: Matcher, c: Ctl, e: SpeakerSpec.Event)
    requires Sound(c) && !e.EvBalancer? && !e.EvDelete?
    ensures Step(m, c, e).svcAds == c.svcAds
  {
    hide SyncUpTo, Matched, Dropped, SetAll;
  }

  ghost predicate CleanEvent(e: FrontSpec.Event) {
    e.FvConfig? ==> CleanConfig(e.pools)
  }

  lemma NextFaithful(m: Matcher, layer2: bool, f: Front, e: FrontSpec.Event)
    requires Faithful(f) && Fine(m, f) && Sound(f.bgp) && CleanEvent(e)
    ensures Faithful(Next(m, layer2, f, e))
  {
    hide Sound, Withdrawn, Placed, Spans, Fine, Step, CleanPool, AllSendable;
    match e
    case FvService(name, svc, pool, luck) =>
      if !Ignored(f, svc) {
        WithdrawnFaithful(m, f, name, luck.l2ok, luck.o2);
        if HasAddress(svc) && Resolves(f.config.value, svc.value.ingress[0].value, pool) && pool != "" {
          PlacedFaithful(m, layer2, f, name, svc.value.ingress[0].value, f.config.value[pool], luck);
        }
      }
    case FvConfig(pools, cfgs, reached, ok, oks, order) =>
      StepLeavesAds(m, f.bgp, EvConfig(cfgs, oks, order));
    case FvBgp(e) =>
      if e.EvNode? || e.EvSession? {
        StepLeavesAds(m, f.bgp, e);
      }
  }

  /** As long as the configurations are clean, what BGP advertises is what is announced. */
  lemma {:induction false} CleanHistory(m: Matcher, layer2: bool, events: seq<FrontSpec.Event>)
    requires forall e :: e in events ==> CleanEvent(e)
    ensures Faithful(History(m, layer2, IDLE, events))
  {
    hide Fine, Sound, Next, Faithful, CleanEvent;
    if events == [] {
      IdleFaithful();
    } else {
      CleanHistory(m, layer2, events[..|events| - 1]);
      EveryFrontHistory(m, layer2, events[..|events| - 1]);
      var before := History(m, layer2, IDLE, events[..|events| - 1]);
      if Sound(before.bgp) {
        NextFaithful(m, layer2, before, events[|events| - 1]);
      }
    }
  }

  lemma IdleFaithful()
    ensures Faithful(IDLE)
  {
  }

  // ---------- A refused service ----------

  /** A service that is not announced through BGP but whose advertisements, which no session
      accepts, are still in the controller's books. */
  ghost predicate Stuck(f: Front, name: string) {
    && !(name in f.announced && f.announced[name] == "bgp")
    && name in f.bgp.svcAds && SomeBad(f.bgp.svcAds[name])
  }

  ghost predicate SomeBad(ads: seq<Adv>) {
    exists a :: a in ads && !Sendable(a)
  }

  ghost predicate SomeUnfair(ip: Ip, pool: Pool) {
    exists ad :: ad in pool.ads && !Fair(ip, ad)
  }

  /** A call of the BGP handler that the sessions refuse for the service's own sake. */
  ghost predicate Hopeless(f: Front, ip: Ip, pool: Pool) {
    SomeRun(f.bgp.peers) && SomeUnfair(ip, pool)
  }

  /** The event sets the service through BGP again, with an address and a pool that make only
      advertisements that can be sent, or while no session runs. */
  ghost predicate Helps(f: Front, e: FrontSpec.Event, name: string) {
    && e.FvService? && e.name == name && !Ignored(f, e.svc) && HasAddress(e.svc)
    && e.pool != "" && Resolves(f.config.value, e.svc.value.ingress[0].value, e.pool)
    && e.luck.refusal == "" && f.config.value[e.pool].protocol == "bgp"
    && !Hopeless(f, e.svc.value.ingress[0].value, f.config.value[e.pool])
  }

  /** The routes that each session is to bring about stay as they are; sessions that start
      meanwhile are told of none. */
  ghost predicate Frozen(c: Ctl, c': Ctl) {
    FrozenSessions(c.sessions, c'.sessions)
  }

  lemma {:induction false} DroppedFrozen(slots: Slots, sessions: seq<Sess>)
    requires NumberedSlots(slots, sessions)
    ensures forall h :: 0 <= h < |sessions| ==> Desired(Dropped(slots, sessions)[h]) == Desired(sessions[h])
  {
    hide Desired;
    if slots != [] {
      var init, slot := slots[..|slots| - 1], slots[|slots| - 1];
      DroppedFrozen(init, sessions);
      if slot.Some? && slot.value.bgp.Some? {
        DesiredSnoc(Dropped(init, sessions)[slot.value.bgp.value], S.Close);
      }
    }
  }

  ghost predicate FrozenSessions(sessions: seq<Sess>, later: seq<Sess>) {
    && |sessions| <= |later|
    && (forall h :: 0 <= h < |sessions| ==> Desired(later[h]) == Desired(sessions[h]))
    && (forall h :: |sessions| <= h < |later| ==> Desired(later[h]) == map[])
  }

  lemma SyncOneFrozen(m: Matcher, labels: Option<Labels>, sessions: seq<Sess>, s: Sync, p: Peer, ok: bool)
    requires FrozenSessions(sessions, s.sessions) && (p.bgp.Some? ==> p.bgp.value < |s.sessions|)
    ensures FrozenSessions(sessions, SyncOne(m, labels, s, p, ok).sessions)
  {
    hide Desired, ShouldRun;
    if p.bgp.Some? {
      DesiredSnoc(s.sessions[p.bgp.value], S.Close);
    } else {
      DesiredNew(ParamsOf(p.cfg));
    }
  }

  lemma {:induction false} SyncFrozen(m: Matcher, labels: Option<Labels>, peers: seq<Peer>, sessions: seq<Sess>,
                                      oks: seq<bool>, n: nat)
    requires n <= |peers| && |oks| == |peers| && Numbered(peers, sessions)
    ensures FrozenSessions(sessions, SyncUpTo(m, labels, peers, sessions, oks, n).sessions)
  {
    hide Desired, SyncOne;
    if n > 0 {
      SyncFrozen(m, labels, peers, sessions, oks, n - 1);
      SyncOneFrozen(m, labels, sessions, SyncUpTo(m, labels, peers, sessions, oks, n - 1), peers[n - 1], oks[n - 1]);
    }
  }

  lemma DesiredNew(p: S.Params)
    ensures Desired(Sess(p, [])) == map[]
  {
  }

  lemma {:induction false} SetAllFrozen(peers: seq<Peer>, sessions: seq<Sess>, advs: seq<Adv>)
    requires Numbered(peers, sessions) && S.AllWellFormed(advs) && S.Merge(advs).None?
    ensures forall h :: 0 <= h < |sessions| ==> Desired(SetAll(peers, sessions, advs)[h]) == Desired(sessions[h])
  {
    hide Desired, S.Merge, S.AllWellFormed, SomeRun;
    if peers != [] {
      var init, p := peers[..|peers| - 1], peers[|peers| - 1];
      SetAllFrozen(init, sessions, advs);
      if p.bgp.Some? {
        DesiredSnoc(SetAll(init, sessions, advs)[p.bgp.value], S.SetAdvs(advs));
      }
    }
  }

  lemma UpdatedFrozen(c: Ctl, order: seq<string>)
    requires Numbered(c.peers, c.sessions) && AllGood(c.svcAds) && A.Enumerates(order, c.svcAds.Keys)
      && !AllSendable(c.svcAds)
    ensures Frozen(c, Updated(c, order))
  {
    hide Desired, AllGood, AllSendable, S.Merge, S.AllWellFormed, Concat, SetAll;
    AcceptedExact(c.svcAds, order);
    SetAllFrozen(c.peers, c.sessions, Concat(c.svcAds, order));
  }

  lemma SyncedFrozen(m: Matcher, c: Ctl, oks: seq<bool>, order: seq<string>)
    requires |oks| == |c.peers| && Sound(c) && A.Enumerates(order, c.svcAds.Keys) && !AllSendable(c.svcAds)
    ensures Frozen(c, Synced(m, c, oks, order))
  {
    hide Desired, AllGood, AllSendable, SyncUpTo, Updated, Numbered;
    var s := SyncUpTo(m, c.labels, c.peers, c.sessions, oks, |c.peers|);
    SyncFrozen(m, c.labels, c.peers, c.sessions, oks, |c.peers|);
    if s.started && Numbered(s.peers, s.sessions) {
      UpdatedFrozen(c.(peers := s.peers, sessions := s.sessions), order);
    }
  }

  /** While some advertisement cannot be sent, no event changes what any session announces. */
  lemma StepFrozen(m: Matcher, c: Ctl, e: SpeakerSpec.Event)
    requires Good(m, c) && Sound(c) && !AllSendable(Step(m, c, e).svcAds)
    ensures Frozen(c, Step(m, c, e))
  {
    hide Good, Desired, Synced, Updated, Configured, AdsFor, AllGood, AllSendable, A.Enumerates, Numbered;
    match e
    case EvConfig(cfgs, oks, order) =>
      StepLeavesAds(m, c, e);
      ConfigFrozen(m, c, cfgs, oks, order);
    case EvNode(labels, oks, order) =>
      StepLeavesAds(m, c, e);
      if !(c.labels == Some(labels) || |oks| != |c.peers| || !A.Enumerates(order, c.svcAds.Keys)) {
        SyncedFrozen(m, c.(labels := Some(labels)), oks, order);
      }
    case EvBalancer(name, ip, pool, ads, order) =>
      var c' := c.(svcAds := c.svcAds[name := ads]);
      if ValidIp(ip) && AdsFor(ip, pool, ads) && AllGood(c'.svcAds) && A.Enumerates(order, c'.svcAds.Keys) {
        UpdatedPeers(c', order);
        UpdatedFrozen(c', order);
      }
    case EvDelete(name, order) =>
      var c' := c.(svcAds := c.svcAds - {name});
      if name in c.svcAds && AllGood(c'.svcAds) && A.Enumerates(order, c'.svcAds.Keys) {
        UpdatedPeers(c', order);
        UpdatedFrozen(c', order);
      }
    case EvSession(h, e) =>
      if h < |c.sessions| && !e.SetAdvs? && !e.Close? {
        DesiredSnoc(c.sessions[h], e);
      }
  }

  lemma ConfigFrozen(m: Matcher, c: Ctl, cfgs: seq<PeerCfg>, oks: seq<bool>, order: seq<string>)
    requires Good(m, c) && Sound(c) && !AllSendable(c.svcAds)
    ensures Frozen(c, Step(m, c, EvConfig(cfgs, oks, order)))
  {
    hide Good, Desired, Synced, AllGood, AllSendable, Matched, Dropped, A.Enumerates;
    var c' := Configured(c, cfgs);
    var r := Matched(cfgs, SlotsOf(c.peers));
    if NumberedSlots(r.left, c.sessions) {
      DroppedFrozen(r.left, c.sessions);
    }
    if |oks| == |cfgs| == |c'.peers| && Sound(c') && A.Enumerates(order, c.svcAds.Keys) {
      SyncedFrozen(m, c', oks, order);
    }
  }

  lemma FrozenTransitive(a: Ctl, b: Ctl, c: Ctl)
    requires Frozen(a, b) && Frozen(b, c)
    ensures Frozen(a, c)
  {
    hide Desired;
  }

  lemma BadExact(ip: Ip, pool: Pool, ads: seq<Adv>)
    requires AdsFor(ip, pool, ads)
    ensures SomeBad(ads) <==> SomeUnfair(ip, pool)
  {
    hide AdFor, Sendable, Fair;
    if a :| a in ads && !Sendable(a) {
      var i :| 0 <= i < |ads| && ads[i] == a;
      AdSendableExact(ip, pool.ads[i], a);
      assert pool.ads[i] in pool.ads;
    }
    if ad :| ad in pool.ads && !Fair(ip, ad) {
      var i :| 0 <= i < |pool.ads| && pool.ads[i] == ad;
      AdSendableExact(ip, ad, ads[i]);
      assert ads[i] in ads;
    }
  }

  lemma SendableWith(svcAds: SvcAds, name: string, ads: seq<Adv>)
    requires name !in svcAds
    ensures AllSendable(svcAds[name := ads]) <==> AllSendable(svcAds) && !SomeBad(ads)
  {
    hide Sendable;
    if AllSendable(svcAds[name := ads]) {
      var more := svcAds[name := ads];
      assert more[name] == ads && name in more;
      assert forall s :: s in svcAds ==> s in more && more[s] == svcAds[s];
    }
  }

  /** A call of the BGP handler breaks the match between what is announced and what is
      advertised exactly when the service is new, a session runs, and something cannot be sent:
      an advertisement already in the books, or one that the address or an entry of the pool
      makes. In the latter case the service is stuck. */
  lemma MatchingExact(m: Matcher, layer2: bool, f: Front, name: string, ip: Ip, pool: Pool, luck: Luck)
    requires Fine(m, f) && Sound(f.bgp) && Matching(f)
    requires pool.protocol == "bgp" && luck.refusal == "" && Apt(f.bgp, name, ip, pool, luck) && !Moves(f, name, "bgp")
    ensures var f' := Announced(m, layer2, f, name, ip, pool, luck);
      && (Matching(f') <==>
            name in f.announced || !SomeRun(f.bgp.peers) || (AllSendable(f.bgp.svcAds) && !SomeUnfair(ip, pool)))
      && (!Matching(f') && SomeUnfair(ip, pool) ==> Stuck(f', name))
  {
    hide Fine, Sendable, AllSendable, Step, Apt, Sound, SomeRun, AdsFor, SomeUnfair, SomeBad;
    assert Good(m, f.bgp) by { FineGood(m, f); }
    assert SomeBad(luck.ads) <==> SomeUnfair(ip, pool) by {
      AptAds(f.bgp, name, ip, pool, luck);
      BadExact(ip, pool, luck.ads);
    }
    BalancerEffect(m, f.bgp, name, ip, pool, luck);
    var f' := Announced(m, layer2, f, name, ip, pool, luck);
    assert f'.bgp.svcAds == f.bgp.svcAds[name := luck.ads];
    if name !in f.announced {
      SendableWith(f.bgp.svcAds, name, luck.ads);
    }
  }

  /** Withdrawing a service that is announced through BGP breaks the match exactly when a
      session runs and some other advertisement in the books cannot be sent: the list is gone,
      but the service stays announced. */
  lemma WithdrawnExact(m: Matcher, f: Front, name: string, l2ok: bool, order: seq<string>)
    requires Fine(m, f) && Sound(f.bgp) && Matching(f) && name in f.announced && f.announced[name] == "bgp"
    requires A.Enumerates(order, f.bgp.svcAds.Keys - {name})
    ensures var f' := Withdrawn(m, f, name, l2ok, order);
      && f'.bgp.svcAds == f.bgp.svcAds - {name}
      && (Matching(f') <==> AllSendable(f.bgp.svcAds - {name}) || !SomeRun(f.bgp.peers))
      && (name in f'.announced <==> !Matching(f'))
  {
    hide Fine, AllSendable, Step, Sound, SomeRun;
    assert Good(m, f.bgp) by { FineGood(m, f); }
    DeleteEffect(m, f.bgp, name, order);
  }

  lemma FineGood(m: Matcher, f: Front)
    requires Fine(m, f)
    ensures Good(m, f.bgp)
  {
  }

  lemma WithdrawnStuck(m: Matcher, f: Front, other: string, l2ok: bool, order: seq<string>, name: string)
    requires Fine(m, f) && Sound(f.bgp) && Stuck(f, name)
    ensures Stuck(Withdrawn(m, f, other, l2ok, order), name) && Frozen(f.bgp, Withdrawn(m, f, other, l2ok, order).bgp)
  {
    hide Good, Step, Sound, Desired, Sendable, A.Enumerates;
    FrozenReflexive(f.bgp);
    if other in f.announced && f.announced[other] == "bgp" && A.Enumerates(order, f.bgp.svcAds.Keys - {other}) {
      var c' := Step(m, f.bgp, EvDelete(other, order));
      if other in f.bgp.svcAds {
        DeleteEffect(m, f.bgp, other, order);
      } else {
        NothingToDelete(m, f.bgp, other, order);
      }
      StuckAds(f.bgp.svcAds, c'.svcAds, name);
      StepFrozen(m, f.bgp, EvDelete(other, order));
    }
  }

  lemma NothingToDelete(m: Matcher, c: Ctl, name: string, order: seq<string>)
    requires Sound(c) && name !in c.svcAds
    ensures Step(m, c, EvDelete(name, order)) == c
  {
  }

  lemma StuckAds(svcAds: SvcAds, svcAds': SvcAds, name: string)
    requires name in svcAds && SomeBad(svcAds[name]) && name in svcAds' && svcAds'[name] == svcAds[name]
    ensures SomeBad(svcAds'[name]) && !AllSendable(svcAds')
  {
  }

  lemma AnnouncedStuck(m: Matcher, layer2: bool, f: Front, other: string, ip: Ip, pool: Pool, luck: Luck, name: string)
    requires Fine(m, f) && Sound(f.bgp) && Stuck(f, name)
    requires other != name || pool.protocol != "bgp" || luck.refusal != "" || (Hopeless(f, ip, pool) && name !in f.announced)
    ensures Stuck(Announced(m, layer2, f, other, ip, pool, luck), name)
    ensures Frozen(f.bgp, Announced(m, layer2, f, other, ip, pool, luck).bgp)
  {
    hide Good, Step, Sound, Desired, Sendable, Apt, Withdrawn, SomeBad, SomeRun, SomeUnfair;
    WithdrawnStuck(m, f, other, luck.l2ok, luck.o2, name);
    if pool.protocol == "bgp" && luck.refusal == "" && Apt(f.bgp, other, ip, pool, luck) {
      BalancerEffect(m, f.bgp, other, ip, pool, luck);
      var e := EvBalancer(other, ip, pool, luck.ads, luck.o2);
      if other != name {
        StuckAds(f.bgp.svcAds, Step(m, f.bgp, e).svcAds, name);
      } else {
        AptAds(f.bgp, name, ip, pool, luck);
        BadExact(ip, pool, luck.ads);
        StuckAds(Step(m, f.bgp, e).svcAds, Step(m, f.bgp, e).svcAds, name);
      }
      StepFrozen(m, f.bgp, e);
    }
  }

  lemma PlacedStuck(m: Matcher, layer2: bool, f: Front, other: string, ip: Ip, pool: Pool, luck: Luck, name: string)
    requires Fine(m, f) && Sound(f.bgp) && Stuck(f, name)
    requires other != name || pool.protocol != "bgp" || luck.refusal != "" || Hopeless(f, ip, pool)
    ensures Stuck(Placed(m, layer2, f, other, ip, pool, luck), name)
    ensures Frozen(f.bgp, Placed(m, layer2, f, other, ip, pool, luck).bgp)
  {
    hide Fine, Sound, Frozen, Withdrawn, Announced, Handled, SomeBad, SomeRun, SomeUnfair;
    if Moves(f, other, pool.protocol) {
      var f' := Withdrawn(m, f, other, luck.moved, luck.o1);
      WithdrawnKeeps(m, f, other, luck.moved, luck.o1);
      WithdrawnStuck(m, f, other, luck.moved, luck.o1, name);
      WithdrawnPeers(m, f, other, luck.moved, luck.o1);
      if other !in f'.announced && Sound(f'.bgp) {
        AnnouncedStuck(m, layer2, f', other, ip, pool, luck, name);
        FrozenTransitive(f.bgp, f'.bgp, Announced(m, layer2, f', other, ip, pool, luck).bgp);
      }
    } else {
      AnnouncedStuck(m, layer2, f, other, ip, pool, luck, name);
    }
  }

  lemma WithdrawnPeers(m: Matcher, f: Front, name: string, l2ok: bool, order: seq<string>)
    requires Fine(m, f) && Sound(f.bgp)
    ensures Withdrawn(m, f, name, l2ok, order).bgp.peers == f.bgp.peers
  {
    hide Good, Step, A.Enumerates;
    if name !in f.bgp.svcAds {
      NothingToDelete(m, f.bgp, name, order);
    } else if A.Enumerates(order, f.bgp.svcAds.Keys - {name}) {
      DeleteEffect(m, f.bgp, name, order);
    }
  }

  lemma ConfigStuck(m: Matcher, f: Front, e: SpeakerSpec.Event, name: string)
    requires Fine(m, f) && Sound(f.bgp) && Stuck(f, name) && !e.EvBalancer? && !e.EvDelete?
    ensures Stuck(f.(bgp := Step(m, f.bgp, e)), name) && Frozen(f.bgp, Step(m, f.bgp, e))
  {
    hide Good, Step, Sound, Desired, Sendable;
    StepLeavesAds(m, f.bgp, e);
    StuckAds(f.bgp.svcAds, Step(m, f.bgp, e).svcAds, name);
    StepFrozen(m, f.bgp, e);
  }

  lemma NextStuck(m: Matcher, layer2: bool, f: Front, e: FrontSpec.Event, name: string)
    requires Fine(m, f) && Sound(f.bgp) && Stuck(f, name) && !Helps(f, e, name)
    ensures Stuck(Next(m, layer2, f, e), name) && Frozen(f.bgp, Next(m, layer2, f, e).bgp)
  {
    hide Fine, Sound, Withdrawn, Placed, Spans, Step, Desired, SomeBad, SomeRun, SomeUnfair;
    match e
    case FvService(other, svc, pool, luck) =>
      if !Ignored(f, svc) {
        WithdrawnStuck(m, f, other, luck.l2ok, luck.o2, name);
        if HasAddress(svc) && Resolves(f.config.value, svc.value.ingress[0].value, pool) && pool != "" {
          PlacedStuck(m, layer2, f, other, svc.value.ingress[0].value, f.config.value[pool], luck, name);
        }
      }
    case FvConfig(pools, cfgs, reached, ok, oks, order) =>
      ConfigStuck(m, f, EvConfig(cfgs, oks, order), name);
    case FvBgp(e) =>
      if e.EvNode? || e.EvSession? {
        ConfigStuck(m, f, e, name);
      }
  }

  ghost predicate NoHelp(m: Matcher, layer2: bool, f: Front, events: seq<FrontSpec.Event>, name: string) {
    forall k :: 0 <= k < |events| ==> !Helps(History(m, layer2, f, events[..k]), events[k], name)
  }

  /** Once a new service was refused, the retries of the queue, deleting it, announcing it at
      layer 2, and whatever else happens leave a list of its in the books that cannot be sent,
      and no session is ever told anything new about any service, until the service is set
      through BGP with a fair address and pool or while no session runs. */
  lemma {:induction false} RefusalSticks(m: Matcher, layer2: bool, f: Front, events: seq<FrontSpec.Event>, name: string)
    requires Fine(m, f) && Stuck(f, name) && NoHelp(m, layer2, f, events, name)
    ensures Fine(m, History(m, layer2, f, events)) && Stuck(History(m, layer2, f, events), name)
    ensures Frozen(f.bgp, History(m, layer2, f, events).bgp)
  {
    hide Fine, Sound, Stuck, Frozen, Next, Helps;
    if events == [] {
      FrozenReflexive(f.bgp);
    } else {
      var n := |events| - 1;
      var init, before := events[..n], History(m, layer2, f, events[..n]);
      assert NoHelp(m, layer2, f, init, name) by {
        assert forall k :: 0 <= k < n ==> init[..k] == events[..k] && init[k] == events[k];
      }
      RefusalSticks(m, layer2, f, init, name);
      FineSound(m, before);
      NextKeeps(m, layer2, before, events[n]);
      NextStuck(m, layer2, before, events[n], name);
      FrozenTransitive(f.bgp, before.bgp, History(m, layer2, f, events).bgp);
    }
  }

  lemma FrozenReflexive(c: Ctl)
    ensures Frozen(c, c)
  {
  }
}
