/** The speaker's BGP controller over whole histories, down to the peers' routing tables. */
module SpeakerRuns {
  import opened Net
  import Bytes
  import opened Config
  import opened Routes
  import opened Advertising
  import opened SpeakerSpec
  import opened SpeakerProofs
  import S = SessionSpec
  import A = AllocatorSpec
  import P = SessionProofs
  import W = SessionWire
  import O = SessionOctets

  // ---------- syncPeers ----------

  ghost predicate RunsRight(m: Matcher, labels: Option<Labels>, peers: seq<Peer>) {
    forall i :: 0 <= i < |peers| && peers[i].bgp.Some? ==> ShouldRun(m, peers[i].cfg, labels)
  }

  /** Held sessions that were there before have seen nothing. */
  ghost predicate Untouched(hs: multiset<nat>, sessions: seq<Sess>, sessions': seq<Sess>) {
    |sessions| <= |sessions'| && forall h :: 0 <= h < |sessions| && h in hs ==> sessions'[h] == sessions[h]
  }

  /** What holds when peers `done` have been dealt with and peers `rest` are still to come. */
  ghost predicate Syncing(m: Matcher, labels: Option<Labels>, sessions: seq<Sess>, s: Sync, rest: seq<Peer>) {
    && Own(Handles(s.peers) + Handles(rest), s.sessions)
    && Paired(SlotsOf(s.peers), s.sessions) && Paired(SlotsOf(rest), s.sessions)
    && RunsRight(m, labels, s.peers)
    && Untouched(Handles(s.peers) + Handles(rest), sessions, s.sessions)
    && (!s.started ==> |s.sessions| == |sessions|)
  }

  lemma HandlesSnoc(peers: seq<Peer>, p: Peer)
    ensures Handles(peers + [p]) == Handles(peers) + HandleOf(Some(p))
  {
    SnocGather(peers, p, HandleOf);
  }

  lemma HandlesCons(p: Peer, rest: seq<Peer>)
    ensures Handles([p] + rest) == HandleOf(Some(p)) + Handles(rest)
  {
    assert SlotsOf([p] + rest) == [Some(p)] + SlotsOf(rest);
    GatherAppend([Some(p)], SlotsOf(rest), HandleOf);
    assert Gather([Some(p)], HandleOf) == HandleOf(Some(p));
  }

  lemma PairedSnoc(peers: seq<Peer>, p: Peer, sessions: seq<Sess>)
    requires Paired(SlotsOf(peers), sessions) && Paired([Some(p)], sessions)
    ensures Paired(SlotsOf(peers + [p]), sessions)
  {
    assert SlotsOf(peers + [p]) == SlotsOf(peers) + [Some(p)];
    assert [Some(p)][0] == Some(p);
  }

  lemma PairedCons(p: Peer, rest: seq<Peer>, sessions: seq<Sess>)
    requires Paired(SlotsOf([p] + rest), sessions)
    ensures Paired(SlotsOf(rest), sessions) && Paired([Some(p)], sessions)
  {
    hide SlotsOf;
    var all, some := SlotsOf([p] + rest), SlotsOf(rest);
    assert all[0] == Some(p);
    forall i | 0 <= i < |some| && some[i].Some? && some[i].value.bgp.Some?
      ensures some[i].value.bgp.value < |sessions| && sessions[some[i].value.bgp.value].p == ParamsOf(some[i].value.cfg)
    {
      assert all[i + 1] == some[i];
    }
  }

  lemma OwnStarted(hs: multiset<nat>, sessions: seq<Sess>, p: S.Params)
    requires Own(hs, sessions)
    ensures Own(hs + multiset{|sessions|}, sessions + [Sess(p, [])])
  {
    assert |sessions| !in hs;
  }

  lemma SyncStop(m: Matcher, labels: Option<Labels>, sessions: seq<Sess>, s: Sync, p: Peer, rest: seq<Peer>, ok: bool)
    requires Syncing(m, labels, sessions, s, [p] + rest)
    requires p.bgp.Some? && p.bgp.value < |s.sessions| && !ShouldRun(m, p.cfg, labels)
    ensures Syncing(m, labels, sessions, SyncOne(m, labels, s, p, ok), rest)
  {
    hide Own, Handles, SlotsOf, Paired, ShouldRun;
    var q, h := Peer(p.cfg, None), p.bgp.value;
    HandlesSnoc(s.peers, q);
    HandlesCons(p, rest);
    var hs := Handles(s.peers) + Handles([p] + rest);
    assert hs - multiset{h} == Handles(s.peers + [q]) + Handles(rest);
    LogClosed(hs, s.sessions, h);
    PairedCons(p, rest, s.sessions);
    PairedSnoc(s.peers, q, s.sessions) by { NonePaired(q, s.sessions); }
    PairedLater(SlotsOf(s.peers + [q]), s.sessions, Logged(s.sessions, h, S.Close));
    PairedLater(SlotsOf(rest), s.sessions, Logged(s.sessions, h, S.Close));
  }

  lemma NonePaired(q: Peer, sessions: seq<Sess>)
    requires q.bgp.None?
    ensures Paired([Some(q)], sessions)
  {
  }

  lemma SyncStart(m: Matcher, labels: Option<Labels>, sessions: seq<Sess>, s: Sync, p: Peer, rest: seq<Peer>)
    requires Syncing(m, labels, sessions, s, [p] + rest)
    requires p.bgp.None? && ShouldRun(m, p.cfg, labels)
    ensures Syncing(m, labels, sessions, SyncOne(m, labels, s, p, true), rest)
  {
    hide Own, Handles, SlotsOf, Paired, ShouldRun;
    var q, h := Peer(p.cfg, Some(|s.sessions|)), |s.sessions|;
    HandlesSnoc(s.peers, q);
    HandlesCons(p, rest);
    var hs := Handles(s.peers) + Handles([p] + rest);
    assert hs + multiset{h} == Handles(s.peers + [q]) + Handles(rest);
    OwnStarted(hs, s.sessions, ParamsOf(p.cfg));
    var later := s.sessions + [Sess(ParamsOf(p.cfg), [])];
    PairedCons(p, rest, s.sessions);
    PairedLater(SlotsOf(s.peers), s.sessions, later);
    PairedLater(SlotsOf(rest), s.sessions, later);
    PairedSnoc(s.peers, q, later) by { NewPaired(q, later); }
  }

  lemma NewPaired(q: Peer, sessions: seq<Sess>)
    requires q.bgp.Some? && q.bgp.value < |sessions| && sessions[q.bgp.value].p == ParamsOf(q.cfg)
    ensures Paired([Some(q)], sessions)
  {
  }

  lemma SyncKeep(m: Matcher, labels: Option<Labels>, sessions: seq<Sess>, s: Sync, p: Peer, rest: seq<Peer>, ok: bool)
    requires Syncing(m, labels, sessions, s, [p] + rest) && (p.bgp.Some? ==> p.bgp.value < |s.sessions|)
    requires if p.bgp.Some? then ShouldRun(m, p.cfg, labels) else !(ok && ShouldRun(m, p.cfg, labels))
    ensures Syncing(m, labels, sessions, SyncOne(m, labels, s, p, ok), rest)
  {
    hide Own, Handles, SlotsOf, Paired, ShouldRun;
    HandlesSnoc(s.peers, p);
    HandlesCons(p, rest);
    assert Handles(s.peers) + Handles([p] + rest) == Handles(s.peers + [p]) + Handles(rest);
    PairedCons(p, rest, s.sessions);
    PairedSnoc(s.peers, p, s.sessions);
  }

  /** Every stage of `syncPeers`. */
  lemma {:induction false} SyncKeeps(m: Matcher, labels: Option<Labels>, peers: seq<Peer>, sessions: seq<Sess>,
                                     oks: seq<bool>, n: nat)
    requires n <= |peers| && |oks| == |peers| && Numbered(peers, sessions)
    requires Own(Handles(peers), sessions) && Paired(SlotsOf(peers), sessions)
    ensures Syncing(m, labels, sessions, SyncUpTo(m, labels, peers, sessions, oks, n), peers[n..])
  {
    hide Own, Handles, Paired, ShouldRun, Syncing, SyncOne;
    if n == 0 {
      assert peers[0..] == peers;
      NothingSynced(m, labels, peers, sessions);
    } else {
      SyncKeeps(m, labels, peers, sessions, oks, n - 1);
      var s, p, rest := SyncUpTo(m, labels, peers, sessions, oks, n - 1), peers[n - 1], peers[n..];
      assert peers[n - 1..] == [p] + rest;
      if p.bgp.Some? && !ShouldRun(m, p.cfg, labels) {
        SyncStop(m, labels, sessions, s, p, rest, oks[n - 1]);
      } else if p.bgp.None? && ShouldRun(m, p.cfg, labels) && oks[n - 1] {
        SyncStart(m, labels, sessions, s, p, rest);
      } else {
        SyncKeep(m, labels, sessions, s, p, rest, oks[n - 1]);
      }
    }
  }

  lemma NothingSynced(m: Matcher, labels: Option<Labels>, peers: seq<Peer>, sessions: seq<Sess>)
    requires Own(Handles(peers), sessions) && Paired(SlotsOf(peers), sessions)
    ensures Syncing(m, labels, sessions, Sync([], sessions, false, false), peers)
  {
    hide Own;
    assert Handles([]) + Handles(peers) == Handles(peers);
  }

  /** A peer keeps the session it had or gets one if it can, exactly when it should run. */
  ghost predicate RightAfter(m: Matcher, labels: Option<Labels>, before: Peer, ok: bool, after: Peer) {
    && after.cfg == before.cfg
    && (after.bgp.Some? <==> ShouldRun(m, before.cfg, labels) && (before.bgp.Some? || ok))
    && (after.bgp.Some? && before.bgp.Some? ==> after == before)
  }

  lemma SyncOneRight(m: Matcher, labels: Option<Labels>, s: Sync, p: Peer, ok: bool)
    requires p.bgp.Some? ==> p.bgp.value < |s.sessions|
    ensures exists q :: SyncOne(m, labels, s, p, ok).peers == s.peers + [q] && RightAfter(m, labels, p, ok, q)
  {
    hide ShouldRun;
    var r := SyncOne(m, labels, s, p, ok).peers;
    assert r == s.peers + [r[|s.peers|]];
    assert RightAfter(m, labels, p, ok, r[|s.peers|]);
  }

  /** Which peers run after `syncPeers`: exactly those that should, except where a session that
      was not there could not be created. */
  lemma {:induction false} SyncExact(m: Matcher, labels: Option<Labels>, peers: seq<Peer>, sessions: seq<Sess>,
                                     oks: seq<bool>, n: nat)
    requires n <= |peers| && |oks| == |peers| && Numbered(peers, sessions)
    ensures forall i :: 0 <= i < n ==>
      RightAfter(m, labels, peers[i], oks[i], SyncUpTo(m, labels, peers, sessions, oks, n).peers[i])
  {
    hide ShouldRun, RightAfter, SyncOne;
    if n > 0 {
      SyncExact(m, labels, peers, sessions, oks, n - 1);
      SyncOneRight(m, labels, SyncUpTo(m, labels, peers, sessions, oks, n - 1), peers[n - 1], oks[n - 1]);
    }
  }

  // ---------- updateAds ----------

  /** The routes that a session is to bring about at its peer. */
  ghost function Desired(s: Sess): S.Advs {
    S.Run(s.p, s.log).desired
  }

  lemma DesiredSnoc(s: Sess, e: S.Event)
    ensures var s' := s.(log := s.log + [e]);
      Desired(s')
        == if e.SetAdvs? && S.AllWellFormed(e.advs) && S.Merge(e.advs).Some? then S.Merge(e.advs).value else Desired(s)
  {
    hide S.Merge, S.AllWellFormed, S.Step;
    assert (s.log + [e])[..|s.log|] == s.log;
    P.StepEffect(s.p, S.Run(s.p, s.log), e);
  }

  /** A list that can be sent reaches every running session; no session is closed. */
  lemma {:induction false} SetAllKeeps(peers: seq<Peer>, sessions: seq<Sess>, advs: seq<Adv>, hs: multiset<nat>)
    requires Numbered(peers, sessions) && S.AllWellFormed(advs) && Own(hs, sessions)
    ensures var r := SetAll(peers, sessions, advs); Own(hs, r) && Later(sessions, r)
    ensures S.Merge(advs).Some? ==> forall h :: h in Handles(peers) ==>
      h < |sessions| && Desired(SetAll(peers, sessions, advs)[h]) == S.Merge(advs).value
  {
    hide Own, S.Merge, S.AllWellFormed, SomeRun, Desired;
    if peers == [] {
    } else {
      var init, p := peers[..|peers| - 1], peers[|peers| - 1];
      assert peers == init + [p];
      SetAllKeeps(init, sessions, advs, hs);
      HandlesSnoc(init, p);
      if p.bgp.Some? {
        var before, h := SetAll(init, sessions, advs), p.bgp.value;
        LogOther(hs, before, h, S.SetAdvs(advs));
        DesiredSnoc(before[h], S.SetAdvs(advs));
      }
    }
  }

  // ---------- Prefixes in the sessions' logs ----------

  ghost predicate LogsAligned(sessions: seq<Sess>) {
    forall h, e :: 0 <= h < |sessions| && e in sessions[h].log ==> P.Over(O.ALIGNED, e)
  }

  lemma LoggedAligned(sessions: seq<Sess>, h: nat, e: S.Event)
    requires LogsAligned(sessions) && h < |sessions| && P.Over(O.ALIGNED, e)
    ensures LogsAligned(Logged(sessions, h, e))
  {
    hide P.Over;
  }

  lemma {:induction false} DroppedAligned(slots: Slots, sessions: seq<Sess>)
    requires NumberedSlots(slots, sessions) && LogsAligned(sessions)
    ensures LogsAligned(Dropped(slots, sessions))
  {
    hide LogsAligned;
    if slots != [] {
      var init, slot := slots[..|slots| - 1], slots[|slots| - 1];
      DroppedAligned(init, sessions);
      if slot.Some? && slot.value.bgp.Some? {
        LoggedAligned(Dropped(init, sessions), slot.value.bgp.value, S.Close);
      }
    }
  }

  lemma {:induction false} SyncAligned(m: Matcher, labels: Option<Labels>, peers: seq<Peer>, sessions: seq<Sess>,
                                       oks: seq<bool>, n: nat)
    requires n <= |peers| && |oks| == |peers| && Numbered(peers, sessions) && LogsAligned(sessions)
    ensures LogsAligned(SyncUpTo(m, labels, peers, sessions, oks, n).sessions)
  {
    hide LogsAligned, ShouldRun;
    if n > 0 {
      SyncAligned(m, labels, peers, sessions, oks, n - 1);
      var s, p := SyncUpTo(m, labels, peers, sessions, oks, n - 1), peers[n - 1];
      if p.bgp.Some? {
        LoggedAligned(s.sessions, p.bgp.value, S.Close);
      } else {
        StartedAligned(s.sessions, ParamsOf(p.cfg));
      }
    }
  }

  lemma StartedAligned(sessions: seq<Sess>, p: S.Params)
    requires LogsAligned(sessions)
    ensures LogsAligned(sessions + [Sess(p, [])])
  {
    hide P.Over;
  }

  lemma {:induction false} SetAllAligned(peers: seq<Peer>, sessions: seq<Sess>, advs: seq<Adv>)
    requires Numbered(peers, sessions) && S.AllWellFormed(advs) && LogsAligned(sessions)
    requires P.Over(O.ALIGNED, S.SetAdvs(advs))
    ensures LogsAligned(SetAll(peers, sessions, advs))
  {
    hide LogsAligned, P.Over, S.Merge, S.AllWellFormed, SomeRun;
    if peers != [] {
      var init, p := peers[..|peers| - 1], peers[|peers| - 1];
      SetAllAligned(init, sessions, advs);
      if p.bgp.Some? {
        LoggedAligned(SetAll(init, sessions, advs), p.bgp.value, S.SetAdvs(advs));
      }
    }
  }

  lemma ConcatAligned(svcAds: SvcAds, order: seq<string>)
    requires Known(svcAds, order) && AlignedAds(svcAds)
    ensures P.Over(O.ALIGNED, S.SetAdvs(Concat(svcAds, order)))
  {
    hide Aligned, Concat;
    var advs := Concat(svcAds, order);
    forall i | 0 <= i < |advs|
      ensures advs[i].prefix in O.ALIGNED
    {
      ConcatHas(svcAds, order, advs[i]);
    }
  }

  // ---------- What every event keeps ----------

  /** If every advertisement can be sent, every running session is to bring about the merge of
      all services' advertisements, the same one for all sessions. */
  ghost predicate InForce(c: Ctl)
    requires AllGood(c.svcAds)
  {
    AllSendable(c.svcAds) ==> exists order :: A.Enumerates(order, c.svcAds.Keys) && Bound(c, order)
  }

  ghost predicate Bound(c: Ctl, order: seq<string>)
    requires AllGood(c.svcAds) && AllSendable(c.svcAds) && A.Enumerates(order, c.svcAds.Keys)
  {
    forall h :: h in Handles(c.peers) ==> h < |c.sessions| && Desired(c.sessions[h]) == Merged(c.svcAds, order)
  }

  ghost predicate Base(c: Ctl) {
    Held(c) && AllGood(c.svcAds) && AlignedAds(c.svcAds) && LogsAligned(c.sessions)
  }

  ghost predicate Good(m: Matcher, c: Ctl) {
    Base(c) && RunsRight(m, c.labels, c.peers) && InForce(c)
  }

  lemma UpdatedKeeps(c: Ctl, order: seq<string>)
    requires Base(c) && Numbered(c.peers, c.sessions) && A.Enumerates(order, c.svcAds.Keys)
    ensures Base(Updated(c, order)) && InForce(Updated(c, order))
  {
    hide Own, Handles, SlotsOf, Paired, LogsAligned, AllGood, AlignedAds, AllSendable, S.Merge, S.AllWellFormed, Concat,
         SetAll, Desired, P.Over;
    var advs := Concat(c.svcAds, order);
    AcceptedExact(c.svcAds, order);
    SetAllKeeps(c.peers, c.sessions, advs, Handles(c.peers));
    PairedLater(SlotsOf(c.peers), c.sessions, SetAll(c.peers, c.sessions, advs));
    ConcatAligned(c.svcAds, order);
    SetAllAligned(c.peers, c.sessions, advs);
    if AllSendable(c.svcAds) {
      UpdatedBound(c, order);
    }
  }

  /** An update that is accepted puts the merge of that very order in force. */
  lemma UpdatedBound(c: Ctl, order: seq<string>)
    requires Held(c) && Numbered(c.peers, c.sessions) && AllGood(c.svcAds) && AllSendable(c.svcAds)
    requires A.Enumerates(order, c.svcAds.Keys)
    ensures Bound(Updated(c, order), order)
  {
    hide Own, Handles, SlotsOf, Paired, AllGood, AllSendable, S.Merge, S.AllWellFormed, Concat, SetAll, Desired;
    AcceptedExact(c.svcAds, order);
    SetAllKeeps(c.peers, c.sessions, Concat(c.svcAds, order), Handles(c.peers));
  }

  /** Dropping sessions and leaving the others alone keeps what is in force. */
  lemma StillInForce(c: Ctl, c': Ctl)
    requires Held(c) && Held(c') && AllGood(c.svcAds) && c'.svcAds == c.svcAds && InForce(c)
    requires |c'.sessions| == |c.sessions| && Untouched(Handles(c'.peers), c.sessions, c'.sessions)
    ensures InForce(c')
  {
    hide Handles, SlotsOf, Paired, AllGood, AllSendable, Merged, Desired;
    if AllSendable(c.svcAds) {
      var order :| A.Enumerates(order, c.svcAds.Keys) && Bound(c, order);
      assert Bound(c', order);
    }
  }

  lemma SyncedKeeps(m: Matcher, c: Ctl, oks: seq<bool>, order: seq<string>)
    requires Base(c) && InForce(c) && |oks| == |c.peers| && Numbered(c.peers, c.sessions)
      && A.Enumerates(order, c.svcAds.Keys)
    ensures Good(m, Synced(m, c, oks, order))
  {
    hide Own, Handles, SlotsOf, Paired, LogsAligned, AllGood, AlignedAds, AllSendable, ShouldRun, SyncUpTo, InForce,
         Numbered, Updated;
    var s := SyncUpTo(m, c.labels, c.peers, c.sessions, oks, |c.peers|);
    SyncKeeps(m, c.labels, c.peers, c.sessions, oks, |c.peers|);
    SyncAligned(m, c.labels, c.peers, c.sessions, oks, |c.peers|);
    NoneLeft(c.peers, s.peers);
    var c' := c.(peers := s.peers, sessions := s.sessions);
    assert Base(c');
    HeldNumbered(c');
    if s.started {
      UpdatedKeeps(c', order);
      UpdatedPeers(c', order);
    } else {
      StillInForce(c, c');
    }
  }

  lemma UpdatedPeers(c: Ctl, order: seq<string>)
    requires AllGood(c.svcAds) && Numbered(c.peers, c.sessions) && A.Enumerates(order, c.svcAds.Keys)
    ensures Updated(c, order).peers == c.peers && Updated(c, order).labels == c.labels
      && Updated(c, order).svcAds == c.svcAds
  {
  }

  lemma NoneLeft(peers: seq<Peer>, ps: seq<Peer>)
    ensures Handles(ps) + Handles(peers[|peers|..]) == Handles(ps)
  {
  }

  lemma ConfiguredInForce(c: Ctl, cfgs: seq<PeerCfg>)
    requires Base(c) && InForce(c) && Numbered(c.peers, c.sessions)
    ensures Base(Configured(c, cfgs)) && InForce(Configured(c, cfgs)) && |Configured(c, cfgs).peers| == |cfgs|
    ensures Configured(c, cfgs).labels == c.labels && Configured(c, cfgs).svcAds == c.svcAds
  {
    hide Held, Handles, LogsAligned, AllGood, AlignedAds, InForce, Dropped, Matched;
    ConfiguredKeeps(c, cfgs);
    var r := Matched(cfgs, SlotsOf(c.peers));
    if NumberedSlots(r.left, c.sessions) {
      DroppedAligned(r.left, c.sessions);
    }
    StillInForce(c, Configured(c, cfgs));
  }

  lemma ConfigKeeps(m: Matcher, c: Ctl, cfgs: seq<PeerCfg>, oks: seq<bool>, order: seq<string>)
    requires Good(m, c) && Sound(c)
    ensures Good(m, Step(m, c, EvConfig(cfgs, oks, order)))
  {
    hide Base, RunsRight, InForce, Configured, Synced;
    ConfiguredInForce(c, cfgs);
    var c' := Configured(c, cfgs);
    if |oks| == |cfgs| == |c'.peers| && Sound(c') && A.Enumerates(order, c.svcAds.Keys) {
      SyncedKeeps(m, c', oks, order);
    }
  }

  lemma BalancerKeeps(c: Ctl, name: string, ip: Ip, pool: Pool, ads: seq<Adv>)
    requires Base(c) && ValidIp(ip) && AdsFor(ip, pool, ads)
    ensures Base(c.(svcAds := c.svcAds[name := ads]))
  {
    hide Own, Paired, Handles, LogsAligned, Aligned, AdsFor, WellFormedAdv;
    forall a | a in ads
      ensures Aligned(a.prefix) && WellFormedAdv(a)
    {
      AdsAligned(ip, pool, ads, a);
    }
  }

  lemma DeleteKeeps(c: Ctl, name: string)
    requires Base(c)
    ensures Base(c.(svcAds := c.svcAds - {name}))
  {
    hide Own, Paired, Handles, LogsAligned, Aligned, WellFormedAdv;
  }

  lemma SessionKeeps(m: Matcher, c: Ctl, h: nat, e: S.Event)
    requires Good(m, c) && h < |c.sessions| && !e.SetAdvs? && !e.Close?
    ensures Good(m, c.(sessions := Logged(c.sessions, h, e)))
  {
    hide Own, Handles, SlotsOf, Paired, LogsAligned, AllGood, AlignedAds, AllSendable, RunsRight, Merged, Desired;
    var c' := c.(sessions := Logged(c.sessions, h, e));
    LogOther(Handles(c.peers), c.sessions, h, e);
    PairedLater(SlotsOf(c.peers), c.sessions, c'.sessions);
    LoggedAligned(c.sessions, h, e);
    DesiredSnoc(c.sessions[h], e);
    if AllSendable(c.svcAds) {
      var order :| A.Enumerates(order, c.svcAds.Keys) && Bound(c, order);
      assert Bound(c', order);
    }
  }

  lemma StepKeeps(m: Matcher, c: Ctl, e: Event)
    requires Good(m, c) && Sound(c)
    ensures Good(m, Step(m, c, e))
  {
    hide Base, RunsRight, InForce, Configured, Synced, Updated, AdsFor, AllGood, A.Enumerates, Numbered;
    match e
    case EvConfig(cfgs, oks, order) => ConfigKeeps(m, c, cfgs, oks, order);
    case EvNode(labels, oks, order) =>
      if !(c.labels == Some(labels) || |oks| != |c.peers| || !A.Enumerates(order, c.svcAds.Keys)) {
        NodeKeeps(m, c, labels, oks, order);
      }
    case EvBalancer(name, ip, pool, ads, order) =>
      var c' := c.(svcAds := c.svcAds[name := ads]);
      if ValidIp(ip) && AdsFor(ip, pool, ads) && AllGood(c'.svcAds) && A.Enumerates(order, c'.svcAds.Keys) {
        BalancerKeeps(c, name, ip, pool, ads);
        ServicesKeep(m, c, c', order);
      }
    case EvDelete(name, order) =>
      var c' := c.(svcAds := c.svcAds - {name});
      if name in c.svcAds && AllGood(c'.svcAds) && A.Enumerates(order, c'.svcAds.Keys) {
        DeleteKeeps(c, name);
        ServicesKeep(m, c, c', order);
      }
    case EvSession(h, e) =>
      if h < |c.sessions| && !e.SetAdvs? && !e.Close? {
        SessionKeeps(m, c, h, e);
      }
  }

  lemma NodeKeeps(m: Matcher, c: Ctl, labels: Labels, oks: seq<bool>, order: seq<string>)
    requires Good(m, c) && Numbered(c.peers, c.sessions) && |oks| == |c.peers| && A.Enumerates(order, c.svcAds.Keys)
    ensures Good(m, Synced(m, c.(labels := Some(labels)), oks, order))
  {
    hide Held, AllGood, AlignedAds, LogsAligned, Good, Synced, Handles;
    var c' := c.(labels := Some(labels));
    assert Base(c') && InForce(c') by { SameForce(m, c, c'); }
    SyncedKeeps(m, c', oks, order);
  }

  lemma SameForce(m: Matcher, c: Ctl, c': Ctl)
    requires Good(m, c) && c' == c.(labels := c'.labels)
    ensures Base(c') && InForce(c')
  {
    hide AllGood, AlignedAds, LogsAligned, Handles;
    StillInForce(c, c');
  }

  lemma ServicesKeep(m: Matcher, c: Ctl, c': Ctl, order: seq<string>)
    requires Good(m, c) && c' == c.(svcAds := c'.svcAds) && Base(c') && Numbered(c'.peers, c'.sessions)
      && A.Enumerates(order, c'.svcAds.Keys)
    ensures Good(m, Updated(c', order))
  {
    hide Base, InForce;
    assert AllGood(c'.svcAds) by { BaseGood(c'); }
    UpdatedKeeps(c', order);
    UpdatedPeers(c', order);
  }

  lemma BaseGood(c: Ctl)
    requires Base(c)
    ensures Sound(c)
  {
    HeldNumbered(c);
  }

  // ---------- Histories ----------

  ghost function Run(m: Matcher, events: seq<Event>): Ctl {
    if events == [] then START
    else
      var c := Run(m, events[..|events| - 1]);
      if Sound(c) then Step(m, c, events[|events| - 1]) else c
  }

  lemma StartGood(m: Matcher)
    ensures Good(m, START)
  {
    if AllSendable(START.svcAds) {
      assert A.Enumerates([], START.svcAds.Keys);
      assert Handles([]) == multiset{};
      assert Bound(START, []);
    }
  }

  /** Every order of service, configuration and node events, with sessions running beside. */
  lemma {:induction false} EveryHistory(m: Matcher, events: seq<Event>)
    ensures Good(m, Run(m, events))
  {
    hide Good, Sound, Step;
    if events == [] {
      StartGood(m);
    } else {
      var c := Run(m, events[..|events| - 1]);
      EveryHistory(m, events[..|events| - 1]);
      if Sound(c) {
        StepKeeps(m, c, events[|events| - 1]);
      }
    }
  }

  // ---------- The peers' tables ----------

  /** Whenever a running session rests on a live connection, its peer's table holds exactly the
      merge of all services' advertisements, the one of every order if the services agree. */
  lemma PeerLearns(m: Matcher, c: Ctl, peer: Peer, h: nat)
    requires Good(m, c) && peer in c.peers && peer.bgp == Some(h) && AllSendable(c.svcAds)
    ensures h < |c.sessions| && c.sessions[h].p == ParamsOf(peer.cfg) && ShouldRun(m, peer.cfg, c.labels)
    ensures exists order :: A.Enumerates(order, c.svcAds.Keys) && Desired(c.sessions[h]) == Merged(c.svcAds, order)
    ensures Learned(c.sessions[h], Desired(c.sessions[h]))
    ensures Agree(c.svcAds) ==> forall order :: A.Enumerates(order, c.svcAds.Keys) ==>
      Learned(c.sessions[h], Merged(c.svcAds, order))
  {
    hide ShouldRun, AllGood, AllSendable, Merged, P.InSync, P.Injective, S.Run, P.Over, Own, A.Enumerates, Agree;
    var i :| 0 <= i < |c.peers| && c.peers[i] == peer;
    assert SlotsOf(c.peers)[i] == Some(peer);
    assert HoldsAt(SlotsOf(c.peers), i, h);
    HasHandle(SlotsOf(c.peers), h);
    var order :| A.Enumerates(order, c.svcAds.Keys) && Bound(c, order);
    O.AlignedInjective();
    P.PeerInSync(c.sessions[h].p, O.ALIGNED, c.sessions[h].log);
    InSyncLearned(c.sessions[h]);
    if Agree(c.svcAds) {
      forall o | A.Enumerates(o, c.svcAds.Keys)
        ensures Merged(c.svcAds, o) == Merged(c.svcAds, order)
      {
        AgreeingVisits(c.svcAds, o, order);
      }
    }
  }

  /** In every history, whenever a running session rests on a live connection, its peer's table
      holds exactly the merge of all services' advertisements. */
  lemma EveryPeerLearns(m: Matcher, events: seq<Event>, peer: Peer, h: nat)
    requires peer in Run(m, events).peers && peer.bgp == Some(h)
    requires AllGood(Run(m, events).svcAds) && AllSendable(Run(m, events).svcAds)
    ensures var c := Run(m, events);
      && h < |c.sessions| && c.sessions[h].p == ParamsOf(peer.cfg) && ShouldRun(m, peer.cfg, c.labels)
      && (exists order :: A.Enumerates(order, c.svcAds.Keys) && Learned(c.sessions[h], Merged(c.svcAds, order)))
      && (Agree(c.svcAds) ==>
            forall order :: A.Enumerates(order, c.svcAds.Keys) ==> Learned(c.sessions[h], Merged(c.svcAds, order)))
  {
    hide Run, ShouldRun, AllGood, AllSendable, Merged, Good, Learned, A.Enumerates, Agree;
    EveryHistory(m, events);
    PeerLearns(m, Run(m, events), peer, h);
  }

  /** A peer that knows only the octets of the connection shows these routes, if the session
      rests. */
  ghost predicate ReadFromOctets(wide: bool, routerId: Bytes.U32, s: Sess, advs: S.Advs) {
    var state := S.Run(s.p, s.log);
    P.Resting(state) ==>
      && S.Usable(state)
      && var r := W.ReceiveAll(wide, map[], W.Stream(s.p, routerId, state.wire[state.conn.value]));
         r.Some? && S.Shows(r.value, S.SpeakerOf(s.p, state), advs)
  }

  /** The same down to the octets, for lists of at most 814 advertisements: a peer that reads
      four-octet AS numbers or belongs to the same AS has exactly the merge, and no other peer
      has anything that is to be announced. */
  lemma EveryPeerReads(wide: bool, routerId: Bytes.U32, m: Matcher, events: seq<Event>, peer: Peer, h: nat)
    requires peer in Run(m, events).peers && peer.bgp == Some(h) && h < |Run(m, events).sessions|
    requires AllGood(Run(m, events).svcAds) && AllSendable(Run(m, events).svcAds)
    requires forall e :: e in Run(m, events).sessions[h].log ==> W.Small(e)
    ensures var c := Run(m, events);
      exists order :: A.Enumerates(order, c.svcAds.Keys)
        && var s, told := c.sessions[h], Merged(c.svcAds, order);
           && (wide || peer.cfg.myAsn == peer.cfg.asn ==> ReadFromOctets(wide, routerId, s, told))
           && (P.Resting(S.Run(s.p, s.log)) && told != map[] ==>
                (ReadFromOctets(wide, routerId, s, told) <==> wide || peer.cfg.myAsn == peer.cfg.asn))
  {
    hide Run, ShouldRun, AllGood, AllSendable, Merged, Learned, A.Enumerates, Agree, S.Run, P.Over, P.Injective,
         W.Small, W.Stream, W.ReceiveAll, S.Shows, Held;
    var c := Run(m, events);
    EveryHistory(m, events);
    PeerLearns(m, c, peer, h);
    var order :| A.Enumerates(order, c.svcAds.Keys) && Desired(c.sessions[h]) == Merged(c.svcAds, order);
    var s := c.sessions[h];
    if P.Resting(S.Run(s.p, s.log)) {
      O.AlignedInjective();
      W.OctetsInSync(wide, s.p, routerId, O.ALIGNED, s.log);
    }
  }

  /** The peer's table shows these routes, if the session rests. */
  ghost predicate Learned(s: Sess, advs: S.Advs) {
    var state := S.Run(s.p, s.log);
    P.Resting(state) ==> S.Usable(state) && S.Shows(P.PeerTable(state), S.SpeakerOf(s.p, state), advs)
  }

  lemma InSyncLearned(s: Sess)
    requires P.InSync(s.p, S.Run(s.p, s.log))
    ensures Learned(s, Desired(s))
  {
    hide S.Run, S.Shows;
  }

  /** So a resting peer has a route for a prefix exactly when some service advertises it. */
  lemma PeerTableExact(m: Matcher, c: Ctl, peer: Peer, h: nat, q: Cidr)
    requires Good(m, c) && peer in c.peers && peer.bgp == Some(h) && AllSendable(c.svcAds)
    requires h < |c.sessions| && P.Resting(S.Run(ParamsOf(peer.cfg), c.sessions[h].log))
    ensures c.sessions[h].p == ParamsOf(peer.cfg) && S.Usable(S.Run(c.sessions[h].p, c.sessions[h].log))
    ensures q in P.PeerTable(S.Run(c.sessions[h].p, c.sessions[h].log))
      <==> exists s, a :: s in c.svcAds && a in c.svcAds[s] && a.prefix == q
  {
    hide ShouldRun, AllGood, AllSendable, Merged, P.Resting, P.PeerTable, S.Run, S.SpeakerOf, Aligned, Own,
         A.Enumerates, Canon;
    PeerLearns(m, c, peer, h);
    var order :| A.Enumerates(order, c.svcAds.Keys) && Desired(c.sessions[h]) == Merged(c.svcAds, order);
    var state := S.Run(c.sessions[h].p, c.sessions[h].log);
    ShowsKeys(P.PeerTable(state), S.SpeakerOf(c.sessions[h].p, state), c.svcAds, order, q);
    MergedKeys(c.svcAds, order, q);
  }

  /** The same at every rest of every history. */
  lemma TableExact(m: Matcher, events: seq<Event>, peer: Peer, h: nat, q: Cidr)
    requires peer in Run(m, events).peers && peer.bgp == Some(h) && h < |Run(m, events).sessions|
    requires AllSendable(Run(m, events).svcAds)
    requires P.Resting(S.Run(ParamsOf(peer.cfg), Run(m, events).sessions[h].log))
    ensures var c := Run(m, events);
      && c.sessions[h].p == ParamsOf(peer.cfg) && S.Usable(S.Run(c.sessions[h].p, c.sessions[h].log))
      && (q in P.PeerTable(S.Run(c.sessions[h].p, c.sessions[h].log))
        <==> exists s, a :: s in c.svcAds && a in c.svcAds[s] && a.prefix == q)
  {
    hide Run, Good, AllSendable, P.Resting, P.PeerTable, S.Run, S.Usable;
    EveryHistory(m, events);
    PeerTableExact(m, Run(m, events), peer, h, q);
  }

  lemma ShowsKeys(t: S.Table, sp: Speaker, svcAds: SvcAds, order: seq<string>, q: Cidr)
    requires AllGood(svcAds) && AllSendable(svcAds) && AlignedAds(svcAds) && A.Enumerates(order, svcAds.Keys)
    requires S.Shows(t, sp, Merged(svcAds, order))
    ensures q in t <==> q in Merged(svcAds, order)
  {
    hide AllGood, AllSendable, Merged, Aligned, RouteOf, Canon, A.Enumerates;
    var advs := Merged(svcAds, order);
    forall k | k in advs
      ensures Canon(k) == k
    {
      MergedKeys(svcAds, order, k);
      O.AlignedCanon(k);
    }
  }

  // ---------- Closed sessions ----------

  lemma {:induction false} ClosedExact(p: S.Params, log: seq<S.Event>)
    ensures S.Run(p, log).closed <==> Closes(log) > 0
  {
    if log != [] {
      hide S.Step;
      var init, e := log[..|log| - 1], log[|log| - 1];
      ClosedExact(p, init);
      P.StepEffect(p, S.Run(p, init), e);
    }
  }

  /** In every history a session is closed exactly when no peer holds it, so no session leaks
      and no peer holds a dead one. */
  lemma NoSessionLeaks(m: Matcher, events: seq<Event>, h: nat)
    requires h < |Run(m, events).sessions|
    ensures var c := Run(m, events);
      && Closes(c.sessions[h].log) <= 1 && Handles(c.peers)[h] <= 1
      && (S.Run(c.sessions[h].p, c.sessions[h].log).closed <==> h !in Handles(c.peers))
  {
    hide Run, S.Run, Handles;
    var c := Run(m, events);
    EveryHistory(m, events);
    ClosedExact(c.sessions[h].p, c.sessions[h].log);
  }
}
