/** What the routes at the peers say, from the services' advertisements and the peers'
    configurations, and which peers have a session at all. */
module SpeakerRoutes {
  import opened Net
  import Bytes
  import opened Routes
  import opened Advertising
  import opened SpeakerSpec
  import opened SpeakerRuns
  import S = SessionSpec
  import P = SessionProofs
  import R = SessionRoutes
  import O = SessionOctets
  import A = AllocatorSpec

  // ---------- Routes ----------

  lemma {:induction false} MergeHolds(advs: seq<Adv>, k: Cidr)
    requires S.AllWellFormed(advs) && S.Merge(advs).Some? && k in S.Merge(advs).value
    ensures S.Merge(advs).value[k] in advs && S.Merge(advs).value[k].prefix == k
  {
    hide WellFormedAdv, Sendable;
    var n := |advs| - 1;
    if advs[n].prefix != k {
      MergeHolds(advs[..n], k);
    }
  }

  /** What the sessions are told of a prefix is an advertisement of some service. */
  lemma MergedHolds(svcAds: SvcAds, order: seq<string>, k: Cidr)
    requires AllGood(svcAds) && AllSendable(svcAds) && A.Enumerates(order, svcAds.Keys) && k in Merged(svcAds, order)
    ensures exists s, a :: s in svcAds && a in svcAds[s] && a.prefix == k && Merged(svcAds, order)[k] == a
  {
    hide WellFormedAdv, Sendable, S.Merge, Concat;
    AcceptedExact(svcAds, order);
    MergeHolds(Concat(svcAds, order), k);
    ConcatHas(svcAds, order, Merged(svcAds, order)[k]);
  }

  /** The session's configuration is the peer's. */
  function Terms(cfg: PeerCfg): S.Params {
    S.Params(cfg.myAsn, cfg.asn, cfg.holdTime)
  }

  /** The table has a route for exactly the prefixes that services advertise, and each route
      says what some service's advertisement of the prefix says. */
  ghost predicate ShowsServices(cfg: PeerCfg, address: Bytes.U32, svcAds: SvcAds, t: S.Table) {
    && (forall q :: q in t <==> exists s, a :: s in svcAds && a in svcAds[s] && a.prefix == q)
    && (forall q :: q in t ==>
          exists s, a :: s in svcAds && a in svcAds[s] && a.prefix == q && R.SaysOf(Terms(cfg), address, a, t[q]))
  }

  lemma RouteSays(p: S.Params, state: S.State, svcAds: SvcAds, order: seq<string>, t: S.Table, q: Cidr)
    requires AllGood(svcAds) && AllSendable(svcAds) && AlignedAds(svcAds) && A.Enumerates(order, svcAds.Keys)
    requires S.Shows(t, S.SpeakerOf(p, state), Merged(svcAds, order)) && q in t
    ensures exists s, a :: s in svcAds && a in svcAds[s] && a.prefix == q && R.SaysOf(p, state.address, a, t[q])
  {
    hide AllGood, AllSendable, Merged, Aligned, RouteOf, Canon, A.Enumerates, S.SpeakerOf, R.SaysOf;
    ShowsKeys(t, S.SpeakerOf(p, state), svcAds, order, q);
    MergedHolds(svcAds, order, q);
    var s, a :| s in svcAds && a in svcAds[s] && a.prefix == q && Merged(svcAds, order)[q] == a;
    O.AlignedCanon(q);
    R.RouteSays(p, state, Merged(svcAds, order)[q]);
  }

  /** Whenever a running session rests, its peer has been told what the services advertise, in
      the name of the address of the attempt that made the connection. */
  lemma PeerSays(m: Matcher, c: Ctl, peer: Peer, h: nat)
    requires Good(m, c) && peer in c.peers && peer.bgp == Some(h) && AllSendable(c.svcAds)
    requires h < |c.sessions| && P.Resting(S.Run(ParamsOf(peer.cfg), c.sessions[h].log))
    ensures c.sessions[h].p == Terms(peer.cfg)
    ensures var state := S.Run(Terms(peer.cfg), c.sessions[h].log);
      && S.Usable(state)
      && exists k :: R.UpSince(Terms(peer.cfg), c.sessions[h].log, k)
           && ShowsServices(peer.cfg, c.sessions[h].log[k].dial.address, c.svcAds, P.PeerTable(state))
  {
    hide ShouldRun, AllGood, AllSendable, Merged, P.Resting, P.PeerTable, S.Run, S.SpeakerOf, Aligned, A.Enumerates,
         Canon, R.SaysOf, S.Shows;
    PeerLearns(m, c, peer, h);
    assert ParamsOf(peer.cfg) == Terms(peer.cfg);
    var p, log := Terms(peer.cfg), c.sessions[h].log;
    var state := S.Run(p, log);
    assert state.conn.Some? by { RestsConnected(state); }
    var k := R.MadeByAttempt(p, log);
    var order :| A.Enumerates(order, c.svcAds.Keys) && Desired(c.sessions[h]) == Merged(c.svcAds, order);
    var t := P.PeerTable(state);
    forall q
      ensures q in t <==> exists s, a :: s in c.svcAds && a in c.svcAds[s] && a.prefix == q
    {
      PeerTableExact(m, c, peer, h, q);
    }
    forall q | q in t
      ensures exists s, a :: s in c.svcAds && a in c.svcAds[s] && a.prefix == q && R.SaysOf(p, state.address, a, t[q])
    {
      RouteSays(p, state, c.svcAds, order, t, q);
    }
  }

  lemma RestsConnected(s: S.State)
    requires P.Resting(s)
    ensures s.conn.Some?
  {
  }

  // ---------- Who runs ----------

  /** Some selector of the peer matches the node's labels; before they are known, no labels. */
  ghost predicate Selected(m: Matcher, cfg: PeerCfg, labels: Option<Labels>) {
    exists sel :: sel in cfg.selectors && m(sel, if labels.Some? then labels.value else map[])
  }

  ghost predicate AllStart(e: Event) {
    (e.EvConfig? || e.EvNode?) ==> forall i :: 0 <= i < |e.oks| ==> e.oks[i]
  }

  ghost predicate RunsExactly(m: Matcher, c: Ctl) {
    forall i :: 0 <= i < |c.peers| ==> (c.peers[i].bgp.Some? <==> Selected(m, c.peers[i].cfg, c.labels))
  }

  lemma SelectedExact(m: Matcher, cfg: PeerCfg, labels: Option<Labels>)
    ensures ShouldRun(m, cfg, labels) <==> Selected(m, cfg, labels)
  {
    if sel :| sel in cfg.selectors && m(sel, LabelsOf(labels)) {
      var i :| 0 <= i < |cfg.selectors| && cfg.selectors[i] == sel;
    }
  }

  lemma SyncedExactly(m: Matcher, c: Ctl, oks: seq<bool>, order: seq<string>)
    requires |oks| == |c.peers| && Sound(c) && A.Enumerates(order, c.svcAds.Keys)
      && forall i :: 0 <= i < |oks| ==> oks[i]
    ensures RunsExactly(m, Synced(m, c, oks, order))
    ensures |Synced(m, c, oks, order).peers| == |c.peers|
    ensures forall i :: 0 <= i < |c.peers| ==> Synced(m, c, oks, order).peers[i].cfg == c.peers[i].cfg
  {
    hide ShouldRun, Selected, SyncUpTo, SetAll, Concat, AllGood, A.Enumerates;
    SyncExact(m, c.labels, c.peers, c.sessions, oks, |c.peers|);
    forall i | 0 <= i < |c.peers|
      ensures ShouldRun(m, c.peers[i].cfg, c.labels) <==> Selected(m, c.peers[i].cfg, c.labels)
    {
      SelectedExact(m, c.peers[i].cfg, c.labels);
    }
  }

  lemma StepExactly(m: Matcher, c: Ctl, e: Event)
    requires Sound(c) && RunsExactly(m, c) && AllStart(e)
    ensures RunsExactly(m, Step(m, c, e))
  {
    hide Selected, Synced, Updated, Configured, AdsFor, AllGood, A.Enumerates, Numbered, RunsExactly;
    match e
    case EvConfig(cfgs, oks, order) =>
      var c' := Configured(c, cfgs);
      if |oks| == |cfgs| == |c'.peers| && Sound(c') && A.Enumerates(order, c.svcAds.Keys) {
        ConfiguredAds(c, cfgs);
        SyncedExactly(m, c', oks, order);
      }
    case EvNode(labels, oks, order) =>
      if c.labels != Some(labels) && |oks| == |c.peers| && A.Enumerates(order, c.svcAds.Keys) {
        SyncedExactly(m, c.(labels := Some(labels)), oks, order);
      }
    case EvBalancer(name, ip, pool, ads, order) =>
      var c' := c.(svcAds := c.svcAds[name := ads]);
      if ValidIp(ip) && AdsFor(ip, pool, ads) && AllGood(c'.svcAds) && A.Enumerates(order, c'.svcAds.Keys) {
        UpdatedPeers(c', order);
      }
      SamePeers(m, c, Step(m, c, e));
    case EvDelete(name, order) =>
      var c' := c.(svcAds := c.svcAds - {name});
      if name in c.svcAds && AllGood(c'.svcAds) && A.Enumerates(order, c'.svcAds.Keys) {
        UpdatedPeers(c', order);
      }
      SamePeers(m, c, Step(m, c, e));
    case EvSession(h, e') =>
      SamePeers(m, c, Step(m, c, e));
  }

  lemma ConfiguredAds(c: Ctl, cfgs: seq<PeerCfg>)
    requires Numbered(c.peers, c.sessions)
    ensures Configured(c, cfgs).svcAds == c.svcAds
  {
  }

  lemma SamePeers(m: Matcher, c: Ctl, c': Ctl)
    requires RunsExactly(m, c) && c'.peers == c.peers && c'.labels == c.labels
    ensures RunsExactly(m, c')
  {
  }

  /** In every history in which every session that is to be created can be, a peer has one
      exactly if some selector of its matches the node. */
  lemma {:induction false} EveryPeerRuns(m: Matcher, events: seq<Event>)
    requires forall e :: e in events ==> AllStart(e)
    ensures RunsExactly(m, Run(m, events))
  {
    hide RunsExactly, Sound, Step, AllStart;
    if events == [] {
      assert RunsExactly(m, START) by { NobodyRuns(m); }
    } else {
      var init, e := events[..|events| - 1], events[|events| - 1];
      EveryPeerRuns(m, init);
      if Sound(Run(m, init)) {
        StepExactly(m, Run(m, init), e);
      }
    }
  }

  lemma NobodyRuns(m: Matcher)
    ensures RunsExactly(m, START)
  {
  }
}
