/** `bgpController` (speaker/bgp_controller.go): the loops and field updates, proved against
    the functions of SpeakerSpec. */
module SpeakerBgp {
  import opened Net
  import opened Config
  import opened Routes
  import opened Advertising
  import opened SpeakerSpec
  import opened SpeakerProofs
  import opened SpeakerRuns
  import S = SessionSpec
  import A = AllocatorSpec
  import opened Allocators

  class BgpController {
    const matches: Matcher
    var peers: seq<Peer>
    var nodeLabels: Option<Labels>
    var svcAds: SvcAds
    var sessions: seq<Sess>

    ghost function View(): Ctl
      reads this
    {
      Ctl(peers, nodeLabels, svcAds, sessions)
    }

    ghost predicate Valid()
      reads this
    {
      Good(matches, View())
    }

    constructor (matches: Matcher)
      ensures Valid() && View() == START && this.matches == matches
    {
      this.matches := matches;
      peers, nodeLabels, svcAds, sessions := [], None, map[], [];
      new;
      StartGood(matches);
    }

    /** A call on session h. */
    method Tell(h: nat, e: S.Event)
      requires h < |sessions|
      modifies this`sessions
      ensures sessions == Logged(old(sessions), h, e)
    {
      sessions := sessions[h := sessions[h].(log := sessions[h].log + [e])];
    }

    /** `newBGP`, which may fail. */
    method NewBgp(cfg: PeerCfg) returns (h: Option<nat>)
      modifies this`sessions
      ensures h.None? ==> sessions == old(sessions)
      ensures h.Some? ==> h == Some(|old(sessions)|) && sessions == old(sessions) + [Sess(ParamsOf(cfg), [])]
    {
      var ok: bool := *;
      if ok {
        sessions := sessions + [Sess(ParamsOf(cfg), [])];
        return Some(|sessions| - 1);
      }
      return None;
    }

    method ShouldRunHere(cfg: PeerCfg) returns (shouldRun: bool)
      ensures shouldRun == ShouldRun(matches, cfg, nodeLabels)
    {
      shouldRun := false;
      for i := 0 to |cfg.selectors|
        invariant !shouldRun
        invariant forall j :: 0 <= j < i ==> !matches(cfg.selectors[j], LabelsOf(nodeLabels))
      {
        if matches(cfg.selectors[i], LabelsOf(nodeLabels)) {
          return true;
        }
      }
    }

    /** The first loop of `SetConfig`: the new peers, and the old ones that are left. */
    method MatchPeers(cfgs: seq<PeerCfg>) returns (newPeers: seq<Peer>, slots: Slots)
      ensures Match(newPeers, slots) == Matched(cfgs, SlotsOf(peers))
    {
      newPeers, slots := [], SlotsOf(peers);
      for k := 0 to |cfgs|
        invariant Match(newPeers, slots) == Matched(cfgs[..k], SlotsOf(peers))
      {
        var p := cfgs[k];
        assert cfgs[..k + 1][..k] == cfgs[..k];
        var i := FindSlot(slots, p);
        if i < |slots| {
          newPeers, slots := newPeers + [slots[i].value], slots[i := None];
        } else {
          newPeers := newPeers + [Peer(p, None)];
        }
      }
      assert cfgs[..|cfgs|] == cfgs;
    }

    /** Its inner loop, up to the `continue`. */
    static method FindSlot(slots: Slots, cfg: PeerCfg) returns (i: nat)
      ensures i == Pick(slots, cfg)
    {
      i := 0;
      while i < |slots| && !(slots[i].Some? && slots[i].value.cfg == cfg)
        invariant i <= |slots| && forall j :: 0 <= j < i ==> !Fits(slots[j], cfg)
      {
        i := i + 1;
      }
    }

    /** The second loop of `SetConfig`. */
    method CloseLeft(slots: Slots)
      requires NumberedSlots(slots, sessions)
      modifies this`sessions
      ensures sessions == Dropped(slots, old(sessions))
    {
      ghost var before := sessions;
      for i := 0 to |slots|
        invariant NumberedSlots(slots[..i], before) && |sessions| == |before|
        invariant sessions == Dropped(slots[..i], before)
      {
        assert slots[..i + 1][..i] == slots[..i];
        if slots[i].Some? && slots[i].value.bgp.Some? {
          Tell(slots[i].value.bgp.value, S.Close);
        }
      }
      assert slots[..|slots|] == slots;
    }

    /** `SetConfig`: some sessions may fail to start, and the services come in some order. */
    method SetConfig(cfgs: seq<PeerCfg>) returns (ok: bool, ghost oks: seq<bool>, ghost order: seq<string>)
      requires Valid()
      modifies this
      ensures Valid()
      ensures Sound(old(View())) && |oks| == |cfgs| && A.Enumerates(order, svcAds.Keys)
      ensures View() == Step(matches, old(View()), EvConfig(cfgs, oks, order))
      ensures svcAds == old(svcAds) && nodeLabels == old(nodeLabels)
      ensures Sound(Configured(old(View()), cfgs)) && |Configured(old(View()), cfgs).peers| == |cfgs|
      ensures ok <==> SyncOk(matches, Configured(old(View()), cfgs), oks)
    {
      hide Base, RunsRight, InForce, Matched, Dropped, Synced;
      ghost var c := View();
      BaseGood(c);
      var newPeers, slots := MatchPeers(cfgs);
      ConfiguredInForce(c, cfgs);
      LeftNumbered(c, cfgs);
      peers := newPeers;
      CloseLeft(slots);
      assert View() == Configured(c, cfgs);
      BaseGood(View());
      ok, oks, order := SyncPeers();
    }

    /** `syncPeers`. */
    method SyncPeers() returns (ok: bool, ghost oks: seq<bool>, ghost order: seq<string>)
      requires Base(View()) && InForce(View()) && Sound(View())
      modifies this`peers, this`sessions
      ensures |oks| == |old(peers)| && A.Enumerates(order, svcAds.Keys)
      ensures View() == Synced(matches, old(View()), oks, order) && Valid()
      ensures ok <==> SyncOk(matches, old(View()), oks)
    {
      hide Base, RunsRight, InForce, ShouldRun, SyncUpTo, SyncOne;
      ghost var c := View();
      ghost var m, labels := matches, nodeLabels;
      var errs, needUpdateAds := 0, false;
      ghost var made: seq<bool> := [];
      SyncNothing(m, labels, c.peers, c.sessions, AllOf(|c.peers|));
      for i := 0 to |peers|
        invariant View() == c.(peers := peers, sessions := sessions)
        invariant |peers| == |c.peers| && |made| == i && peers[i..] == c.peers[i..]
        invariant Sync(peers[..i], sessions, needUpdateAds, errs > 0)
          == SyncUpTo(m, labels, c.peers, c.sessions, Padded(made, |c.peers|), i)
        invariant errs >= 0
      {
        var p := peers[i];
        assert p == c.peers[i];
        ghost var before := Sync(peers[..i], sessions, needUpdateAds, errs > 0);
        ghost var was := peers;
        var q, started, failed;
        ghost var up;
        q, started, failed, up := SyncPeer(p, before);
        peers := peers[i := q];
        needUpdateAds := needUpdateAds || started;
        errs := if failed then errs + 1 else errs;
        assert peers[..i + 1] == was[..i] + [q];
        assert peers[i + 1..] == was[i..][1..];
        SyncNext(m, labels, c.peers, c.sessions, made, up);
        made := made + [up];
      }
      oks := made;
      assert Padded(made, |c.peers|) == made && peers[..|peers|] == peers;
      AfterSync(m, c, oks);
      if needUpdateAds {
        ok, order := UpdateAds();
      } else {
        ok, order := true, EnumerationOf(svcAds.Keys);
      }
      SyncedKeeps(m, c, oks, order);
      ok := ok && errs == 0;
    }

    /** The body of the loop: a session that should not run is closed, one that should is
        started, if it can be. */
    method SyncPeer(p: Peer, ghost s: Sync) returns (q: Peer, started: bool, failed: bool, ghost up: bool)
      requires s.sessions == sessions && (p.bgp.Some? ==> p.bgp.value < |sessions|)
      modifies this`sessions
      ensures SyncOne(matches, nodeLabels, s, p, up)
        == Sync(s.peers + [q], sessions, s.started || started, s.failed || failed)
    {
      hide ShouldRun;
      var shouldRun := ShouldRunHere(p.cfg);
      q, started, failed, up := p, false, false, true;
      if p.bgp.Some? && !shouldRun {
        Tell(p.bgp.value, S.Close);
        q := Peer(p.cfg, None);
      } else if p.bgp.None? && shouldRun {
        var h := NewBgp(p.cfg);
        if h.None? {
          failed, up := true, false;
        } else {
          q, started := Peer(p.cfg, h), true;
        }
      }
    }

    /** `updateAds`: the list of all advertisements, in some order of the services, goes to
        every session, up to the first error. */
    method UpdateAds() returns (ok: bool, ghost order: seq<string>)
      requires Numbered(peers, sessions) && AllGood(svcAds)
      modifies this`sessions
      ensures A.Enumerates(order, svcAds.Keys)
      ensures View() == Updated(old(View()), order)
      ensures ok <==> AllSendable(svcAds) || !SomeRun(peers)
    {
      hide AllGood, AllSendable, S.Merge, WellFormedAdv;
      var allAds;
      allAds, order := Collect();
      AcceptedExact(svcAds, order);
      ok := SetEach(allAds);
    }

    method Collect() returns (allAds: seq<Adv>, ghost order: seq<string>)
      ensures A.Enumerates(order, svcAds.Keys) && allAds == Concat(svcAds, order)
    {
      allAds, order := [], [];
      var todo := svcAds.Keys;
      while todo != {}
        invariant todo <= svcAds.Keys
        invariant forall s :: s in svcAds <==> s in todo || s in order
        invariant allAds == Concat(svcAds, order)
        decreases todo
      {
        var name :| name in todo;
        todo := todo - {name};
        assert (order + [name])[..|order|] == order;
        allAds, order := allAds + svcAds[name], order + [name];
      }
    }

    method SetEach(advs: seq<Adv>) returns (ok: bool)
      requires Numbered(peers, sessions) && S.AllWellFormed(advs)
      modifies this`sessions
      ensures sessions == SetAll(peers, old(sessions), advs)
      ensures ok <==> S.Merge(advs).Some? || !SomeRun(peers)
    {
      hide S.Merge, WellFormedAdv;
      ghost var before := sessions;
      for i := 0 to |peers|
        invariant |sessions| == |before| && sessions == SetAll(peers[..i], before, advs)
        invariant S.Merge(advs).Some? || !SomeRun(peers[..i])
      {
        assert peers[..i + 1][..i] == peers[..i];
        if peers[i].bgp.None? {
          StillNone(peers, i);
          continue;
        }
        Tell(peers[i].bgp.value, S.SetAdvs(advs));
        ok := Accepts(advs);
        if !ok {
          assert peers[..i + 1][i].bgp.Some?;
          SetAllStopped(peers, before, advs, i + 1);
          return;
        }
      }
      assert peers[..|peers|] == peers;
      ok := true;
    }

    /** What a session's own `Set` answers. */
    method Accepts(advs: seq<Adv>) returns (ok: bool)
      requires S.AllWellFormed(advs)
      ensures ok <==> S.Merge(advs).Some?
    {
      hide S.Merge;
      MergeDefined(advs);
      for i := 0 to |advs|
        invariant forall j :: 0 <= j < i ==> Sendable(advs[j])
      {
        if !Sendable(advs[i]) {
          assert advs[i] in advs;
          return false;
        }
      }
      return true;
    }

    /** `SetBalancer`. The service's list is replaced even if the sessions then refuse it. */
    method SetBalancer(name: string, ip: Ip, pool: Pool)
      returns (ok: bool, ghost ads: seq<Adv>, ghost order: seq<string>)
      requires Valid() && ValidIp(ip)
      modifies this`svcAds, this`sessions
      ensures Valid() && Sound(old(View()))
      ensures AdsFor(ip, pool, ads) && svcAds == old(svcAds)[name := ads] && A.Enumerates(order, svcAds.Keys)
      ensures View() == Step(matches, old(View()), EvBalancer(name, ip, pool, ads, order))
      ensures ok <==> AllSendable(svcAds) || !SomeRun(peers)
    {
      hide Base, RunsRight, InForce, Updated, AllGood, AdsFor, AllSendable, Numbered;
      ghost var c := View();
      BaseGood(c);
      var list := MakeAds(ip, pool);
      ads := list;
      svcAds := svcAds[name := list];
      BalancerKeeps(c, name, ip, pool, ads);
      BaseGood(View());
      ok, order := UpdateAds();
      StepKeeps(matches, c, EvBalancer(name, ip, pool, ads, order));
    }

    /** `DeleteBalancer`. */
    method DeleteBalancer(name: string) returns (ok: bool, ghost order: seq<string>)
      requires Valid()
      modifies this`svcAds, this`sessions
      ensures Valid() && Sound(old(View()))
      ensures svcAds == old(svcAds) - {name} && A.Enumerates(order, svcAds.Keys)
      ensures View() == Step(matches, old(View()), EvDelete(name, order))
      ensures ok <==> name !in old(svcAds) || AllSendable(svcAds) || !SomeRun(peers)
    {
      hide Base, RunsRight, InForce, Updated, AllGood, AllSendable, Numbered, A.Enumerates;
      ghost var c := View();
      BaseGood(c);
      if name !in svcAds {
        assert svcAds - {name} == svcAds;
        return true, EnumerationOf(svcAds.Keys);
      }
      svcAds := svcAds - {name};
      DeleteKeeps(c, name);
      BaseGood(View());
      ok, order := UpdateAds();
      StepKeeps(matches, c, EvDelete(name, order));
    }

    /** `SetNode`. Missing labels are empty labels. */
    method SetNode(labels: Option<Labels>) returns (ok: bool, ghost oks: seq<bool>, ghost order: seq<string>)
      requires Valid()
      modifies this`nodeLabels, this`peers, this`sessions
      ensures Valid() && Sound(old(View()))
      ensures |oks| == |old(peers)| && A.Enumerates(order, svcAds.Keys)
      ensures View() == Step(matches, old(View()), EvNode(LabelsOf(labels), oks, order))
      ensures nodeLabels == Some(LabelsOf(labels))
      ensures ok <==> old(nodeLabels) == nodeLabels || SyncOk(matches, old(View()).(labels := nodeLabels), oks)
    {
      hide Base, RunsRight, InForce, Synced, AllGood, A.Enumerates;
      ghost var c := View();
      BaseGood(c);
      var ns := LabelsOf(labels);
      if nodeLabels == Some(ns) {
        return true, AllOf(|peers|), EnumerationOf(svcAds.Keys);
      }
      nodeLabels := Some(ns);
      SameForce(matches, c, View());
      BaseGood(View());
      ok, oks, order := SyncPeers();
    }
  }

  /** Every session that had to start did, and if any did, the update was accepted. */
  ghost predicate SyncOk(m: Matcher, c: Ctl, oks: seq<bool>)
    requires |oks| == |c.peers| && Sound(c)
  {
    var s := SyncUpTo(m, c.labels, c.peers, c.sessions, oks, |c.peers|);
    !s.failed && (s.started ==> AllSendable(c.svcAds) || !SomeRun(s.peers))
  }

  ghost function AllOf(n: nat): (r: seq<bool>)
    ensures |r| == n
  {
    seq(n, _ => true)
  }

  /** Outcomes for all n peers that begin with these. */
  ghost function Padded(made: seq<bool>, n: nat): (r: seq<bool>)
    requires |made| <= n
    ensures |r| == n && r[..|made|] == made
  {
    made + AllOf(n - |made|)
  }

  lemma SyncNothing(m: Matcher, labels: Option<Labels>, peers: seq<Peer>, sessions: seq<Sess>, oks: seq<bool>)
    requires |oks| == |peers| && Numbered(peers, sessions)
    ensures SyncUpTo(m, labels, peers, sessions, oks, 0) == Sync([], sessions, false, false)
    ensures Padded([], |peers|) == AllOf(|peers|)
  {
  }

  /** Only the outcomes so far matter. */
  lemma {:induction false} SyncPrefix(m: Matcher, labels: Option<Labels>, peers: seq<Peer>, sessions: seq<Sess>,
                                      a: seq<bool>, b: seq<bool>, n: nat)
    requires n <= |peers| == |a| == |b| && Numbered(peers, sessions) && a[..n] == b[..n]
    ensures SyncUpTo(m, labels, peers, sessions, a, n) == SyncUpTo(m, labels, peers, sessions, b, n)
  {
    hide SyncOne;
    if n > 0 {
      assert a[..n - 1] == a[..n][..n - 1] && b[..n - 1] == b[..n][..n - 1];
      assert a[n - 1] == a[..n][n - 1] && b[n - 1] == b[..n][n - 1];
      SyncPrefix(m, labels, peers, sessions, a, b, n - 1);
    }
  }

  lemma SyncNext(m: Matcher, labels: Option<Labels>, peers: seq<Peer>, sessions: seq<Sess>, made: seq<bool>, up: bool)
    requires |made| < |peers| && Numbered(peers, sessions)
    ensures SyncUpTo(m, labels, peers, sessions, Padded(made + [up], |peers|), |made| + 1)
      == SyncOne(m, labels, SyncUpTo(m, labels, peers, sessions, Padded(made, |peers|), |made|), peers[|made|], up)
  {
    hide SyncOne;
    var a, b := Padded(made, |peers|), Padded(made + [up], |peers|);
    assert b[|made|] == b[..|made| + 1][|made|] == up;
    assert b[..|made|] == b[..|made| + 1][..|made|];
    SyncPrefix(m, labels, peers, sessions, a, b, |made|);
  }

  lemma AfterSync(m: Matcher, c: Ctl, oks: seq<bool>)
    requires Base(c) && |oks| == |c.peers| && Numbered(c.peers, c.sessions)
    ensures var s := SyncUpTo(m, c.labels, c.peers, c.sessions, oks, |c.peers|); Numbered(s.peers, s.sessions)
  {
    hide Own, Handles, SlotsOf, Paired, LogsAligned, AllGood, AlignedAds, ShouldRun, SyncUpTo, Numbered;
    var s := SyncUpTo(m, c.labels, c.peers, c.sessions, oks, |c.peers|);
    SyncKeeps(m, c.labels, c.peers, c.sessions, oks, |c.peers|);
    NoneLeft(c.peers, s.peers);
    HeldNumbered(c.(peers := s.peers, sessions := s.sessions));
  }

  lemma LeftNumbered(c: Ctl, cfgs: seq<PeerCfg>)
    requires Base(c)
    ensures NumberedSlots(Matched(cfgs, SlotsOf(c.peers)).left, c.sessions)
  {
    hide Own, Handles, SlotsOf, Matched;
    MatchedPaired(cfgs, SlotsOf(c.peers), c.sessions);
    PairedNumbered(Matched(cfgs, SlotsOf(c.peers)).left, c.sessions);
  }

  lemma StillNone(peers: seq<Peer>, i: nat)
    requires i < |peers| && peers[i].bgp.None?
    ensures SomeRun(peers[..i + 1]) == SomeRun(peers[..i])
  {
    var more, less := peers[..i + 1], peers[..i];
    if k :| 0 <= k < |more| && more[k].bgp.Some? {
      assert less[k].bgp.Some?;
    }
    if k :| 0 <= k < |less| && less[k].bgp.Some? {
      assert more[k].bgp.Some?;
    }
  }

  /** After an error no further session is told. */
  lemma {:induction false} SetAllStopped(peers: seq<Peer>, sessions: seq<Sess>, advs: seq<Adv>, n: nat)
    requires n <= |peers| && Numbered(peers, sessions) && S.AllWellFormed(advs) && S.Merge(advs).None?
      && SomeRun(peers[..n])
    ensures SomeRun(peers) && SetAll(peers, sessions, advs) == SetAll(peers[..n], sessions, advs)
  {
    hide S.Merge, WellFormedAdv;
    if n == |peers| {
      assert peers[..n] == peers;
    } else {
      var init := peers[..|peers| - 1];
      assert init[..n] == peers[..n];
      SetAllStopped(init, sessions, advs, n);
      var k :| 0 <= k < |init| && init[k].bgp.Some?;
      assert peers[k].bgp.Some?;
    }
  }
}
