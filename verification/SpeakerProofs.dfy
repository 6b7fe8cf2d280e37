/** What every operation of the speaker's BGP controller keeps, over every history. */
module SpeakerProofs {
  import opened Net
  import opened SpeakerSpec
  import S = SessionSpec

  // ---------- Counting over slots ----------

  ghost function Gather<T>(slots: Slots, f: Option<Peer> -> multiset<T>): multiset<T> {
    if slots == [] then multiset{} else Gather(slots[..|slots| - 1], f) + f(slots[|slots| - 1])
  }

  lemma Exchange<T>(a: multiset<T>, x: multiset<T>, b: multiset<T>, y: multiset<T>, c: multiset<T>)
    requires a + x == b + y
    ensures (a + c) + x == (b + c) + y
    ensures c + x + a == c + (b + y)
    ensures y == multiset{} ==> a == b - x
  {
    assert (a + c) + x == (a + x) + c;
    assert c + x + a == c + (a + x);
    if y == multiset{} {
      assert (a + x) - x == a;
      assert b + y == b;
    }
  }

  lemma {:induction false} GatherUpdate<T>(slots: Slots, i: nat, v: Option<Peer>, f: Option<Peer> -> multiset<T>)
    requires i < |slots|
    ensures Gather(slots[i := v], f) + f(slots[i]) == Gather(slots, f) + f(v)
  {
    var n := |slots| - 1;
    if i == n {
      assert slots[i := v][..n] == slots[..n];
    } else {
      GatherUpdate(slots[..n], i, v, f);
      assert slots[..n][i] == slots[i] && slots[i := v][n] == slots[n];
      assert slots[i := v][..n] == slots[..n][i := v];
      Exchange(Gather(slots[..n][i := v], f), f(slots[i]), Gather(slots[..n], f), f(v), f(slots[n]));
    }
  }

  lemma {:induction false} GatherAppend<T>(a: Slots, b: Slots, f: Option<Peer> -> multiset<T>)
    ensures Gather(a + b, f) == Gather(a, f) + Gather(b, f)
  {
    if b == [] {
      assert a + b == a;
    } else {
      var init := b[..|b| - 1];
      assert (a + b)[..|a + b| - 1] == a + init;
      GatherAppend(a, init, f);
    }
  }

  ghost function HandleOf(slot: Option<Peer>): multiset<nat> {
    if slot.Some? && slot.value.bgp.Some? then multiset{slot.value.bgp.value} else multiset{}
  }

  ghost function LiveOf(slot: Option<Peer>): multiset<Peer> {
    if slot.Some? && slot.value.bgp.Some? then multiset{slot.value} else multiset{}
  }

  ghost function CfgOf(slot: Option<Peer>): multiset<PeerCfg> {
    if slot.Some? then multiset{slot.value.cfg} else multiset{}
  }

  /** The numbers of the sessions that these peers hold, each as often as it is held. */
  ghost function Handles(peers: seq<Peer>): multiset<nat> {
    Gather(SlotsOf(peers), HandleOf)
  }

  // ---------- SetConfig conserves sessions ----------

  ghost predicate Weightless<T(!new)>(f: Option<Peer> -> multiset<T>) {
    f(None) == multiset{} && forall cfg :: f(Some(Peer(cfg, None))) == multiset{}
  }

  lemma TookConserves<T(!new)>(r: Match, cfg: PeerCfg, f: Option<Peer> -> multiset<T>)
    requires Weightless(f)
    ensures Gather(SlotsOf(Took(r, cfg).peers), f) + Gather(Took(r, cfg).left, f)
      == Gather(SlotsOf(r.peers), f) + Gather(r.left, f)
  {
    hide SlotsOf, Gather;
    var i := Pick(r.left, cfg);
    if i == |r.left| {
      SnocGather(r.peers, Peer(cfg, None), f);
    } else {
      SnocGather(r.peers, r.left[i].value, f);
      GatherUpdate(r.left, i, None, f);
      assert Some(r.left[i].value) == r.left[i];
      Exchange(Gather(r.left[i := None], f), f(r.left[i]), Gather(r.left, f), f(None), Gather(SlotsOf(r.peers), f));
    }
  }

  lemma {:induction false} MatchedConserves<T(!new)>(cfgs: seq<PeerCfg>, slots: Slots, f: Option<Peer> -> multiset<T>)
    requires Weightless(f)
    ensures Gather(SlotsOf(Matched(cfgs, slots).peers), f) + Gather(Matched(cfgs, slots).left, f) == Gather(slots, f)
  {
    hide Took;
    if cfgs != [] {
      hide Gather, SlotsOf;
      MatchedConserves(cfgs[..|cfgs| - 1], slots, f);
      TookConserves(Matched(cfgs[..|cfgs| - 1], slots), cfgs[|cfgs| - 1], f);
    }
  }

  lemma SnocGather<T>(peers: seq<Peer>, peer: Peer, f: Option<Peer> -> multiset<T>)
    ensures Gather(SlotsOf(peers + [peer]), f) == Gather(SlotsOf(peers), f) + f(Some(peer))
  {
    assert SlotsOf(peers + [peer]) == SlotsOf(peers) + [Some(peer)];
    GatherAppend(SlotsOf(peers), [Some(peer)], f);
  }

  /** Every running peer is carried over unchanged, once, or left over, once. */
  lemma SessionsConserved(cfgs: seq<PeerCfg>, slots: Slots)
    ensures Gather(SlotsOf(Matched(cfgs, slots).peers), LiveOf) + Gather(Matched(cfgs, slots).left, LiveOf)
      == Gather(slots, LiveOf)
  {
    MatchedConserves(cfgs, slots, LiveOf);
  }

  lemma TookLeaves(r: Match, cfg: PeerCfg)
    ensures Gather(Took(r, cfg).left, CfgOf) == Gather(r.left, CfgOf) - multiset{cfg}
  {
    hide Gather;
    PickExact(r.left, cfg);
    var i := Pick(r.left, cfg);
    if i < |r.left| {
      GatherUpdate(r.left, i, None, CfgOf);
      Exchange(Gather(r.left[i := None], CfgOf), multiset{cfg}, Gather(r.left, CfgOf), multiset{}, multiset{});
    }
  }

  /** For each configuration, what is left over is the surplus of the old peers over the new:
      the number carried over is the smaller of its two multiplicities. */
  lemma {:induction false} LeftoverExact(cfgs: seq<PeerCfg>, slots: Slots)
    ensures Gather(Matched(cfgs, slots).left, CfgOf) == Gather(slots, CfgOf) - multiset(cfgs)
    ensures Gather(slots, CfgOf) - Gather(Matched(cfgs, slots).left, CfgOf) == Gather(slots, CfgOf) * multiset(cfgs)
  {
    hide Took, Gather;
    if cfgs != [] {
      var init, cfg := cfgs[..|cfgs| - 1], cfgs[|cfgs| - 1];
      LeftoverExact(init, slots);
      TookLeaves(Matched(init, slots), cfg);
      assert cfgs == init + [cfg];
    }
  }

  lemma {:induction false} PickExact(slots: Slots, cfg: PeerCfg)
    ensures Pick(slots, cfg) < |slots| <==> cfg in Gather(slots, CfgOf)
  {
    if slots != [] {
      PickExact(slots[..|slots| - 1], cfg);
    }
  }

  // ---------- Who holds what ----------

  ghost function Closes(log: seq<S.Event>): nat {
    if log == [] then 0 else Closes(log[..|log| - 1]) + if log[|log| - 1].Close? then 1 else 0
  }

  lemma ClosesSnoc(log: seq<S.Event>, e: S.Event)
    ensures Closes(log + [e]) == Closes(log) + if e.Close? then 1 else 0
  {
    assert (log + [e])[..|log|] == log;
  }

  /** A session that was never closed is held exactly once; a session that is not held was
      closed exactly once. */
  ghost predicate Own(hs: multiset<nat>, sessions: seq<Sess>) {
    && (forall h: nat :: h in hs ==> h < |sessions|)
    && (forall h :: 0 <= h < |sessions| ==> hs[h] + Closes(sessions[h].log) == 1)
  }

  ghost predicate Paired(slots: Slots, sessions: seq<Sess>) {
    forall i :: 0 <= i < |slots| && slots[i].Some? && slots[i].value.bgp.Some? ==>
      slots[i].value.bgp.value < |sessions| && sessions[slots[i].value.bgp.value].p == ParamsOf(slots[i].value.cfg)
  }

  /** The same sessions as before, with more in their logs, and perhaps new ones. */
  ghost predicate Later(old_: seq<Sess>, sessions: seq<Sess>) {
    |old_| <= |sessions| && forall h :: 0 <= h < |old_| ==> sessions[h].p == old_[h].p
  }

  lemma LogClosed(hs: multiset<nat>, sessions: seq<Sess>, h: nat)
    requires Own(hs, sessions) && h in hs
    ensures Own(hs - multiset{h}, Logged(sessions, h, S.Close))
    ensures h !in hs - multiset{h}
  {
    ClosesSnoc(sessions[h].log, S.Close);
  }

  lemma LogOther(hs: multiset<nat>, sessions: seq<Sess>, h: nat, e: S.Event)
    requires Own(hs, sessions) && h < |sessions| && !e.Close?
    ensures Own(hs, Logged(sessions, h, e))
  {
    ClosesSnoc(sessions[h].log, e);
  }

  ghost predicate HoldsAt(slots: Slots, i: int, h: nat) {
    0 <= i < |slots| && slots[i].Some? && slots[i].value.bgp == Some(h)
  }

  lemma {:induction false} HasHandle(slots: Slots, h: nat)
    ensures h in Gather(slots, HandleOf) <==> exists i :: HoldsAt(slots, i, h)
  {
    if slots != [] {
      var n := |slots| - 1;
      HasHandle(slots[..n], h);
      assert h in HandleOf(slots[n]) <==> HoldsAt(slots, n, h);
      HoldsInit(slots, slots[..n], h);
    }
  }

  lemma HoldsInit(slots: Slots, init: Slots, h: nat)
    requires slots != [] && init == slots[..|slots| - 1]
    ensures (exists i :: HoldsAt(slots, i, h)) <==> HoldsAt(slots, |slots| - 1, h) || exists i :: HoldsAt(init, i, h)
  {
    if i :| HoldsAt(slots, i, h) && i < |slots| - 1 {
      assert HoldsAt(init, i, h);
    }
    if i :| HoldsAt(init, i, h) {
      assert HoldsAt(slots, i, h);
    }
  }

  // ---------- SetConfig ----------

  /** Closing the leftovers: each of their sessions gets one Close, no other is touched. */
  lemma {:induction false} DroppedKeeps(hs: multiset<nat>, slots: Slots, sessions: seq<Sess>)
    requires NumberedSlots(slots, sessions) && Own(hs + Gather(slots, HandleOf), sessions)
    ensures Own(hs, Dropped(slots, sessions))
    ensures forall h :: 0 <= h < |sessions| ==>
      Dropped(slots, sessions)[h]
        == if h in Gather(slots, HandleOf) then Logged(sessions, h, S.Close)[h] else sessions[h]
    decreases |slots|
  {
    hide Own;
    if slots == [] {
      assert hs + Gather(slots, HandleOf) == hs;
    } else {
      var init, slot := slots[..|slots| - 1], slots[|slots| - 1];
      var one := HandleOf(slot);
      assert (hs + one) + Gather(init, HandleOf) == hs + Gather(slots, HandleOf);
      DroppedKeeps(hs + one, init, sessions);
      var before := Dropped(init, sessions);
      if slot.Some? && slot.value.bgp.Some? {
        var h := slot.value.bgp.value;
        OwnOnce(hs + one + Gather(init, HandleOf), sessions, h, hs + Gather(init, HandleOf));
        LogClosed(hs + one, before, h);
        assert hs + one - multiset{h} == hs;
      } else {
        assert hs + one == hs;
      }
    }
  }

  lemma OwnOnce(hs: multiset<nat>, sessions: seq<Sess>, h: nat, rest: multiset<nat>)
    requires Own(hs, sessions) && hs == rest + multiset{h}
    ensures h !in rest
  {
    assert h in hs && hs[h] == rest[h] + 1;
  }

  ghost predicate Held(c: Ctl) {
    Own(Handles(c.peers), c.sessions) && Paired(SlotsOf(c.peers), c.sessions)
  }

  lemma HeldNumbered(c: Ctl)
    requires Held(c)
    ensures Numbered(c.peers, c.sessions)
  {
    hide Own, Handles;
    forall i | 0 <= i < |c.peers| && c.peers[i].bgp.Some?
      ensures c.peers[i].bgp.value < |c.sessions|
    {
      assert SlotsOf(c.peers)[i] == Some(c.peers[i]);
    }
  }

  lemma {:induction false} MatchedPaired(cfgs: seq<PeerCfg>, slots: Slots, sessions: seq<Sess>)
    requires Paired(slots, sessions)
    ensures Paired(Matched(cfgs, slots).left, sessions) && Paired(SlotsOf(Matched(cfgs, slots).peers), sessions)
  {
    if cfgs != [] {
      MatchedPaired(cfgs[..|cfgs| - 1], slots, sessions);
      TookPaired(Matched(cfgs[..|cfgs| - 1], slots), cfgs[|cfgs| - 1], sessions);
    }
  }

  lemma TookPaired(r: Match, cfg: PeerCfg, sessions: seq<Sess>)
    requires Paired(r.left, sessions) && Paired(SlotsOf(r.peers), sessions)
    ensures Paired(Took(r, cfg).left, sessions) && Paired(SlotsOf(Took(r, cfg).peers), sessions)
  {
    var i := Pick(r.left, cfg);
    var peer := if i == |r.left| then Peer(cfg, None) else r.left[i].value;
    assert SlotsOf(r.peers + [peer]) == SlotsOf(r.peers) + [Some(peer)];
  }

  /** `SetConfig` before it synchronises: the sessions of carried-over peers are untouched, the
      others are closed, once each. */
  lemma ConfiguredKeeps(c: Ctl, cfgs: seq<PeerCfg>)
    requires Held(c) && Numbered(c.peers, c.sessions)
    ensures Held(Configured(c, cfgs)) && |Configured(c, cfgs).sessions| == |c.sessions|
    ensures |Configured(c, cfgs).peers| == |cfgs|
      && forall i :: 0 <= i < |cfgs| ==> Configured(c, cfgs).peers[i].cfg == cfgs[i]
    ensures forall h :: 0 <= h < |c.sessions| ==>
      Configured(c, cfgs).sessions[h] ==
        if h in Handles(c.peers) && h !in Handles(Configured(c, cfgs).peers) then Logged(c.sessions, h, S.Close)[h]
            else c.sessions[h]
  {
    hide Own, Gather, Matched, Dropped;
    var slots := SlotsOf(c.peers);
    var r := Matched(cfgs, slots);
    MatchedConserves(cfgs, slots, HandleOf);
    MatchedPaired(cfgs, slots, c.sessions);
    PairedNumbered(r.left, c.sessions);
    DroppedKeeps(Handles(r.peers), r.left, c.sessions);
    forall h | h in Gather(r.left, HandleOf)
      ensures h !in Handles(r.peers) && h in Handles(c.peers)
    {
      OwnApart(Handles(r.peers), Gather(r.left, HandleOf), c.sessions, h);
    }
    PairedLater(SlotsOf(r.peers), c.sessions, Dropped(r.left, c.sessions));
  }

  lemma PairedNumbered(slots: Slots, sessions: seq<Sess>)
    requires Paired(slots, sessions)
    ensures NumberedSlots(slots, sessions)
  {
  }

  lemma PairedLater(slots: Slots, sessions: seq<Sess>, sessions': seq<Sess>)
    requires Paired(slots, sessions) && Later(sessions, sessions')
    ensures Paired(slots, sessions')
  {
  }

  lemma OwnApart(a: multiset<nat>, b: multiset<nat>, sessions: seq<Sess>, h: nat)
    requires Own(a + b, sessions) && h in b
    ensures h !in a && h in a + b
  {
    assert (a + b)[h] == a[h] + b[h];
  }

  /** `SetConfig` conserves sessions: whatever session a peer had is now held by one peer with
      the same configuration and has seen nothing, or is held by none and has seen one Close. */
  lemma SetConfigConserves(c: Ctl, cfgs: seq<PeerCfg>, peer: Peer, h: nat)
    requires Held(c) && Numbered(c.peers, c.sessions) && peer in c.peers && peer.bgp == Some(h)
    ensures h < |c.sessions| == |Configured(c, cfgs).sessions|
    ensures Gather(SlotsOf(Configured(c, cfgs).peers), LiveOf)[peer] <= 1 && Handles(Configured(c, cfgs).peers)[h] <= 1
    ensures peer in Configured(c, cfgs).peers <==> h in Handles(Configured(c, cfgs).peers)
    ensures Configured(c, cfgs).sessions[h].log ==
      if peer in Configured(c, cfgs).peers then c.sessions[h].log else c.sessions[h].log + [S.Close]
  {
    hide Gather, Matched, Dropped, Configured, SlotsOf;
    var c' := Configured(c, cfgs);
    ConfiguredKeeps(c, cfgs);
    var i :| 0 <= i < |c.peers| && c.peers[i] == peer;
    assert SlotsOf(c.peers)[i] == Some(peer);
    assert HoldsAt(SlotsOf(c.peers), i, h);
    HasHandle(SlotsOf(c.peers), h);
    OneHolder(c, cfgs, peer, h);
  }

  lemma OneHolder(c: Ctl, cfgs: seq<PeerCfg>, peer: Peer, h: nat)
    requires Held(c) && Numbered(c.peers, c.sessions) && peer in c.peers && peer.bgp == Some(h)
    ensures Gather(SlotsOf(Configured(c, cfgs).peers), LiveOf)[peer] <= 1 && Handles(Configured(c, cfgs).peers)[h] <= 1
    ensures peer in Configured(c, cfgs).peers <==> h in Handles(Configured(c, cfgs).peers)
  {
    hide Gather, Configured, Own, SlotsOf;
    var c' := Configured(c, cfgs);
    var before, after := Gather(SlotsOf(c.peers), LiveOf), Gather(SlotsOf(c'.peers), LiveOf);
    ConfiguredKeeps(c, cfgs);
    ConfiguredLive(c, cfgs);
    AtMostOnce(c, h);
    AtMostOnce(c', h);
    HasLive(c.peers, peer, h);
    HasLive(c'.peers, peer, h);
    LiveHandle(SlotsOf(c'.peers), peer, h);
    HasHandle(SlotsOf(c'.peers), h);
    if i :| HoldsAt(SlotsOf(c'.peers), i, h) {
      var q := c'.peers[i];
      HasLive(c'.peers, q, h);
      assert q in before;
      if q != peer {
        LiveHandles(SlotsOf(c.peers), peer, q, h);
      }
    }
  }

  lemma ConfiguredLive(c: Ctl, cfgs: seq<PeerCfg>)
    requires Held(c) && Numbered(c.peers, c.sessions)
    ensures Gather(SlotsOf(Configured(c, cfgs).peers), LiveOf) <= Gather(SlotsOf(c.peers), LiveOf)
  {
    hide Own, Gather, Matched, Dropped;
    var r := Matched(cfgs, SlotsOf(c.peers));
    MatchedPaired(cfgs, SlotsOf(c.peers), c.sessions);
    PairedNumbered(r.left, c.sessions);
    SessionsConserved(cfgs, SlotsOf(c.peers));
  }

  lemma AtMostOnce(c: Ctl, h: nat)
    requires Held(c)
    ensures Handles(c.peers)[h] <= 1
  {
    hide Handles;
    assert h in Handles(c.peers) ==> h < |c.sessions|;
  }

  lemma {:induction false} LiveHandle(slots: Slots, p: Peer, h: nat)
    requires p.bgp == Some(h)
    ensures Gather(slots, LiveOf)[p] <= Gather(slots, HandleOf)[h]
  {
    if slots != [] {
      LiveHandle(slots[..|slots| - 1], p, h);
    }
  }

  lemma {:induction false} LiveHandles(slots: Slots, p: Peer, q: Peer, h: nat)
    requires p.bgp == q.bgp == Some(h) && p != q
    ensures Gather(slots, LiveOf)[p] + Gather(slots, LiveOf)[q] <= Gather(slots, HandleOf)[h]
  {
    if slots != [] {
      LiveHandles(slots[..|slots| - 1], p, q, h);
    }
  }

  lemma {:induction false} HasLive(peers: seq<Peer>, p: Peer, h: nat)
    requires p.bgp == Some(h)
    ensures p in Gather(SlotsOf(peers), LiveOf) <==> p in peers
  {
    if peers == [] {
    } else {
      var init, last := peers[..|peers| - 1], peers[|peers| - 1];
      assert peers == init + [last];
      HasLive(init, p, h);
      SnocGather(init, last, LiveOf);
    }
  }
}
