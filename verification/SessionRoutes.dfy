/** What a resting session's peer has been told, from the events of the session alone: the
    list of the last accepted Set, the configuration, and the way its connection came up. */
module SessionRoutes {
  import opened Net
  import opened Bytes
  import opened Routes
  import opened SessionSpec
  import opened SessionProofs
  import opened SessionWire

  // ---------- The connection ----------

  /** The connection in place has been there since the attempt at step k. */
  ghost predicate UpSince(p: Params, events: seq<Event>, k: int) {
    && 0 <= k < |events| && events[k].Connect? && events[k].dial.Answered?
    && Run(p, events[..k]).conn.None? && Run(p, events).conn.Some?
    && forall j :: k < j <= |events| ==> Run(p, events[..j]).conn == Run(p, events).conn
  }

  /** What the attempt has settled: the peer's AS number was right, nothing failed, the hold time
      is the smaller of the two offers, and the session's own address is that of the attempt. */
  ghost predicate SettledBy(p: Params, s: State, dial: Dial) {
    && dial.Answered? && dial.op.asn == p.peerAsn && dial.deadlineOk && dial.keepaliveOk
    && s.address == dial.address
    && s.holdTime <= dial.op.holdTime && s.holdTime <= p.holdTime
    && (s.holdTime == dial.op.holdTime || s.holdTime == p.holdTime)
  }

  lemma ConnectsOnce(p: Params, s: State, dial: Dial)
    requires Plumbing(s) && s.pc == Connecting && !s.closed
    ensures var s' := Connected(p, s, dial); s'.conn.Some? ==> s.conn.None? && SettledBy(p, s', dial)
  {
    NoConnection(s);
    if !dial.DialFailed? {
      NextFree(s);
      ConnectedIs(p, s, dial);
    }
  }

  lemma Undisturbed(p: Params, s: State, e: Event)
    requires Plumbing(s) && !e.Connect?
    ensures var s' := Step(p, s, e);
      s'.conn.Some? ==> s'.conn == s.conn && s'.address == s.address && s'.holdTime == s.holdTime
  {
    hide Merge, WellFormedAdv, Announcements, Withdrawals, Visit;
  }

  /** A connection is there because it was, or because it has just been made. */
  lemma StepConn(p: Params, s: State, e: Event)
    requires Plumbing(s)
    ensures var s' := Step(p, s, e);
      s'.conn.Some? ==>
        || (s.conn == s'.conn && s'.address == s.address && s'.holdTime == s.holdTime)
        || (s.conn.None? && e.Connect? && SettledBy(p, s', e.dial))
  {
    hide Connected, SettledBy, Plumbing;
    if !e.Connect? {
      Undisturbed(p, s, e);
    } else if s.pc == Connecting && !s.closed {
      ConnectsOnce(p, s, e.dial);
    }
  }

  /** Every connection in place was made by one attempt, which settled its terms. */
  lemma {:induction false} MadeByAttempt(p: Params, events: seq<Event>) returns (k: nat)
    requires Run(p, events).conn.Some?
    ensures UpSince(p, events, k) && SettledBy(p, Run(p, events), events[k].dial)
  {
    hide Step, SettledBy;
    var n := |events| - 1;
    var init, e := events[..n], events[n];
    OneConnection(p, init);
    StepConn(p, Run(p, init), e);
    assert events[..n + 1] == events;
    if Run(p, init).conn == Run(p, events).conn {
      k := MadeByAttempt(p, init);
      assert init[..k] == events[..k] && init[k] == events[k];
      assert SettledBy(p, Run(p, events), events[k].dial) by {
        SettledAlike(p, Run(p, init), Run(p, events), init[k].dial);
      }
      forall j | k < j <= |events|
        ensures Run(p, events[..j]).conn == Run(p, events).conn
      {
        if j <= n {
          assert init[..j] == events[..j];
        }
      }
    } else {
      k := n;
      assert e.dial.Answered? by { SettledAnswer(p, Run(p, events), e.dial); }
    }
  }

  lemma SettledAnswer(p: Params, s: State, dial: Dial)
    requires SettledBy(p, s, dial)
    ensures dial.Answered?
  {
  }

  lemma SettledAlike(p: Params, s: State, s': State, dial: Dial)
    requires SettledBy(p, s, dial) && s'.address == s.address && s'.holdTime == s.holdTime
    ensures SettledBy(p, s', dial)
  {
  }

  // ---------- The list ----------

  ghost predicate Accepted(advs: seq<Adv>) {
    forall i :: 0 <= i < |advs| ==> Sendable(advs[i]) && WellFormedAdv(advs[i])
  }

  ghost predicate NoneAccepted(events: seq<Event>) {
    forall i :: 0 <= i < |events| && events[i].SetAdvs? ==> !Accepted(events[i].advs)
  }

  /** The list of the last Set that was accepted; none is like an empty one. */
  ghost predicate LastSet(events: seq<Event>, advs: seq<Adv>) {
    || (advs == [] && NoneAccepted(events))
    || exists i :: 0 <= i < |events| && events[i] == SetAdvs(advs) && Accepted(advs) && NoneAccepted(events[i + 1..])
  }

  /** No later entry of the list has the same prefix. */
  ghost predicate Governs(advs: seq<Adv>, i: int) {
    0 <= i < |advs| && forall j :: i < j < |advs| ==> advs[j].prefix != advs[i].prefix
  }

  lemma {:induction false} MergeAccepts(advs: seq<Adv>)
    ensures AllWellFormed(advs) && Merge(advs).Some? <==> Accepted(advs)
  {
    hide Sendable, WellFormedAdv;
    if advs != [] {
      MergeAccepts(advs[..|advs| - 1]);
    }
  }

  lemma {:induction false} MergeGoverned(advs: seq<Adv>, i: int)
    requires AllWellFormed(advs) && Merge(advs).Some? && Governs(advs, i)
    ensures advs[i].prefix in Merge(advs).value && Merge(advs).value[advs[i].prefix] == advs[i]
  {
    hide Sendable, WellFormedAdv;
    var init := advs[..|advs| - 1];
    if i < |init| {
      assert init[i] == advs[i];
      MergeGoverned(init, i);
    }
  }

  lemma {:induction false} MergeListed(advs: seq<Adv>, k: Cidr)
    requires AllWellFormed(advs) && Merge(advs).Some? && k in Merge(advs).value
    ensures exists i :: 0 <= i < |advs| && advs[i].prefix == k
  {
    hide Sendable, WellFormedAdv;
    var n := |advs| - 1;
    if advs[n].prefix != k {
      MergeListed(advs[..n], k);
      var i :| 0 <= i < n && advs[..n][i].prefix == k;
      assert advs[i].prefix == k;
    }
  }

  /** The routes to bring about are those of the last accepted list. */
  lemma {:induction false} DesiredIs(p: Params, events: seq<Event>) returns (advs: seq<Adv>)
    ensures LastSet(events, advs) && Accepted(advs)
    ensures AllWellFormed(advs) && Merge(advs) == Some(Run(p, events).desired)
  {
    hide Step, Merge, Sendable, WellFormedAdv;
    if events == [] {
      advs := [];
      assert Merge([]) == Some(map[]) by { MergeNone(); }
    } else {
      var n := |events| - 1;
      var init, e := events[..n], events[n];
      StepEffect(p, Run(p, init), e);
      if e.SetAdvs? {
        MergeAccepts(e.advs);
      }
      if e.SetAdvs? && Accepted(e.advs) {
        advs := e.advs;
        assert events[n + 1..] == [];
      } else {
        advs := DesiredIs(p, init);
        LastSetStays(init, e, advs);
        assert events == init + [e];
      }
    }
  }

  lemma MergeNone()
    ensures Merge([]) == Some(map[])
  {
  }

  lemma LastSetStays(init: seq<Event>, e: Event, advs: seq<Adv>)
    requires LastSet(init, advs) && !(e.SetAdvs? && Accepted(e.advs))
    ensures LastSet(init + [e], advs)
  {
    hide Accepted;
    var events := init + [e];
    if !(advs == [] && NoneAccepted(init)) {
      var i :| 0 <= i < |init| && init[i] == SetAdvs(advs) && Accepted(advs) && NoneAccepted(init[i + 1..]);
      assert events[i] == init[i] && events[i + 1..] == init[i + 1..] + [e];
      assert NoneAccepted(events[i + 1..]);
    }
  }

  // ---------- The routes ----------

  /** The route says what the advertisement says: it comes from this session's AS alone, its
      next hop is the one given or else the session's own address on this connection. */
  predicate SaysOf(p: Params, address: U32, a: Adv, r: Route) {
    && r.origin == 2
    && r.asPath == (if p.asn == p.peerAsn then [] else [p.asn])
    && r.nextHop as int == (if a.nextHop.Some? then a.nextHop.value.n else address)
    && r.localPref == (if p.asn == p.peerAsn then Some(a.localPref) else None)
    && r.communities == a.communities
  }

  /** The table has a route for exactly the prefixes of the list, and each says what the
      governing entry says. */
  ghost predicate Tells(p: Params, address: U32, advs: seq<Adv>, t: Table) {
    && (forall i :: Governs(advs, i) ==>
          Canon(advs[i].prefix) in t && SaysOf(p, address, advs[i], t[Canon(advs[i].prefix)]))
    && (forall q :: q in t ==> exists i :: 0 <= i < |advs| && Canon(advs[i].prefix) == q)
  }

  lemma RouteSays(p: Params, s: State, a: GoodAdv)
    ensures SaysOf(p, s.address, a, RouteOf(SpeakerOf(p, s), a))
  {
  }

  lemma ShowsTells(p: Params, s: State, advs: seq<Adv>, t: Table)
    requires AllWellFormed(advs) && Merge(advs).Some? && Shows(t, SpeakerOf(p, s), Merge(advs).value)
    ensures Tells(p, s.address, advs, t)
  {
    hide Merge, Sendable, WellFormedAdv, Canon, RouteOf, SaysOf;
    var m := Merge(advs).value;
    forall i | Governs(advs, i)
      ensures Canon(advs[i].prefix) in t && SaysOf(p, s.address, advs[i], t[Canon(advs[i].prefix)])
    {
      MergeGoverned(advs, i);
      RouteSays(p, s, m[advs[i].prefix]);
    }
    forall q | q in t
      ensures exists i :: 0 <= i < |advs| && Canon(advs[i].prefix) == q
    {
      var k :| k in m && Canon(k) == q;
      MergeListed(advs, k);
      var i :| 0 <= i < |advs| && advs[i].prefix == k;
      assert Canon(advs[i].prefix) == q;
    }
  }

  /** Whenever the session rests, the peer's table says exactly what the last accepted list
      says, in the name of the address of the attempt that made this connection. */
  lemma RestingTells(p: Params, u: iset<Cidr>, events: seq<Event>)
    requires Injective(u) && forall e :: e in events ==> Over(u, e)
    requires Resting(Run(p, events))
    ensures Usable(Run(p, events))
    ensures exists k, advs ::
      && UpSince(p, events, k) && SettledBy(p, Run(p, events), events[k].dial)
      && LastSet(events, advs) && Tells(p, events[k].dial.address, advs, PeerTable(Run(p, events)))
  {
    hide Injective, Over, Shows, Tells, LastSet, PeerTable, Accepted, Merge, Run;
    PeerInSync(p, u, events);
    var k := MadeByAttempt(p, events);
    var advs := DesiredIs(p, events);
    ShowsTells(p, Run(p, events), advs, PeerTable(Run(p, events)));
  }

  /** What a peer that knows only the octets has, if it could read them. */
  function FromOctets(wide: bool, p: Params, routerId: U32, s: State): Option<Table>
    requires s.conn.Some? && s.conn.value in s.wire
  {
    ReceiveAll(wide, map[], Stream(p, routerId, s.wire[s.conn.value]))
  }

  lemma StrangeTells(p: Params, address: U32, advs: seq<Adv>, t: Table)
    requires Strange(p.asn, t) && p.asn != p.peerAsn && advs != []
    ensures !Tells(p, address, advs, t)
  {
    hide Canon;
    var n := |advs| - 1;
    assert Governs(advs, n);
  }

  /** The same from the octets of the connection, if and only if the peer reads four-octet AS
      numbers or belongs to the same AS. */
  lemma OctetsTell(wide: bool, p: Params, routerId: U32, u: iset<Cidr>, events: seq<Event>)
    requires Injective(u) && forall e :: e in events ==> Over(u, e) && Small(e)
    requires Resting(Run(p, events))
    ensures Usable(Run(p, events))
    ensures exists k, advs ::
      && UpSince(p, events, k) && LastSet(events, advs)
      && var r := FromOctets(wide, p, routerId, Run(p, events));
         var told := r.Some? && Tells(p, events[k].dial.address, advs, r.value);
         (wide || p.asn == p.peerAsn ==> told) && (advs != [] ==> (told <==> wide || p.asn == p.peerAsn))
  {
    hide Injective, Over, Small, Shows, Run, Tells, LastSet, Stream, Merge, Accepted, Sendable, WellFormedAdv;
    var s := Run(p, events);
    OctetsInSync(wide, p, routerId, u, events);
    var k := MadeByAttempt(p, events);
    var advs := DesiredIs(p, events);
    var r := FromOctets(wide, p, routerId, s);
    if wide || p.asn == p.peerAsn {
      ShowsTells(p, s, advs, r.value);
    } else {
      SmallRun(p, events);
      var log := s.wire[s.conn.value];
      assert Stream(p, routerId, log) + [] == Stream(p, routerId, log);
      var r' := NarrowStream(p, routerId, map[], log, []);
      if r.Some? && advs != [] {
        StrangeTells(p, events[k].dial.address, advs, r.value);
      }
    }
  }

  // ---------- Keepalives ----------

  /** A tick on a live connection adds one KEEPALIVE, of 19 octets, to what the peer gets, and
      nothing else anywhere. */
  lemma TickSends(p: Params, routerId: U32, events: seq<Event>)
    requires Run(p, events).conn.Some?
    ensures var s, s' := Run(p, events), Run(p, events + [KeepaliveTick(true)]);
      && Usable(s) && Usable(s') && s' == s.(wire := s'.wire)
      && Stream(p, routerId, s'.wire[s.conn.value])
         == Stream(p, routerId, s.wire[s.conn.value]) + (MARKER + [0, 19, 4])
      && s'.wire - {s.conn.value} == s.wire - {s.conn.value}
  {
    hide Run, Encode;
    var s := Run(p, events);
    OneConnection(p, events);
    var es := events + [KeepaliveTick(true)];
    assert es[..|events|] == events;
    RunLast(p, es);
    var log := s.wire[s.conn.value] + [Keepalive];
    assert log[..|log| - 1] == s.wire[s.conn.value];
    assert Encode(p, routerId, Keepalive) == MARKER + [0, 19, 4] by { KeepaliveIs(p, routerId); }
  }

  lemma RunLast(p: Params, events: seq<Event>)
    requires events != []
    ensures Run(p, events) == Step(p, Run(p, events[..|events| - 1]), events[|events| - 1])
  {
  }

  lemma KeepaliveIs(p: Params, routerId: U32)
    ensures Encode(p, routerId, Keepalive) == MARKER + [0, 19, 4]
  {
  }
}
