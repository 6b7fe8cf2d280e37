/** What every interleaving of a session keeps, and what its peer holds when it rests. */
module SessionProofs {
  import opened Net
  import opened Bytes
  import opened Routes
  import opened UpdateCodec
  import opened SessionSpec

  // ---------- Replaying a log ----------

  lemma {:induction false} ReplayAppend(t: Table, a: seq<Msg>, b: seq<Msg>)
    ensures Replay(t, a + b) == Replay(Replay(t, a), b)
  {
    hide Apply;
    if b == [] {
      assert a + b == a;
    } else {
      var init, m := b[..|b| - 1], b[|b| - 1];
      assert (a + b)[..|a + b| - 1] == a + init;
      ReplayAppend(t, a, init);
    }
  }

  /** No two keys are the same prefix for a peer. */
  ghost predicate Injective(u: iset<Cidr>) {
    forall k, l :: k in u && l in u && Canon(k) == Canon(l) ==> k == l
  }

  /** Every advertisement is filed under its own prefix, and the prefixes come from u. */
  ghost predicate Keyed(u: iset<Cidr>, advs: Advs) {
    forall k :: k in advs ==> k in u && advs[k].prefix == k
  }

  /** Announcing the keys ks leads from t to t'. */
  ghost predicate Updated(t: Table, t': Table, sp: Speaker, advs: Advs, ks: set<Cidr>) {
    && (forall k :: k in ks ==> k in advs && Canon(k) in t' && t'[Canon(k)] == RouteOf(sp, advs[k]))
    && (forall q :: (forall k :: k in ks ==> Canon(k) != q) ==> (q in t' <==> q in t) && (q in t ==> t'[q] == t[q]))
  }

  /** The keys visited so far whose advertisement is news. */
  ghost function News(known: Advs, advs: Advs, order: seq<Cidr>): set<Cidr>
    requires forall i :: 0 <= i < |order| ==> order[i] in advs
  {
    set i | 0 <= i < |order| && !(order[i] in known && Equal(advs[order[i]], known[order[i]])) :: order[i]
  }

  lemma UpdatedMore(t: Table, t': Table, sp: Speaker, advs: Advs, ks: set<Cidr>, k: Cidr, u: iset<Cidr>)
    requires Injective(u) && Keyed(u, advs) && k in advs && Updated(t, t', sp, advs, ks)
    ensures Updated(t, t'[Canon(k) := RouteOf(sp, advs[k])], sp, advs, ks + {k})
  {
    hide Canon, RouteOf;
    var t'' := t'[Canon(k) := RouteOf(sp, advs[k])];
    forall q | forall l :: l in ks + {k} ==> Canon(l) != q
      ensures (q in t'' <==> q in t) && (q in t ==> t''[q] == t[q])
    {
      assert k in ks + {k};
      assert forall l :: l in ks ==> l in ks + {k};
    }
  }

  lemma {:induction false} AnnouncementsUpdate(u: iset<Cidr>, t: Table, sp: Speaker, known: Advs, advs: Advs,
                                               order: seq<Cidr>)
    requires Injective(u) && Keyed(u, advs) && forall i :: 0 <= i < |order| ==> order[i] in advs
    ensures Updated(t, Replay(t, Announcements(sp, known, advs, order)), sp, advs, News(known, advs, order))
  {
    hide Injective, RouteOf, Canon, Updated, Equal;
    if order == [] {
      assert Replay(t, []) == t;
      NothingUpdated(t, sp, advs);
      assert News(known, advs, order) == {};
    } else {
      var init, k := order[..|order| - 1], order[|order| - 1];
      AnnouncementsUpdate(u, t, sp, known, advs, init);
      var before := Announcements(sp, known, advs, init);
      var t' := Replay(t, before);
      if k in known && Equal(advs[k], known[k]) {
        assert News(known, advs, order) == News(known, advs, init);
      } else {
        var log := before + [Announce(sp, advs[k])];
        assert log[..|log| - 1] == before;
        assert Replay(t, log) == Apply(t', Announce(sp, advs[k]));
        UpdatedMore(t, t', sp, advs, News(known, advs, init), k, u);
        NewsGrow(known, advs, order);
      }
    }
  }

  lemma NewsGrow(known: Advs, advs: Advs, order: seq<Cidr>)
    requires order != [] && forall i :: 0 <= i < |order| ==> order[i] in advs
    requires var k := order[|order| - 1]; !(k in known && Equal(advs[k], known[k]))
    ensures News(known, advs, order) == News(known, advs, order[..|order| - 1]) + {order[|order| - 1]}
  {
    var init, k := order[..|order| - 1], order[|order| - 1];
    forall x | x in News(known, advs, order)
      ensures x in News(known, advs, init) + {k}
    {
      var i :| 0 <= i < |order| && !(order[i] in known && Equal(advs[order[i]], known[order[i]])) && order[i] == x;
      if i < |init| {
        assert init[i] == x;
      }
    }
    forall x | x in News(known, advs, init)
      ensures x in News(known, advs, order)
    {
      var i :| 0 <= i < |init| && !(init[i] in known && Equal(advs[init[i]], known[init[i]])) && init[i] == x;
      assert order[i] == x;
    }
    assert order[|order| - 1] in News(known, advs, order);
  }

  lemma NothingUpdated(t: Table, sp: Speaker, advs: Advs)
    ensures Updated(t, t, sp, advs, {})
  {
  }

  /** A full visit announces exactly the entries that are news. */
  lemma NewsVisited(known: Advs, advs: Advs, order: seq<Cidr>)
    requires Visit(order, advs.Keys)
    ensures News(known, advs, order) == set k | k in advs && !(k in known && Equal(advs[k], known[k]))
  {
    forall k | k in advs && !(k in known && Equal(advs[k], known[k]))
      ensures k in News(known, advs, order)
    {
      var i :| 0 <= i < |order| && order[i] == k;
    }
  }

  /** Sending everything to a peer without routes leaves it with exactly advs. */
  lemma FullSend(u: iset<Cidr>, sp: Speaker, advs: Advs, order: seq<Cidr>)
    requires Injective(u) && Keyed(u, advs) && Visit(order, advs.Keys)
    ensures Shows(Replay(map[], Announcements(sp, map[], advs, order)), sp, advs)
  {
    hide Injective, Keyed, Visit, Updated, Shows, Replay, Announcements, News;
    InOrder(order, advs.Keys);
    AnnouncementsUpdate(u, map[], sp, map[], advs, order);
    assert News(map[], advs, order) == advs.Keys by { NewsVisited(map[], advs, order); }
    AllUpdated(Replay(map[], Announcements(sp, map[], advs, order)), sp, advs);
  }

  lemma AllUpdated(t: Table, sp: Speaker, advs: Advs)
    requires Updated(map[], t, sp, advs, advs.Keys)
    ensures Shows(t, sp, advs)
  {
    hide RouteOf, Canon;
    forall q | q in t
      ensures exists k :: k in advs && Canon(k) == q
    {
      assert !(forall k :: k in advs.Keys ==> Canon(k) != q);
    }
  }

  lemma InOrder(order: seq<Cidr>, keys: set<Cidr>)
    requires Visit(order, keys)
    ensures forall i :: 0 <= i < |order| ==> order[i] in keys
  {
  }

  /** `Equal` advertisements are the same route to the peer. */
  lemma EqualIsSameRoute(sp: Speaker, a: GoodAdv, b: GoodAdv)
    ensures Equal(a, b) ==> RouteOf(sp, a) == RouteOf(sp, b)
  {
  }

  /** Sending the difference, entries already known skipped, turns known into advs. */
  lemma DiffSend(u: iset<Cidr>, t: Table, sp: Speaker, known: Advs, advs: Advs, order: seq<Cidr>, gone: seq<Cidr>)
    requires Injective(u) && Keyed(u, known) && Keyed(u, advs) && Shows(t, sp, known)
    requires Visit(order, advs.Keys) && Visit(gone, known.Keys - advs.Keys)
    requires forall i :: 0 <= i < |gone| ==> V4Prefix(gone[i])
    ensures Shows(Replay(t, Announcements(sp, known, advs, order) + Withdrawals(gone)), sp, advs)
  {
    hide Injective, Keyed, RouteOf, Canon, Replay, Announcements, Shows, News, Updated, Withdrawals, Visit;
    InOrder(order, advs.Keys);
    InOrder(gone, known.Keys - advs.Keys);
    var ann := Announcements(sp, known, advs, order);
    var news := News(known, advs, order);
    ReplayAppend(t, ann, Withdrawals(gone));
    AnnouncementsUpdate(u, t, sp, known, advs, order);
    NewsVisited(known, advs, order);
    var t1 := Replay(t, ann);
    WithdrawalsReplay(t1, gone);
    DiffShows(u, t, t1, sp, known, advs, news, gone);
  }

  lemma WithdrawalsReplay(t: Table, gone: seq<Cidr>)
    requires forall i :: 0 <= i < |gone| ==> V4Prefix(gone[i])
    ensures Replay(t, Withdrawals(gone)) == t - Cut(gone)
  {
    hide Canon, V4Prefix;
    if gone == [] {
      assert Cut(gone) == {};
      assert t - {} == t;
    } else {
      var log := Withdrawals(gone);
      assert log[..0] == [];
    }
  }

  lemma DiffShows(u: iset<Cidr>, t: Table, t1: Table, sp: Speaker, known: Advs, advs: Advs, news: set<Cidr>,
                  gone: seq<Cidr>)
    requires Injective(u) && Keyed(u, known) && Keyed(u, advs) && Shows(t, sp, known)
    requires news == set k | k in advs && !(k in known && Equal(advs[k], known[k]))
    requires Updated(t, t1, sp, advs, news) && Visit(gone, known.Keys - advs.Keys)
    ensures Shows(t1 - Cut(gone), sp, advs)
  {
    hide Canon, RouteOf;
    var cut := Cut(gone);
    var t2 := t1 - cut;
    forall k | k in advs
      ensures Canon(k) in t2 && t2[Canon(k)] == RouteOf(sp, advs[k])
    {
      KeptRoute(u, t, t1, sp, known, advs, news, k);
      NotCut(u, known, advs, gone, k);
    }
    forall q | q in t2
      ensures exists k :: k in advs && Canon(k) == q
    {
      if forall k :: k in news ==> Canon(k) != q {
        assert q in t;
        var k :| k in known && Canon(k) == q;
        CutIfGone(known, advs, gone, k);
      }
    }
  }

  lemma NotCut(u: iset<Cidr>, known: Advs, advs: Advs, gone: seq<Cidr>, k: Cidr)
    requires Injective(u) && Keyed(u, known) && Keyed(u, advs) && k in advs
    requires Visit(gone, known.Keys - advs.Keys)
    ensures Canon(k) !in Cut(gone)
  {
    forall i | 0 <= i < |gone|
      ensures Canon(gone[i]) != Canon(k)
    {
      assert gone[i] in u && k in u && gone[i] != k;
    }
  }

  lemma CutIfGone(known: Advs, advs: Advs, gone: seq<Cidr>, k: Cidr)
    requires k in known && Visit(gone, known.Keys - advs.Keys)
    ensures k in advs || Canon(k) in Cut(gone)
  {
    if k !in advs {
      assert k in known.Keys - advs.Keys;
    }
  }

  /** After the announcements every wanted route is in the table. */
  lemma KeptRoute(u: iset<Cidr>, t: Table, t1: Table, sp: Speaker, known: Advs, advs: Advs, news: set<Cidr>, k: Cidr)
    requires Injective(u) && Keyed(u, known) && Keyed(u, advs) && Shows(t, sp, known) && k in advs
    requires news == set k | k in advs && !(k in known && Equal(advs[k], known[k]))
    requires Updated(t, t1, sp, advs, news)
    ensures Canon(k) in t1 && t1[Canon(k)] == RouteOf(sp, advs[k])
  {
    hide Canon, RouteOf;
    if k !in news {
      EqualIsSameRoute(sp, advs[k], known[k]);
      forall l | l in news
        ensures Canon(l) != Canon(k)
      {
        assert l in u && k in u;
      }
    }
  }

  // ---------- What every step keeps ----------

  /** At most one connection is open and it is the session's; the goroutine of `run` is where
      the connection says it is; a closed session has none. */
  ghost predicate Plumbing(s: State) {
    Numbered(s) && Single(s)
  }

  /** Connections are numbered in the order in which they were dialled. */
  ghost predicate Numbered(s: State) {
    && (forall c: nat :: c in s.wire <==> c < s.dialled)
    && (forall c :: c in s.consumers ==> c < s.dialled)
  }

  ghost predicate Single(s: State) {
    && s.open == (if s.conn.Some? then {s.conn.value} else {})
    && (s.conn.Some? ==> s.conn.value in s.consumers && !s.closed && (s.pc == Ready || s.pc == Waiting))
    && (s.pc == Done ==> s.closed)
  }

  ghost predicate KeyedState(u: iset<Cidr>, s: State) {
    Keyed(u, s.advertised) && (s.pending.Some? ==> Keyed(u, s.pending.value))
  }

  /** What the peer at the other end of the current connection holds. */
  function PeerTable(s: State): Table
    requires s.conn.Some? && s.conn.value in s.wire
  {
    Replay(map[], s.wire[s.conn.value])
  }

  ghost predicate InStep(p: Params, s: State) {
    Usable(s) ==>
      && (s.pc == Ready ==> PeerTable(s) == map[])
      && (s.pc == Waiting ==> Shows(PeerTable(s), SpeakerOf(p, s), s.advertised))
  }

  ghost predicate Inv(p: Params, u: iset<Cidr>, s: State) {
    Plumbing(s) && Want(s) == s.desired && KeyedState(u, s) && InStep(p, s)
  }

  ghost predicate Over(u: iset<Cidr>, e: Event) {
    e.SetAdvs? ==> forall i :: 0 <= i < |e.advs| ==> e.advs[i].prefix in u
  }

  lemma {:induction false} MergeKeyed(u: iset<Cidr>, advs: seq<Adv>)
    requires AllWellFormed(advs) && Merge(advs).Some? && forall i :: 0 <= i < |advs| ==> advs[i].prefix in u
    ensures Keyed(u, Merge(advs).value)
  {
    hide WellFormedAdv, Sendable;
    if advs != [] {
      MergeKeyed(u, advs[..|advs| - 1]);
    }
  }

  lemma AbortKeeps(p: Params, u: iset<Cidr>, s: State, s': State)
    requires Plumbing(s) && Want(s) == s.desired && KeyedState(u, s) && (s'.pc == Done ==> s'.closed)
    requires s' == Aborted(s).(pc := s'.pc, consumers := s'.consumers, closed := s'.closed, wire := s'.wire)
    requires s'.consumers <= s.consumers && s'.wire.Keys == s.wire.Keys
    ensures Inv(p, u, s')
  {
    hide Keyed;
  }

  lemma WroteKeeps(p: Params, u: iset<Cidr>, s: State, msgs: seq<Msg>, sent: nat)
    requires Plumbing(s) && Want(s) == s.desired && KeyedState(u, s) && Usable(s)
    requires Shows(Replay(PeerTable(s), msgs), SpeakerOf(p, s), Want(s))
    ensures Inv(p, u, Wrote(s, msgs, sent))
  {
    hide Keyed, Shows, Replay;
    if sent < |msgs| {
      AbortKeeps(p, u, s, Wrote(s, msgs, sent));
    } else {
      ReplayAppend(map[], s.wire[s.conn.value], msgs);
    }
  }

  lemma KeepaliveKeeps(p: Params, u: iset<Cidr>, s: State)
    requires Inv(p, u, s) && Usable(s)
    ensures Inv(p, u, Written(s, [Keepalive]))
  {
    hide Keyed, Shows;
    var log := s.wire[s.conn.value];
    assert (log + [Keepalive])[..|log|] == log;
  }

  lemma EnterKeeps(p: Params, u: iset<Cidr>, s: State, order: seq<Cidr>, sent: nat)
    requires Injective(u) && Inv(p, u, s) && s.pc == Ready
    ensures Inv(p, u, Entered(p, s, order, sent))
  {
    hide Keyed, Shows, Replay, Injective, Announcements, Visit;
    if !s.closed && s.conn.Some? && Visit(order, Want(s).Keys) {
      InOrder(order, Want(s).Keys);
      FullSend(u, SpeakerOf(p, s), Want(s), order);
      WroteKeeps(p, u, s, Announcements(SpeakerOf(p, s), map[], Want(s), order), sent);
    }
  }

  lemma WakeKeeps(p: Params, u: iset<Cidr>, s: State, order: seq<Cidr>, gone: seq<Cidr>, sent: nat)
    requires Injective(u) && Inv(p, u, s) && s.pc == Waiting
    ensures Inv(p, u, Woken(p, s, order, gone, sent))
  {
    hide Keyed, Shows, Replay, Injective, Announcements, Withdrawals, Visit, V4Prefix;
    if s.pending.Some? && !s.closed && s.conn.Some? && Visit(order, Want(s).Keys) &&
         Visit(gone, s.advertised.Keys - Want(s).Keys)
       && (forall i :: 0 <= i < |gone| ==> V4Prefix(gone[i])) {
      InOrder(order, Want(s).Keys);
      DiffSend(u, PeerTable(s), SpeakerOf(p, s), s.advertised, Want(s), order, gone);
      WroteKeeps(p, u, s, Announcements(SpeakerOf(p, s), s.advertised, Want(s), order) + Withdrawals(gone), sent);
    }
  }

  /** What an attempt amounts to: the messages written, the local address if it got that far,
      whether a consumer was started, and the hold time if the connection is installed. */
  datatype Attempt = Attempt(log: seq<Msg>, address: Option<U32>, consumer: bool, installed: Option<U16>)

  function Attempted(p: Params, dial: Dial): Attempt {
    match dial
    case DialFailed => Attempt([], None, false, None)
    case SetupFailed => Attempt([], None, false, None)
    case HandshakeFailed(address, openSent) => Attempt(if openSent then [Opened] else [], Some(address), false, None)
    case Answered(address, op, deadlineOk, keepaliveOk) =>
      if op.asn != p.peerAsn || !deadlineOk then Attempt([Opened], Some(address), false, None)
      else if !keepaliveOk then Attempt([Opened], Some(address), true, None)
      else Attempt([Opened, Keepalive], Some(address), true, Some(if op.holdTime < p.holdTime then op.holdTime else p.holdTime))
  }

  function After(s: State, a: Attempt): State {
    var c := s.dialled;
    s.(dialled := c + 1,
       wire := s.wire[c := a.log],
       address := if a.address.Some? then a.address.value else s.address,
       consumers := if a.consumer then s.consumers + {c} else s.consumers,
       open := if a.installed.Some? then s.open + {c} else s.open,
       conn := if a.installed.Some? then Some(c) else s.conn,
       holdTime := if a.installed.Some? then a.installed.value else s.holdTime,
       pc := if a.installed.Some? then Ready else s.pc)
  }

  lemma SaidOnce(s: State, c: nat, m: Msg)
    requires c in s.wire && s.wire[c] == []
    ensures Said(s, c, m) == s.(wire := s.wire[c := [m]])
  {
    assert [] + [m] == [m];
  }

  lemma NegotiatedIs(p: Params, s: State, c: nat, dial: Dial)
    requires c in s.wire && s.wire[c] == [Opened] && dial.Answered?
    ensures var a := Attempted(p, dial);
      Negotiated(p, s, c, dial) ==
        s.(wire := s.wire[c := a.log],
           consumers := if a.consumer then s.consumers + {c} else s.consumers,
           open := if a.installed.Some? then s.open else s.open - {c},
           conn := if a.installed.Some? then Some(c) else s.conn,
           holdTime := if a.installed.Some? then a.installed.value else s.holdTime,
           pc := if a.installed.Some? then Ready else s.pc)
  {
    assert s.wire[c := [Opened]] == s.wire;
    assert [Opened] + [Keepalive] == [Opened, Keepalive];
  }

  /** Whatever way an attempt goes, every connection that is not installed has been closed. */
  lemma ConnectedIs(p: Params, s: State, dial: Dial)
    requires !dial.DialFailed? && s.dialled !in s.open
    ensures Connected(p, s, dial) == After(s, Attempted(p, dial))
  {
    hide Negotiated;
    var c, d := s.dialled, Dialled(s);
    assert s.open + {c} - {c} == s.open;
    match dial
    case SetupFailed =>
    case HandshakeFailed(address, openSent) =>
      SaidOnce(d.(address := address), c, Opened);
      assert s.wire[c := []][c := [Opened]] == s.wire[c := [Opened]];
    case Answered(address, _, _, _) =>
      SaidOnce(d.(address := address), c, Opened);
      assert s.wire[c := []][c := [Opened]] == s.wire[c := [Opened]];
      NegotiatedIs(p, Said(d.(address := address), c, Opened), c, dial);
      var log := Attempted(p, dial).log;
      assert s.wire[c := [Opened]][c := log] == s.wire[c := log];
  }

  lemma NextFree(s: State)
    requires Plumbing(s)
    ensures s.dialled !in s.open
  {
  }

  lemma InstalledQuietly(p: Params, dial: Dial)
    ensures var a := Attempted(p, dial); a.installed.Some? ==> a.consumer && a.log == [Opened, Keepalive]
    ensures forall i :: 0 <= i < |Attempted(p, dial).log| ==> Attempted(p, dial).log[i] in {Opened, Keepalive}
  {
  }

  lemma FreshConnection(p: Params, u: iset<Cidr>, s: State, dial: Dial)
    requires Inv(p, u, s) && s.pc == Connecting && !s.closed
    ensures Inv(p, u, Connected(p, s, dial))
  {
    hide Keyed, Shows, Replay, Plumbing, Attempted, Handshaken;
    QuietLog();
    InstalledQuietly(p, dial);
    ConnectPlumbing(p, s, dial);
    NoConnection(s);
    if !dial.DialFailed? {
      NextFree(s);
      ConnectedIs(p, s, dial);
    }
  }

  lemma NoConnection(s: State)
    requires Plumbing(s) && s.pc == Connecting
    ensures s.conn.None?
  {
  }

  lemma QuietLog()
    ensures Replay(map[], [Opened, Keepalive]) == map[]
  {
    assert [Opened, Keepalive][..1] == [Opened] && [Opened][..0] == [];
    assert Replay(map[], []) == map[];
    assert Replay(map[], [Opened]) == map[];
  }

  lemma StepKeeps(p: Params, u: iset<Cidr>, s: State, e: Event)
    requires Injective(u) && Inv(p, u, s) && Over(u, e)
    ensures Inv(p, u, Step(p, s, e))
  {
    hide Keyed, Shows, Replay, Injective, Entered, Woken, Connected, WellFormedAdv;
    match e
    case SetAdvs(advs) =>
      if AllWellFormed(advs) && Merge(advs).Some? {
        MergeKeyed(u, advs);
      }
    case Connect(dial) =>
      if s.pc == Connecting && !s.closed {
        FreshConnection(p, u, s, dial);
      }
    case Enter(order, sent) =>
      if s.pc == Ready {
        EnterKeeps(p, u, s, order, sent);
      }
    case Wake(order, gone, sent) =>
      if s.pc == Waiting {
        WakeKeeps(p, u, s, order, gone, sent);
      }
    case ConsumerExits(c) =>
      if s.conn == Some(c) {
        AbortKeeps(p, u, s, Step(p, s, e));
      }
    case KeepaliveTick(ok) =>
      if !s.closed && Usable(s) {
        if ok {
          KeepaliveKeeps(p, u, s);
        } else {
          AbortKeeps(p, u, s, Step(p, s, e));
        }
      }
    case Close =>
      AbortKeeps(p, u, s, Step(p, s, e));
  }

  // ---------- What is asked for ----------

  lemma EnteredEffect(p: Params, s: State, order: seq<Cidr>, sent: nat)
    ensures Entered(p, s, order, sent).closed == s.closed && Entered(p, s, order, sent).desired == s.desired
  {
    hide Announcements, Visit;
  }

  lemma WokenEffect(p: Params, s: State, order: seq<Cidr>, gone: seq<Cidr>, sent: nat)
    ensures Woken(p, s, order, gone, sent).closed == s.closed && Woken(p, s, order, gone, sent).desired == s.desired
  {
    hide Announcements, Visit, Withdrawals;
  }

  lemma NegotiatedEffect(p: Params, s: State, c: nat, dial: Dial)
    requires c in s.wire && dial.Answered?
    ensures Negotiated(p, s, c, dial).closed == s.closed && Negotiated(p, s, c, dial).desired == s.desired
  {
  }

  lemma HandshakenEffect(p: Params, s: State, c: nat, dial: Dial)
    requires c in s.wire && !dial.DialFailed?
    ensures Handshaken(p, s, c, dial).closed == s.closed && Handshaken(p, s, c, dial).desired == s.desired
  {
    hide Negotiated;
    if dial.Answered? {
      NegotiatedEffect(p, Said(s.(address := dial.address), c, Opened), c, dial);
    }
  }

  lemma ConnectedEffect(p: Params, s: State, dial: Dial)
    ensures Connected(p, s, dial).closed == s.closed && Connected(p, s, dial).desired == s.desired
  {
    hide Handshaken;
    if !dial.DialFailed? {
      HandshakenEffect(p, Dialled(s), s.dialled, dial);
    }
  }

  /** Only Set changes what a session is to bring about, and only Close closes it. */
  lemma StepEffect(p: Params, s: State, e: Event)
    ensures Step(p, s, e).closed <==> s.closed || e.Close?
    ensures Step(p, s, e).desired ==
      if e.SetAdvs? && AllWellFormed(e.advs) && Merge(e.advs).Some? then Merge(e.advs).value else s.desired
  {
    hide Entered, Woken, Connected, Merge, AllWellFormed;
    match e
    case Connect(dial) => ConnectedEffect(p, s, dial);
    case Enter(order, sent) => EnteredEffect(p, s, order, sent);
    case Wake(order, gone, sent) => WokenEffect(p, s, order, gone, sent);
    case _ =>
  }

  /** Every interleaving of critical sections keeps the session's invariant. */
  lemma {:induction false} EveryInterleaving(p: Params, u: iset<Cidr>, events: seq<Event>)
    requires Injective(u) && forall e :: e in events ==> Over(u, e)
    ensures Inv(p, u, Run(p, events))
  {
    hide Injective, Inv, Over, Step;
    if events == [] {
      NewKeeps(p, u);
    } else {
      EveryInterleaving(p, u, events[..|events| - 1]);
      StepKeeps(p, u, Run(p, events[..|events| - 1]), events[|events| - 1]);
    }
  }

  lemma NewKeeps(p: Params, u: iset<Cidr>)
    ensures Inv(p, u, NEW)
  {
  }

  /** Resting: waiting on a live connection with nothing pending. */
  ghost predicate Resting(s: State) {
    s.pc == Waiting && s.conn.Some? && s.pending.None?
  }

  ghost predicate InSync(p: Params, s: State) {
    Resting(s) ==> Usable(s) && Shows(PeerTable(s), SpeakerOf(p, s), s.desired)
  }

  /** Whenever the session rests, the peer holds exactly the routes of the last accepted Set,
      whatever was skipped, aborted and reconnected on the way. */
  lemma PeerInSync(p: Params, u: iset<Cidr>, events: seq<Event>)
    requires Injective(u) && forall e :: e in events ==> Over(u, e)
    ensures InSync(p, Run(p, events))
  {
    hide Injective, Over, Shows, Keyed;
    EveryInterleaving(p, u, events);
  }

  // ---------- Connections ----------

  lemma StepPlumbing(p: Params, s: State, e: Event)
    requires Plumbing(s) && Want(s) == s.desired
    ensures Plumbing(Step(p, s, e)) && Want(Step(p, s, e)) == Step(p, s, e).desired
  {
    hide Entered, Woken, Connected, Merge, WellFormedAdv;
    match e
    case Wake(order, gone, sent) =>
      if s.pc == Waiting {
        WakePlumbing(p, s, order, gone, sent);
      }
    case Enter(order, sent) =>
      if s.pc == Ready {
        EnterPlumbing(p, s, order, sent);
      }
    case Connect(dial) =>
      if s.pc == Connecting && !s.closed {
        ConnectPlumbing(p, s, dial);
      }
    case _ =>
  }

  lemma ConnectPlumbing(p: Params, s: State, dial: Dial)
    requires Plumbing(s) && s.pc == Connecting && !s.closed
    ensures Plumbing(Connected(p, s, dial)) && Want(Connected(p, s, dial)) == Want(s)
      && Connected(p, s, dial).desired == s.desired
  {
    hide Numbered, Attempted, Handshaken;
    InstalledQuietly(p, dial);
    if !dial.DialFailed? {
      NextFree(s);
      ConnectNumbered(p, s, dial);
      ConnectedIs(p, s, dial);
    }
  }

  lemma ConnectNumbered(p: Params, s: State, dial: Dial)
    requires Numbered(s) && !dial.DialFailed? && s.dialled !in s.open
    ensures Numbered(Connected(p, s, dial))
  {
    hide Attempted, Handshaken;
    ConnectedIs(p, s, dial);
  }

  lemma EnterPlumbing(p: Params, s: State, order: seq<Cidr>, sent: nat)
    requires Plumbing(s) && Want(s) == s.desired && s.pc == Ready
    ensures Plumbing(Entered(p, s, order, sent))
      && Want(Entered(p, s, order, sent)) == s.desired == Entered(p, s, order, sent).desired
  {
    hide Announcements, Visit;
  }

  lemma WakePlumbing(p: Params, s: State, order: seq<Cidr>, gone: seq<Cidr>, sent: nat)
    requires Plumbing(s) && Want(s) == s.desired && s.pc == Waiting
    ensures Plumbing(Woken(p, s, order, gone, sent))
      && Want(Woken(p, s, order, gone, sent)) == s.desired == Woken(p, s, order, gone, sent).desired
  {
    hide Announcements, Withdrawals, Visit, V4Prefix;
  }

  /** In every interleaving, whatever is asked to be advertised, at most one connection is
      open between critical sections, and it is the session's. */
  lemma {:induction false} OneConnection(p: Params, events: seq<Event>)
    ensures Plumbing(Run(p, events)) && Want(Run(p, events)) == Run(p, events).desired
  {
    hide Plumbing, Step;
    if events == [] {
      NewKeeps(p, iset{});
    } else {
      OneConnection(p, events[..|events| - 1]);
      StepPlumbing(p, Run(p, events[..|events| - 1]), events[|events| - 1]);
    }
  }

  /** Connecting never replaces a live connection, and the new one has a number that no
      earlier connection, consumer or log has; a consumer that ends touches only its own. */
  lemma ConnectionsApart(p: Params, events: seq<Event>, dial: Dial, c: nat)
    ensures var s := Run(p, events);
            var s' := Step(p, s, Connect(dial));
            && (s.conn.Some? ==> s'.conn == s.conn)
            && (s'.conn != s.conn ==> s'.conn.Some? && s'.conn.value !in s.wire && s'.conn.value !in s.consumers)
            && (s.conn != Some(c) ==> Step(p, s, ConsumerExits(c)).conn == s.conn)
  {
    OneConnection(p, events);
  }

  lemma ClosedStep(p: Params, s: State, e: Event)
    requires Plumbing(s) && s.closed
    ensures Step(p, s, e).closed && Step(p, s, e).conn.None? && Step(p, s, e).wire == s.wire && Step(p, s, e).open == {}
  {
    hide Merge, WellFormedAdv, Announcements, Withdrawals, Visit;
  }

  /** After Close nothing is ever written and no connection is ever installed again. */
  lemma {:induction false} ClosedForGood(p: Params, events: seq<Event>, more: seq<Event>)
    requires Run(p, events).closed
    ensures var s := Run(p, events + more);
            s.closed && s.conn.None? && s.open == {} && s.wire == Run(p, events).wire
  {
    hide Step;
    if more == [] {
      assert events + more == events;
      OneConnection(p, events);
    } else {
      var init, e := more[..|more| - 1], more[|more| - 1];
      assert (events + more)[..|events + more| - 1] == events + init;
      ClosedForGood(p, events, init);
      OneConnection(p, events + init);
      ClosedStep(p, Run(p, events + init), e);
    }
  }
}
