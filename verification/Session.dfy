/** The session object (internal/bgp/bgp.go). Each method is one critical section; `pc`,
    `open`, `consumers`, `wire` and `desired` record what goroutines and network do. */
module Sessions {
  import opened Net
  import opened Bytes
  import opened Routes
  import opened UpdateCodec
  import opened SessionSpec
  import opened SessionProofs

  /** Every advertisement is filed under its own prefix. */
  ghost predicate Filed(advs: Advs) {
    forall k :: k in advs ==> advs[k].prefix == k
  }

  class Session {
    const p: Params
    var closed: bool
    var conn: Option<nat>
    var actualHoldTime: U16
    var defaultNextHop: U32
    var advertised: Advs
    var new_: Option<Advs>
    var dialled: nat  // connections are told apart by number

    ghost var pc: Pc
    ghost var open: set<nat>
    ghost var consumers: set<nat>
    ghost var wire: map<nat, seq<Msg>>
    ghost var desired: Advs

    ghost function View(): State
      reads this
    {
      State(closed, conn, actualHoldTime, defaultNextHop, advertised, new_, pc, dialled, open, consumers, wire, desired)
    }

    ghost predicate Valid()
      reads this
    {
      Plumbing(View()) && Want(View()) == desired && Filed(advertised) && (new_.Some? ==> Filed(new_.value))
    }

    constructor (p: Params)
      ensures Valid() && View() == NEW && this.p == p
    {
      this.p := p;
      closed, conn, actualHoldTime, defaultNextHop := false, None, 0, 0;
      advertised, new_ := map[], None;
      pc, dialled, open, consumers, wire, desired := Connecting, 0, {}, {}, map[], map[];
    }

    /** Accepts the advertisements, or rejects them all if one cannot be sent. */
    method Set(advs: seq<Adv>) returns (ok: bool)
      requires Valid() && AllWellFormed(advs)
      modifies this`new_, this`desired
      ensures Valid()
      ensures ok <==> Merge(advs).Some?
      ensures View() == Step(p, old(View()), SetAdvs(advs))
    {
      hide Plumbing, WellFormedAdv, Sendable, Merge;
      var newAdvs: Advs := map[];
      MergeNothing();
      for i := 0 to |advs|
        invariant Merge(advs[..i]) == Some(newAdvs)
        invariant Filed(newAdvs)
        modifies {}
      {
        MergeNext(advs, i);
        var adv := advs[i];
        if adv.prefix.fam != V4 || (adv.nextHop.Some? && adv.nextHop.value.fam != V4) || |adv.communities| > 63 {
          MergeStops(advs, i);
          return false;
        }
        newAdvs := newAdvs[adv.prefix := adv];
      }
      assert advs[..|advs|] == advs;
      PlumbingElsewhere(View(), View().(pending := Some(newAdvs), desired := newAdvs));
      new_ := Some(newAdvs);
      desired := newAdvs;
      return true;
    }

    /** Closes the connection, if any, and skips ahead to the desired routes. */
    method Abort()
      modifies this`conn, this`open, this`advertised, this`new_
      ensures View() == Aborted(old(View()))
    {
      if conn.Some? {
        open := open - {conn.value};
        conn := None;
      }
      if new_.Some? {
        advertised, new_ := new_.value, None;
      }
    }

    method Close()
      requires Valid()
      modifies this
      ensures Valid()
      ensures View() == Step(p, old(View()), SessionSpec.Close)
    {
      closed := true;
      Abort();
    }

    /** The end of `consumeBGP` for connection c. */
    method ConsumerExits(c: nat)
      requires Valid() && c in consumers
      modifies this
      ensures Valid()
      ensures View() == Step(p, old(View()), SessionSpec.ConsumerExits(c))
    {
      consumers := consumers - {c};
      if conn == Some(c) {
        Abort();
      } else {
        open := open - {c};
      }
    }

    /** One tick of the keepalive timer; ok is whether a write would succeed. */
    method SendKeepalive(ok: bool)
      requires Valid()
      modifies this
      ensures Valid()
      ensures View() == Step(p, old(View()), KeepaliveTick(ok))
    {
      if closed || conn.None? {
        return;
      }
      if ok {
        wire := wire[conn.value := wire[conn.value] + [Keepalive]];
      } else {
        Abort();
      }
    }

    /** `connect`, whose exchange with the network goes as `dial` says. */
    method Connect(dial: Dial) returns (ok: bool)
      requires Valid() && pc == Connecting
      modifies this
      ensures Valid()
      ensures View() == Step(p, old(View()), SessionSpec.Connect(dial))
      ensures ok <==> conn.Some?
    {
      hide Plumbing, Handshaken;
      StepPlumbing(p, View(), SessionSpec.Connect(dial));
      NoConnection(View());
      if closed {
        pc := Done;
        return false;
      }
      if dial.DialFailed? {
        return false;
      }
      var c := Dial();
      ok := Handshake(c, dial);
    }

    /** `dialMD5` has succeeded. */
    method Dial() returns (c: nat)
      modifies this`dialled, this`wire, this`open
      ensures c == old(dialled) && View() == Dialled(old(View()))
    {
      c := dialled;
      dialled, wire, open := c + 1, wire[c := []], open + {c};
    }

    /** `conn.Close()`. */
    method Hangup(c: nat)
      modifies this`open
      ensures View() == Shut(old(View()), c)
    {
      open := open - {c};
    }

    /** A message has been written to connection c. */
    method Say(c: nat, m: Msg)
      requires c in wire
      modifies this`wire
      ensures View() == Said(old(View()), c, m)
    {
      wire := wire[c := wire[c] + [m]];
    }

    /** `connect` once there is a connection. */
    method Handshake(c: nat, dial: Dial) returns (ok: bool)
      requires !dial.DialFailed? && conn.None? && c in wire
      modifies this`wire, this`defaultNextHop, this`consumers, this`actualHoldTime, this`open, this`conn, this`pc
      ensures View() == Handshaken(p, old(View()), c, dial)
      ensures ok <==> conn.Some?
    {
      hide Said, Shut, Negotiated;
      if dial.SetupFailed? {
        Hangup(c);
        return false;
      }
      defaultNextHop := dial.address;
      if dial.HandshakeFailed? {
        if dial.openSent {
          Say(c, Opened);
        }
        Hangup(c);
        return false;
      }
      Say(c, Opened);
      StillThere(old(View()).(address := dial.address), c, Opened);
      ok := Negotiate(c, dial);
    }

    /** The peer has answered our OPEN with its own. */
    method Negotiate(c: nat, dial: Dial) returns (ok: bool)
      requires dial.Answered? && conn.None? && c in wire
      modifies this`wire, this`consumers, this`actualHoldTime, this`open, this`conn, this`pc
      ensures View() == Negotiated(p, old(View()), c, dial)
      ensures ok <==> conn.Some?
    {
      hide Said, Shut;
      if dial.op.asn != p.peerAsn || !dial.deadlineOk {
        Hangup(c);
        return false;
      }
      consumers := consumers + {c};
      if !dial.keepaliveOk {
        Hangup(c);
        return false;
      }
      Say(c, Keepalive);
      var hold := p.holdTime;
      if dial.op.holdTime < hold {
        hold := dial.op.holdTime;
      }
      Install(c, hold);
      return true;
    }

    method Install(c: nat, hold: U16)
      modifies this`actualHoldTime, this`conn, this`pc
      ensures View() == Installed(old(View()), c, hold) && conn == Some(c)
    {
      actualHoldTime, conn, pc := hold, Some(c), Ready;
    }

    /** Writes one message; a failed write leaves the peer with nothing more than before. */
    method Write(ghost m: Msg) returns (ok: bool)
      requires Usable(View())
      modifies this`wire
      ensures wire == if ok then old(wire)[conn.value := old(wire)[conn.value] + [m]] else old(wire)
    {
      ok := *;
      if ok {
        wire := wire[conn.value := wire[conn.value] + [m]];
      }
    }

    /** Announces the entries of advs that `known` does not have, in any order, until a write
        fails. Answers the visit made and how many messages went out. */
    method AnnounceAll(known: Advs, advs: Advs) returns (ok: bool, ghost order: seq<Cidr>, ghost sent: nat)
      requires Usable(View())
      modifies this`wire
      ensures Visit(order, advs.Keys)
      ensures var msgs := Announcements(SpeakerOf(p, View()), known, advs, order);
              && (if ok then sent == |msgs| else sent < |msgs|)
              && wire == old(wire)[conn.value := old(wire)[conn.value] + msgs[..sent]]
    {
      hide Equal, Announcements, Visit;
      ghost var sp, start, c := SpeakerOf(p, View()), wire, conn.value;
      ghost var done: seq<Cidr> := [];
      ghost var msgs: seq<Msg> := [];
      var todo := advs.Keys;
      NoAnnouncements(sp, known, advs);
      assert advs.Keys - todo == {};
      assert start[c] + [] == start[c];
      assert wire == start[c := start[c] + msgs];
      while todo != {}
        invariant View() == old(View()).(wire := wire)
        invariant todo <= advs.Keys && Visit(done, advs.Keys - todo)
        invariant InAdvs(done, advs) && msgs == Announcements(sp, known, advs, done)
        invariant wire == start[c := start[c] + msgs]
        decreases todo
      {
        var k :| k in todo;
        MoreAnnouncements(sp, known, advs, done, k);
        VisitMore(done, advs.Keys - todo, k);
        assert advs.Keys - (todo - {k}) == advs.Keys - todo + {k};
        todo := todo - {k};
        done := done + [k];
        if !(k in known && Equal(advs[k], known[k])) {
          ok := Write(Announce(sp, advs[k]));
          if !ok {
            order := done + SomeVisit(todo);
            sent := |msgs|;
            CutShort(sp, known, advs, done, todo, msgs, Announce(sp, advs[k]));
            return;
          }
          assert start[c] + msgs + [Announce(sp, advs[k])] == start[c] + (msgs + [Announce(sp, advs[k])]);
          msgs := msgs + [Announce(sp, advs[k])];
        }
      }
      assert advs.Keys - {} == advs.Keys;
      InOrder(done, advs.Keys);
      ok, order, sent := true, done, |msgs|;
      assert msgs[..sent] == msgs;
    }

    /** `sendUpdates` from its entry to its first wait or return. */
    method EnterSendUpdates() returns (next: Pc, ghost e: Event)
      requires Valid() && pc == Ready
      modifies this
      ensures Valid() && pc == next
      ensures e.Enter? && View() == Step(p, old(View()), e)
    {
      hide Plumbing, Announcements, Visit, Filed;
      e := Enter([], 0);
      ghost var s := View();
      UsableIfConnected(s);
      if closed {
        StepPlumbing(p, s, e);
        pc := Done;
        return Done, e;
      }
      if conn.None? {
        StepPlumbing(p, s, e);
        pc := Connecting;
        return Connecting, e;
      }
      if new_.Some? {
        advertised, new_ := new_.value, None;
      }
      var ok;
      ghost var order, sent;
      ok, order, sent := AnnounceAll(map[], advertised);
      InOrder(order, advertised.Keys);
      e := Enter(order, sent);
      StepPlumbing(p, s, e);
      ghost var msgs := Announcements(SpeakerOf(p, s), map[], Want(s), order);
      assert ok ==> msgs[..sent] == msgs;
      if !ok {
        Abort();
        pc := Connecting;
        return Connecting, e;
      }
      pc := Waiting;
      return Waiting, e;
    }

    /** The prefixes that are advertised and no longer wanted. */
    method Gone(advs: Advs) returns (wdr: seq<V4Cidr>)
      requires Filed(advertised)
      ensures Visit(wdr, advertised.Keys - advs.Keys)
    {
      hide V4Prefix;
      wdr := [];
      var todo := advertised.Keys;
      while todo != {}
        invariant todo <= advertised.Keys && Visit(wdr, advertised.Keys - todo - advs.Keys)
        decreases todo
      {
        var c :| c in todo;
        if c !in advs {
          VisitMore(wdr, advertised.Keys - todo - advs.Keys, c);
          assert advertised.Keys - (todo - {c}) - advs.Keys == advertised.Keys - todo - advs.Keys + {c};
          FiledPrefix(advertised, c);
          wdr := wdr + [advertised[c].prefix];
        } else {
          assert advertised.Keys - (todo - {c}) - advs.Keys == advertised.Keys - todo - advs.Keys;
        }
        todo := todo - {c};
      }
      assert advertised.Keys - {} - advs.Keys == advertised.Keys - advs.Keys;
    }

    /** `sendUpdates` from a wake-up to its next wait or its return. */
    method WakeSendUpdates() returns (next: Pc, ghost e: Event)
      requires Valid() && pc == Waiting
      modifies this
      ensures Valid() && pc == next
      ensures e.Wake? && View() == Step(p, old(View()), e)
    {
      hide Plumbing, Announcements, Visit, Filed;
      e := Wake([], [], 0);
      ghost var s := View();
      UsableIfConnected(s);
      if new_.None? && conn.Some? {
        return Waiting, e;
      }
      if closed {
        StepPlumbing(p, s, e);
        pc := Done;
        return Done, e;
      }
      if conn.None? {
        StepPlumbing(p, s, e);
        pc := Connecting;
        return Connecting, e;
      }
      var ok;
      ok, e := SendDifference();
      StepPlumbing(p, s, e);
      if !ok {
        Abort();
        pc := Connecting;
        return Connecting, e;
      }
      advertised, new_ := new_.value, None;
      pc := Waiting;
      return Waiting, e;
    }

    /** The messages that turn `advertised` into `new_`: updates, then one withdrawal. */
    method SendDifference() returns (ok: bool, ghost e: Event)
      requires Usable(View()) && new_.Some? && Filed(advertised) && pc == Waiting && !closed
      modifies this`wire
      ensures e.Wake?
      ensures ok ==> Step(p, old(View()), e) == View().(advertised := new_.value, pending := None, pc := Waiting)
      ensures !ok ==> Step(p, old(View()), e) == Aborted(View()).(pc := Connecting)
    {
      hide Announcements, Visit;
      ghost var s, c := View(), conn.value;
      ghost var order, sent;
      ok, order, sent := AnnounceAll(advertised, new_.value);
      InOrder(order, new_.value.Keys);
      var wdr := Gone(new_.value);
      ghost var ann, w := Announcements(SpeakerOf(p, s), s.advertised, Want(s), order), Withdrawals(wdr);
      e := Wake(order, wdr, sent);
      assert (ann + w)[..sent] == ann[..sent];
      if !ok {
        assert sent < |ann + w|;
        return;
      }
      assert ann[..sent] == ann;
      if |wdr| > 0 {
        ok := Write(Withdraw(wdr));
        if ok {
          e := Wake(order, wdr, sent + 1);
          assert s.wire[c] + ann + [Withdraw(wdr)] == s.wire[c] + (ann + w);
        }
      } else {
        assert ann + w == ann;
      }
    }
  }

  lemma StillThere(s: State, c: nat, m: Msg)
    requires c in s.wire
    ensures c in Said(s, c, m).wire && Said(s, c, m).conn == s.conn
  {
  }

  lemma UsableIfConnected(s: State)
    requires Plumbing(s)
    ensures s.conn.Some? ==> Usable(s)
  {
  }

  lemma FiledPrefix(advs: Advs, c: Cidr)
    requires Filed(advs) && c in advs
    ensures advs[c].prefix == c && V4Prefix(c)
  {
  }

  ghost predicate InAdvs(order: seq<Cidr>, advs: Advs) {
    forall i :: 0 <= i < |order| ==> order[i] in advs
  }

  ghost function SomeVisit(keys: set<Cidr>): (order: seq<Cidr>)
    ensures Visit(order, keys)
  {
    if keys == {} then [] else
      var k :| k in keys;
      var rest := SomeVisit(keys - {k});
      VisitMore(rest, keys - {k}, k);
      assert keys - {k} + {k} == keys;
      rest + [k]
  }

  lemma VisitMore(order: seq<Cidr>, keys: set<Cidr>, k: Cidr)
    requires Visit(order, keys) && k !in keys
    ensures Visit(order + [k], keys + {k})
  {
  }

  lemma VisitJoin(a: seq<Cidr>, b: seq<Cidr>, ka: set<Cidr>, kb: set<Cidr>)
    requires Visit(a, ka) && Visit(b, kb) && ka !! kb
    ensures Visit(a + b, ka + kb)
  {
  }

  lemma NoAnnouncements(sp: Speaker, known: Advs, advs: Advs)
    ensures Announcements(sp, known, advs, []) == [] && Visit([], {})
  {
  }

  lemma MoreAnnouncements(sp: Speaker, known: Advs, advs: Advs, done: seq<Cidr>, k: Cidr)
    requires InAdvs(done, advs) && k in advs
    ensures InAdvs(done + [k], advs)
    ensures var before := Announcements(sp, known, advs, done);
            Announcements(sp, known, advs, done + [k])
            == if k in known && Equal(advs[k], known[k]) then before else before + [Announce(sp, advs[k])]
  {
    hide Equal;
    assert (done + [k])[..|done|] == done;
  }

  /** A visit that stops at a message, completed in some way. */
  lemma CutShort(sp: Speaker, known: Advs, advs: Advs, done: seq<Cidr>, todo: set<Cidr>, msgs: seq<Msg>, m: Msg)
    requires todo <= advs.Keys && Visit(done, advs.Keys - todo) && InAdvs(done, advs)
    requires Announcements(sp, known, advs, done) == msgs + [m]
    ensures var order := done + SomeVisit(todo);
      && Visit(order, advs.Keys) && InAdvs(order, advs)
      && |msgs| < |Announcements(sp, known, advs, order)| && Announcements(sp, known, advs, order)[..|msgs|] == msgs
  {
    hide Visit, Announcements;
    var order := done + SomeVisit(todo);
    VisitJoin(done, SomeVisit(todo), advs.Keys - todo, todo);
    assert advs.Keys - todo + todo == advs.Keys;
    InOrder(order, advs.Keys);
    AnnouncementsPrefix(sp, known, advs, done, SomeVisit(todo));
  }

  /** A longer visit starts with the same messages. */
  lemma {:induction false} AnnouncementsPrefix(sp: Speaker, known: Advs, advs: Advs, a: seq<Cidr>, b: seq<Cidr>)
    requires InAdvs(a, advs) && InAdvs(a + b, advs)
    ensures Announcements(sp, known, advs, a) <= Announcements(sp, known, advs, a + b)
    decreases |b|
  {
    hide Equal;
    if b == [] {
      assert a + b == a;
    } else {
      var init := b[..|b| - 1];
      assert (a + b)[..|a + b| - 1] == a + init;
      AnnouncementsPrefix(sp, known, advs, a, init);
    }
  }

  lemma MergeNothing()
    ensures Merge([]) == Some(map[])
  {
  }

  lemma MergeNext(advs: seq<Adv>, i: nat)
    requires AllWellFormed(advs) && i < |advs|
    ensures Merge(advs[..i + 1]) == if Merge(advs[..i]).None? || !Sendable(advs[i]) then None
      else Some(Merge(advs[..i]).value[advs[i].prefix := advs[i]])
    ensures Sendable(advs[i]) <==>
      advs[i].prefix.fam == V4 && (advs[i].nextHop.Some? ==> advs[i].nextHop.value.fam == V4) && |advs[i].communities| <= 63
    ensures WellFormedAdv(advs[i])
  {
    assert advs[..i + 1][..i] == advs[..i];
  }

  lemma {:induction false} MergeStops(advs: seq<Adv>, i: nat)
    requires AllWellFormed(advs) && i < |advs| && !Sendable(advs[i])
    ensures Merge(advs).None?
    decreases |advs|
  {
    hide WellFormedAdv, Sendable;
    if i < |advs| - 1 {
      MergeStops(advs[..|advs| - 1], i);
    }
  }

  lemma PlumbingElsewhere(s: State, s': State)
    requires Plumbing(s) && s' == s.(pending := s'.pending, desired := s'.desired)
    ensures Plumbing(s')
  {
  }
}
