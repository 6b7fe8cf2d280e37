/** A session that is not closed can always come to rest: when connections are made and lost,
    and that a peer which answers is enough. */
module SessionProgress {
  import opened Net
  import opened Bytes
  import opened OpenCodec
  import opened SessionSpec
  import opened SessionProofs

  lemma RunOneMore(p: Params, events: seq<Event>, e: Event)
    ensures Run(p, events + [e]) == Step(p, Run(p, events), e)
  {
    assert (events + [e])[..|events|] == events;
  }

  /** An attempt succeeds exactly if the session wants one, the peer answers with the AS number it
      should have, and nothing fails on the way. */
  lemma ConnectsExact(p: Params, events: seq<Event>, dial: Dial)
    requires Run(p, events).conn.None?
    ensures var s := Run(p, events);
      Run(p, events + [Connect(dial)]).conn.Some? <==>
        && !s.closed && s.pc == Connecting
        && dial.Answered? && dial.op.asn == p.peerAsn && dial.deadlineOk && dial.keepaliveOk
  {
    hide Run;
    var s := Run(p, events);
    OneConnection(p, events);
    RunOneMore(p, events, Connect(dial));
    if !dial.DialFailed? {
      NextFree(s);
      ConnectedIs(p, s, dial);
    }
  }

  /** A connection whose reader ends, or on which a keepalive cannot be written, is closed and
      given up, and the session still wants what it wanted. A reader that ends touches no other. */
  lemma ConnectionLost(p: Params, events: seq<Event>, c: nat)
    requires var s := Run(p, events); c in s.consumers || s.conn == Some(c)
    ensures var s, s' := Run(p, events), Run(p, events + [ConsumerExits(c)]);
      && c !in s'.open && c !in s'.consumers && s'.wire == s.wire && s'.desired == s.desired
      && s'.conn == (if s.conn == Some(c) then None else s.conn) && Want(s') == Want(s)
    ensures var s, s' := Run(p, events), Run(p, events + [KeepaliveTick(false)]);
      s'.conn.None? && s'.open == {} && s'.wire == s.wire && s'.desired == s.desired && Want(s') == Want(s)
  {
    hide Run;
    OneConnection(p, events);
    OneConnection(p, events + [ConsumerExits(c)]);
    OneConnection(p, events + [KeepaliveTick(false)]);
    RunOneMore(p, events, ConsumerExits(c));
    RunOneMore(p, events, KeepaliveTick(false));
  }

  // ---------- Coming to rest ----------

  function Welcome(p: Params, address: U32): Dial {
    Answered(address, OpenResult(p.peerAsn, 90, true, true), true, true)
  }

  /** Whatever connection there is fails, and `run` goes back to connecting. */
  const FALL_BACK: seq<Event> := [KeepaliveTick(false), Enter([], 0), Wake([], [], 0)]

  lemma FallsBack(p: Params, s: State)
    requires Plumbing(s) && !s.closed
    ensures var s' := Step(p, Step(p, Step(p, s, FALL_BACK[0]), FALL_BACK[1]), FALL_BACK[2]);
      s'.pc == Connecting && s'.conn.None? && !s'.closed
  {
    hide Announcements, Withdrawals, Visit;
    var s1 := Step(p, s, FALL_BACK[0]);
    assert s1.conn.None? && !s1.closed && s1.pc == s.pc;
    var s2 := Step(p, s1, FALL_BACK[1]);
    assert s2.conn.None? && !s2.closed && s2.pc == if s1.pc == Ready then Connecting else s1.pc;
  }

  lemma KeysInOrder(keys: set<Cidr>) returns (order: seq<Cidr>)
    ensures Visit(order, keys)
  {
    order := [];
    var todo := keys;
    while todo != {}
      invariant todo <= keys
      invariant forall i :: 0 <= i < |order| ==> order[i] in keys && order[i] !in todo
      invariant forall k :: k in keys ==> k in todo || k in order
      invariant forall i, j :: 0 <= i < j < |order| ==> order[i] != order[j]
    {
      var k :| k in todo;
      todo := todo - {k};
      order := order + [k];
    }
  }

  /** A fresh connection on which everything can be written. */
  lemma SendsAll(p: Params, s: State, order: seq<Cidr>) returns (n: nat)
    requires s.pc == Ready && !s.closed && Usable(s) && Visit(order, Want(s).Keys)
    ensures Resting(Step(p, s, Enter(order, n)))
  {
    hide Announcements, Visit;
    InOrder(order, Want(s).Keys);
    n := |Announcements(SpeakerOf(p, s), map[], Want(s), order)|;
  }

  /** Nobody asks for anything. */
  ghost predicate Unasked(events: seq<Event>) {
    forall e :: e in events ==> !e.SetAdvs? && !e.Close?
  }

  /** From every state that an open session can reach, events of the network and of the session's
      own goroutines lead to rest, for every address that a connection may get. */
  lemma AlwaysRecovers(p: Params, events: seq<Event>, address: U32)
    requires !Run(p, events).closed
    ensures exists more :: Unasked(more) && Resting(Run(p, events + more))
  {
    hide Run, Step, Resting, Visit, Plumbing;
    var s := Run(p, events);
    OneConnection(p, events);
    FallsBack(p, s);
    RunThree(p, events, FALL_BACK[0], FALL_BACK[1], FALL_BACK[2]);
    var es := events + FALL_BACK;
    assert es == events + [FALL_BACK[0], FALL_BACK[1], FALL_BACK[2]];
    var call := Connect(Welcome(p, address));
    ConnectsExact(p, es, call.dial);
    var s4 := Run(p, es + [call]);
    OneConnection(p, es);
    RunOneMore(p, es, call);
    assert s4.pc == Ready && !s4.closed && Usable(s4) by { JustConnected(p, Run(p, es), call.dial); }
    var order := KeysInOrder(Want(s4).Keys);
    var n := SendsAll(p, s4, order);
    RunOneMore(p, es + [call], Enter(order, n));
    var more := FALL_BACK + [call, Enter(order, n)];
    assert events + more == es + [call] + [Enter(order, n)];
  }

  lemma RunThree(p: Params, events: seq<Event>, a: Event, b: Event, c: Event)
    ensures Run(p, events + [a, b, c]) == Step(p, Step(p, Step(p, Run(p, events), a), b), c)
  {
    hide Run, Step;
    RunOneMore(p, events, a);
    RunOneMore(p, events + [a], b);
    RunOneMore(p, events + [a] + [b], c);
    assert events + [a, b, c] == events + [a] + [b] + [c];
  }

  lemma JustConnected(p: Params, s: State, dial: Dial)
    requires Plumbing(s) && s.conn.None? && Step(p, s, Connect(dial)).conn.Some?
    ensures var s' := Step(p, s, Connect(dial)); s'.pc == Ready && !s'.closed && Usable(s')
  {
    if s.pc == Connecting && !s.closed && !dial.DialFailed? {
      NextFree(s);
      ConnectedIs(p, s, dial);
    }
  }
}
