/** The session and its peer with nothing but octets between them: the peer cuts the stream
    into messages by their length fields, decodes them and maintains its table. */
module SessionWire {
  import opened Net
  import opened Bytes
  import opened Routes
  import opened OpenCodec
  import opened UpdateCodec
  import opened UpdateRoundTrip
  import opened SessionSpec
  import opened SessionProofs

  const KEEPALIVE: seq<Byte> := MARKER + [0, 19, 4]

  function Encode(p: Params, routerId: U32, m: Msg): seq<Byte> {
    match m
    case Opened => OpenBytes(p.asn, routerId, p.holdTime)
    case Keepalive => KEEPALIVE
    case Announce(sp, adv) => UpdateBytes(sp, adv)
    case Withdraw(prefixes) => WithdrawBytes(prefixes)
  }

  /** The octets on a connection after the messages of log. */
  function Stream(p: Params, routerId: U32, log: seq<Msg>): seq<Byte> {
    if log == [] then [] else Stream(p, routerId, log[..|log| - 1]) + Encode(p, routerId, log[|log| - 1])
  }

  // ---------- The peer's side ----------

  /** The first message of a stream, by its length field. */
  function Cutoff(s: seq<Byte>): Option<nat> {
    if |s| < 19 || s[..16] != MARKER then None
    else
      var n := Un16(s[16..18]);
      if n < 19 || n > 4096 || n > |s| then None else Some(n)
  }

  function AsSet(cs: seq<Cidr>): set<Cidr> {
    set i | 0 <= i < |cs| :: cs[i]
  }

  function Learned(t: Table, u: Update): Table {
    var kept := t - AsSet(u.withdrawn);
    if u.route.None? then kept
    else kept + map q | q in u.announced :: u.route.value
  }

  /** wide says that the peer reads four-octet AS numbers. */
  function Receive(wide: bool, t: Table, m: seq<Byte>): Option<Table>
    requires |m| >= 19
  {
    if m[18] != 2 then Some(t)
    else match DecodeUpdate(wide, m)
      case None => None
      case Some(u) => Some(Learned(t, u))
  }

  /** The table after a whole stream; None if the peer meets something malformed. */
  function ReceiveAll(wide: bool, t: Table, s: seq<Byte>): Option<Table>
    decreases |s|
  {
    if s == [] then Some(t)
    else match Cutoff(s)
      case None => None
      case Some(n) =>
        match Receive(wide, t, s[..n])
        case None => None
        case Some(t') => ReceiveAll(wide, t', s[n..])
  }

  // ---------- One message ----------

  ghost predicate Fits(m: Msg) {
    m.Withdraw? ==> 23 + |PrintPrefixes(m.prefixes)| <= 4096
  }

  lemma FrameCut(w: seq<Byte>, a: seq<Byte>, n: seq<Byte>, rest: seq<Byte>)
    requires 23 + |w| + |a| + |n| <= 4096
    ensures var m := Frame(w, a, n); Cutoff(m + rest) == Some(|m|) && |m| >= 19 && m[18] == 2
  {
    hide Be16, Un16, Frame;
    var m := Frame(w, a, n);
    FrameLayout(w, a, n);
    RoundTrip16(|m|);
    var s := m + rest;
    assert s[..16] == m[..16] && s[16..18] == m[16..18];
  }

  lemma MessageCut(p: Params, routerId: U32, m: Msg, rest: seq<Byte>)
    requires Fits(m)
    ensures var b := Encode(p, routerId, m); Cutoff(b + rest) == Some(|b|) && |b| >= 19
  {
    hide Frame, OpenBytes, PrintAttrs, PrintPrefixes, Un16;
    match m
    case Opened =>
      OpenLayout(p.asn, routerId, p.holdTime, rest);
      OpenLayout(p.asn, routerId, p.holdTime, []);
      RoundTrip16(49);
    case Keepalive =>
      KeepaliveCut(rest);
    case Announce(sp, adv) =>
      AttrsSmall(sp, adv);
      FrameCut([], PrintAttrs(AttrsOf(sp, adv)), PrintPrefix(adv.prefix), rest);
    case Withdraw(prefixes) =>
      FrameCut(PrintPrefixes(prefixes), [], [], rest);
  }

  lemma KeepaliveCut(rest: seq<Byte>)
    ensures Cutoff(KEEPALIVE + rest) == Some(19) && |KEEPALIVE| == 19 && KEEPALIVE[18] == 4
  {
    var s := KEEPALIVE + rest;
    assert s[..16] == MARKER && s[16..18] == [0, 19];
  }

  /** An announcement to another AS takes a peer that reads four-octet AS numbers. */
  predicate Understood(wide: bool, m: Msg) {
    m.Announce? ==> wide || m.sp.ibgp
  }

  /** Decoding a message does to the table what the message means, if and only if the peer
      understands it. What is misunderstood never gives the announced route. */
  lemma MessageReceived(wide: bool, p: Params, routerId: U32, t: Table, m: Msg)
    requires Fits(m)
    ensures |Encode(p, routerId, m)| >= 19
    ensures Receive(wide, t, Encode(p, routerId, m)) == Some(Apply(t, m)) <==> Understood(wide, m)
    ensures !Understood(wide, m) ==>
      match Receive(wide, t, Encode(p, routerId, m))
      case None => true
      case Some(t') => exists r: Route :: r.asPath != [m.sp.asn] && t' == t[Canon(m.adv.prefix) := r]
  {
    hide Frame, OpenBytes, PrintAttrs, PrintPrefixes, DecodeUpdate, Canon, Cutoff;
    MessageCut(p, routerId, m, []);
    match m
    case Opened =>
      OpenLayout(p.asn, routerId, p.holdTime, []);
    case Keepalive =>
      KeepaliveCut([]);
    case Announce(sp, adv) =>
      AttrsSmall(sp, adv);
      FrameCut([], PrintAttrs(AttrsOf(sp, adv)), PrintPrefix(adv.prefix), []);
      AnnounceReceived(wide, t, sp, adv);
    case Withdraw(prefixes) =>
      FrameCut(PrintPrefixes(prefixes), [], [], []);
      WithdrawReadsBack(wide, prefixes);
      LearnedCut(t, prefixes);
  }

  lemma AnnounceReceived(wide: bool, t: Table, sp: Speaker, adv: GoodAdv)
    requires var b := UpdateBytes(sp, adv); |b| >= 19 && b[18] == 2
    ensures Receive(wide, t, UpdateBytes(sp, adv)) == Some(t[Canon(adv.prefix) := RouteOf(sp, adv)])
      <==> wide || sp.ibgp
    ensures !(wide || sp.ibgp) ==>
      match Receive(wide, t, UpdateBytes(sp, adv))
      case None => true
      case Some(t') => exists r: Route :: r.asPath != [sp.asn] && t' == t[Canon(adv.prefix) := r]
  {
    hide UpdateBytes, DecodeUpdate, Canon, Learned;
    UpdateReadsBack(wide, sp, adv);
    var q := Canon(adv.prefix);
    LearnedOne(t, q, RouteOf(sp, adv));
    var d := DecodeUpdate(wide, UpdateBytes(sp, adv));
    if !(wide || sp.ibgp) && d.Some? {
      var r := d.value.route.value;
      LearnedOne(t, q, r);
      assert d.value == Update([], [q], Some(r));
      assert t[q := r][q] == r && t[q := RouteOf(sp, adv)][q] == RouteOf(sp, adv);
    }
  }

  lemma LearnedOne(t: Table, q: Cidr, r: Route)
    ensures Learned(t, Update([], [q], Some(r))) == t[q := r]
  {
    assert AsSet([]) == {};
    assert t - {} == t;
  }

  lemma LearnedCut(t: Table, prefixes: seq<Cidr>)
    ensures Learned(t, Update(Canons(prefixes), [], None)) == t - Cut(prefixes)
  {
    hide Canon;
    var cs := Canons(prefixes);
    forall i | 0 <= i < |cs|
      ensures cs[i] in Cut(prefixes) && Canon(prefixes[i]) in AsSet(cs)
    {
      assert cs[i] == Canon(prefixes[i]);
    }
    assert AsSet(cs) == Cut(prefixes);
  }

  // ---------- A whole connection ----------

  lemma {:induction false} StreamReceived(wide: bool, p: Params, routerId: U32, t: Table, log: seq<Msg>,
                                          rest: seq<Byte>)
    requires forall i :: 0 <= i < |log| ==> Fits(log[i]) && Understood(wide, log[i])
    ensures ReceiveAll(wide, t, Stream(p, routerId, log) + rest) == ReceiveAll(wide, Replay(t, log), rest)
    decreases log
  {
    hide Encode, Fits, Apply, Cutoff, Receive, Understood;
    if log == [] {
      assert Stream(p, routerId, log) + rest == rest;
    } else {
      var init, m := log[..|log| - 1], log[|log| - 1];
      var b := Encode(p, routerId, m);
      assert Stream(p, routerId, log) + rest == Stream(p, routerId, init) + (b + rest);
      StreamReceived(wide, p, routerId, t, init, b + rest);
      var t' := Replay(t, init);
      MessageCut(p, routerId, m, rest);
      MessageReceived(wide, p, routerId, t', m);
      assert (b + rest)[..|b|] == b && (b + rest)[|b|..] == rest;
    }
  }

  /** No route in the table has the session's own path. */
  ghost predicate Strange(asn: U32, t: Table) {
    forall q :: q in t ==> t[q].asPath != [asn]
  }

  /** A peer in another AS that reads two-octet AS numbers gives up, or has only wrong paths. */
  lemma {:induction false} NarrowStream(p: Params, routerId: U32, t: Table, log: seq<Msg>, rest: seq<Byte>)
    returns (r: Option<Table>)
    requires p.asn != p.peerAsn && Strange(p.asn, t) && forall i :: 0 <= i < |log| ==> Says(p, log[i])
    ensures match r
      case None => ReceiveAll(false, t, Stream(p, routerId, log) + rest) == None
      case Some(t') => Strange(p.asn, t') && ReceiveAll(false, t, Stream(p, routerId, log) + rest) == ReceiveAll(false, t', rest)
    decreases log
  {
    hide Encode, Says, Strange, Cutoff, Receive;
    if log == [] {
      assert Stream(p, routerId, log) + rest == rest;
      r := Some(t);
    } else {
      var init, m := log[..|log| - 1], log[|log| - 1];
      var b := Encode(p, routerId, m);
      assert Stream(p, routerId, log) + rest == Stream(p, routerId, init) + (b + rest);
      r := NarrowStream(p, routerId, t, init, b + rest);
      if r.Some? {
        assert Fits(m) by { SaysFits(p, m); }
        MessageCut(p, routerId, m, rest);
        assert (b + rest)[..|b|] == b && (b + rest)[|b|..] == rest;
        StrangeStays(p, routerId, r.value, m);
        r := Receive(false, r.value, b);
      }
    }
  }

  lemma SaysFits(p: Params, m: Msg)
    requires Says(p, m)
    ensures Fits(m)
  {
  }

  lemma StrangeStays(p: Params, routerId: U32, t: Table, m: Msg)
    requires p.asn != p.peerAsn && Strange(p.asn, t) && Says(p, m)
    ensures |Encode(p, routerId, m)| >= 19
    ensures Receive(false, t, Encode(p, routerId, m)).Some? ==>
      Strange(p.asn, Receive(false, t, Encode(p, routerId, m)).value)
  {
    hide Encode, Fits, Receive, Canon;
    MessageReceived(false, p, routerId, t, m);
  }

  /** 814 prefixes of five octets are the most that any withdrawal can be sure to hold. */
  const MAX_ADVS := 814

  ghost predicate Small(e: Event) {
    e.SetAdvs? ==> |e.advs| <= MAX_ADVS
  }

  /** What a session may write: it fits one message and speaks for this session. */
  ghost predicate Says(p: Params, m: Msg) {
    Fits(m) && (m.Announce? ==> m.sp.asn == p.asn && m.sp.ibgp == (p.asn == p.peerAsn))
  }

  ghost predicate SmallState(p: Params, s: State) {
    && |s.advertised| <= MAX_ADVS
    && (s.pending.Some? ==> |s.pending.value| <= MAX_ADVS)
    && (forall c, i :: c in s.wire && 0 <= i < |s.wire[c]| ==> Says(p, s.wire[c][i]))
  }

  lemma {:induction false} MergeSize(advs: seq<Adv>)
    requires AllWellFormed(advs) && Merge(advs).Some?
    ensures |Merge(advs).value| <= |advs|
  {
    hide WellFormedAdv, Sendable;
    if advs != [] {
      MergeSize(advs[..|advs| - 1]);
    }
  }

  lemma {:induction false} DistinctSize(order: seq<Cidr>, keys: set<Cidr>)
    requires forall i :: 0 <= i < |order| ==> order[i] in keys
    requires forall i, j :: 0 <= i < j < |order| ==> order[i] != order[j]
    ensures |order| <= |keys|
  {
    if order != [] {
      var last := order[|order| - 1];
      DistinctSize(order[..|order| - 1], keys - {last});
    }
  }

  lemma WithdrawalsFit(p: Params, known: Advs, advs: Advs, gone: seq<Cidr>)
    requires |known| <= MAX_ADVS && Visit(gone, known.Keys - advs.Keys)
      && forall i :: 0 <= i < |gone| ==> V4Prefix(gone[i])
    ensures forall i :: 0 <= i < |Withdrawals(gone)| ==> Says(p, Withdrawals(gone)[i])
  {
    DistinctSize(gone, known.Keys);
    PrefixesSize(gone);
  }

  lemma {:induction false} AnnouncementsFit(p: Params, sp: Speaker, known: Advs, advs: Advs, order: seq<Cidr>)
    requires sp.asn == p.asn && sp.ibgp == (p.asn == p.peerAsn) && forall i :: 0 <= i < |order| ==> order[i] in advs
    ensures forall i :: 0 <= i < |Announcements(sp, known, advs, order)| ==>
      Says(p, Announcements(sp, known, advs, order)[i])
  {
    hide Equal;
    if order != [] {
      AnnouncementsFit(p, sp, known, advs, order[..|order| - 1]);
    }
  }

  lemma WrittenFits(p: Params, s: State, msgs: seq<Msg>, sent: nat)
    requires SmallState(p, s) && Usable(s) && forall i :: 0 <= i < |msgs| ==> Says(p, msgs[i])
    ensures SmallState(p, Wrote(s, msgs, sent)) && SmallState(p, Written(s, msgs))
  {
    hide Says;
  }

  lemma SmallStep(p: Params, s: State, e: Event)
    requires SmallState(p, s) && Small(e)
    ensures SmallState(p, Step(p, s, e))
  {
    hide Merge, WellFormedAdv, Entered, Woken, Connected, Written, Says;
    match e
    case SetAdvs(advs) =>
      if AllWellFormed(advs) && Merge(advs).Some? {
        MergeSize(advs);
      }
    case Connect(dial) => SmallConnect(p, s, dial);
    case Enter(order, sent) => SmallEnter(p, s, order, sent);
    case Wake(order, gone, sent) => SmallWake(p, s, order, gone, sent);
    case KeepaliveTick(ok) =>
      if Usable(s) {
        assert Says(p, Keepalive) by { QuietFits(p); }
        WrittenFits(p, s, [Keepalive], 1);
      }
    case _ =>
  }

  lemma QuietFits(p: Params)
    ensures Says(p, Keepalive) && Says(p, Opened)
  {
  }

  lemma SmallConnect(p: Params, s: State, dial: Dial)
    requires SmallState(p, s)
    ensures SmallState(p, Connected(p, s, dial))
  {
    hide Says, Said;
    QuietFits(p);
    if !dial.DialFailed? {
      var c, d := s.dialled, Dialled(s);
      assert SmallState(p, d);
      if dial.HandshakeFailed? || dial.Answered? {
        var d' := d.(address := dial.address);
        SaidSmall(p, d', c, Opened);
        if dial.Answered? {
          SaidSmall(p, Said(d', c, Opened).(consumers := s.consumers + {c}), c, Keepalive);
        }
      }
    }
  }

  lemma SaidSmall(p: Params, s: State, c: nat, m: Msg)
    requires SmallState(p, s) && c in s.wire && Says(p, m)
    ensures SmallState(p, Said(s, c, m)) && c in Said(s, c, m).wire && Said(s, c, m) == s.(wire := Said(s, c, m).wire)
  {
    hide Says;
  }

  lemma SmallEnter(p: Params, s: State, order: seq<Cidr>, sent: nat)
    requires SmallState(p, s)
    ensures SmallState(p, Entered(p, s, order, sent))
  {
    hide Announcements, Wrote, Visit, Says;
    if Usable(s) && Visit(order, Want(s).Keys) {
      InOrder(order, Want(s).Keys);
      AnnouncementsFit(p, SpeakerOf(p, s), map[], Want(s), order);
      WrittenFits(p, s, Announcements(SpeakerOf(p, s), map[], Want(s), order), sent);
    }
  }

  lemma SmallWake(p: Params, s: State, order: seq<Cidr>, gone: seq<Cidr>, sent: nat)
    requires SmallState(p, s)
    ensures SmallState(p, Woken(p, s, order, gone, sent))
  {
    hide Announcements, Withdrawals, Wrote, V4Prefix, Visit, Says;
    if Usable(s) && Visit(order, Want(s).Keys) && Visit(gone, s.advertised.Keys - Want(s).Keys)
       && (forall i :: 0 <= i < |gone| ==> V4Prefix(gone[i])) {
      InOrder(order, Want(s).Keys);
      var a, w := Announcements(SpeakerOf(p, s), s.advertised, Want(s), order), Withdrawals(gone);
      AnnouncementsFit(p, SpeakerOf(p, s), s.advertised, Want(s), order);
      WithdrawalsFit(p, s.advertised, Want(s), gone);
      assert forall i :: 0 <= i < |a + w| ==> Says(p, (a + w)[i]);
      WrittenFits(p, s, a + w, sent);
    }
  }

  lemma {:induction false} SmallRun(p: Params, events: seq<Event>)
    requires forall e :: e in events ==> Small(e)
    ensures SmallState(p, Run(p, events))
  {
    hide SmallState, Small, Step;
    if events == [] {
      SmallNew(p);
    } else {
      SmallRun(p, events[..|events| - 1]);
      SmallStep(p, Run(p, events[..|events| - 1]), events[|events| - 1]);
    }
  }

  lemma SmallNew(p: Params)
    ensures SmallState(p, NEW)
  {
  }

  /** A peer that knows only the octets of the current connection has decoded exactly the
      routes that the session is to bring about. */
  ghost predicate ReadsOff(wide: bool, p: Params, routerId: U32, s: State)
    requires Usable(s)
  {
    var r := ReceiveAll(wide, map[], Stream(p, routerId, s.wire[s.conn.value]));
    r.Some? && Shows(r.value, SpeakerOf(p, s), s.desired)
  }

  /** Whenever the session rests with something to announce, the peer has it from the octets
      alone, if and only if it reads four-octet AS numbers or belongs to the same AS. */
  lemma OctetsInSync(wide: bool, p: Params, routerId: U32, u: iset<Cidr>, events: seq<Event>)
    requires Injective(u) && forall e :: e in events ==> Over(u, e) && Small(e)
    requires Resting(Run(p, events))
    ensures var s := Run(p, events);
            && Usable(s)
            && (wide || p.asn == p.peerAsn ==> ReadsOff(wide, p, routerId, s))
            && (s.desired != map[] ==> (ReadsOff(wide, p, routerId, s) <==> wide || p.asn == p.peerAsn))
  {
    hide Injective, Over, Small, Shows, Run, Stream;
    var s := Run(p, events);
    PeerInSync(p, u, events);
    SmallRun(p, events);
    var log := s.wire[s.conn.value];
    assert Stream(p, routerId, log) + [] == Stream(p, routerId, log);
    if wide || p.asn == p.peerAsn {
      StreamReceived(wide, p, routerId, map[], log, []);
    } else {
      var r := NarrowStream(p, routerId, map[], log, []);
      if r.Some? && s.desired != map[] {
        StrangeHides(r.value, SpeakerOf(p, s), s.desired);
      }
    }
  }

  lemma StrangeHides(t: Table, sp: Speaker, advs: Advs)
    requires Strange(sp.asn, t) && !sp.ibgp && advs != map[]
    ensures !Shows(t, sp, advs)
  {
    hide Canon;
    var k :| k in advs;
    assert RouteOf(sp, advs[k]).asPath == [sp.asn];
  }
}
