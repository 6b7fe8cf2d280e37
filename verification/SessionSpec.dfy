/** The BGP session (internal/bgp/bgp.go) as a state machine. Each event is one critical
    section under the session's mutex; what the network does is part of the event. */
module SessionSpec {
  import opened Net
  import opened Bytes
  import opened Routes
  import opened OpenCodec
  import opened UpdateCodec

  type GoodAdv = a: Adv | Sendable(a) && WellFormedAdv(a) witness Adv(Cidr(V4, 0, 0), None, 0, [])

  type V4Cidr = c: Cidr | V4Prefix(c) witness Cidr(V4, 0, 0)

  type Advs = map<Cidr, GoodAdv>

  /** What the program writes on a connection, message by message. */
  datatype Msg =
    | Opened
    | Keepalive
    | Announce(sp: Speaker, adv: GoodAdv)
    | Withdraw(prefixes: seq<V4Cidr>)

  // ---------- The peer ----------

  type Table = map<Cidr, Route>

  /** The peer's table after one more message, as section 3.1 of RFC 4271 has it. */
  function Apply(t: Table, m: Msg): Table {
    match m
    case Announce(sp, adv) => t[Canon(adv.prefix) := RouteOf(sp, adv)]
    case Withdraw(prefixes) => t - Cut(prefixes)
    case _ => t
  }

  function Cut(prefixes: seq<Cidr>): set<Cidr> {
    set i | 0 <= i < |prefixes| :: Canon(prefixes[i])
  }

  function Replay(t: Table, log: seq<Msg>): Table {
    if log == [] then t else Apply(Replay(t, log[..|log| - 1]), log[|log| - 1])
  }

  /** The table holds exactly the routes of advs. */
  ghost predicate Shows(t: Table, sp: Speaker, advs: Advs) {
    && (forall k :: k in advs ==> Canon(k) in t && t[Canon(k)] == RouteOf(sp, advs[k]))
    && (forall q :: q in t ==> exists k :: k in advs && Canon(k) == q)
  }

  // ---------- The session ----------

  datatype Params = Params(asn: U32, peerAsn: U32, holdTime: U16)

  /** Where the goroutine of `run` stands when the mutex is free. */
  datatype Pc = Connecting | Ready | Waiting | Done

  datatype State = State(
    closed: bool,
    conn: Option<nat>,
    holdTime: U16,
    address: U32,
    advertised: Advs,
    pending: Option<Advs>,
    pc: Pc,
    dialled: nat,              // connections so far; the next one gets this number
    open: set<nat>,            // connections not yet closed by this end
    consumers: set<nat>,       // connections with a `consumeBGP` goroutine
    wire: map<nat, seq<Msg>>,  // everything ever written, by connection
    desired: Advs)             // the routes of the last accepted Set

  const NEW := State(false, None, 0, 0, map[], None, Connecting, 0, {}, {}, map[], map[])

  /** How an attempt to connect goes, once there is a mutex-holding caller. */
  datatype Dial =
    | DialFailed
    | SetupFailed
    | HandshakeFailed(address: U32, openSent: bool)
    | Answered(address: U32, op: OpenResult, deadlineOk: bool, keepaliveOk: bool)

  datatype Event =
    | SetAdvs(advs: seq<Adv>)
    | Connect(dial: Dial)
    | Enter(order: seq<Cidr>, sent: nat)
    | Wake(order: seq<Cidr>, gone: seq<Cidr>, sent: nat)
    | ConsumerExits(c: nat)
    | KeepaliveTick(ok: bool)
    | Close

  function SpeakerOf(p: Params, s: State): Speaker {
    Speaker(p.asn, p.asn == p.peerAsn, s.address)
  }

  /** `Set`'s map, or None for an advertisement that cannot be sent. Later entries win. */
  function Merge(advs: seq<Adv>): (r: Option<Advs>)
    requires forall i :: 0 <= i < |advs| ==> WellFormedAdv(advs[i])
  {
    if advs == [] then Some(map[])
    else
      var r, a := Merge(advs[..|advs| - 1]), advs[|advs| - 1];
      if r.None? || !Sendable(a) then None else Some(r.value[a.prefix := a])
  }

  predicate AllWellFormed(advs: seq<Adv>) {
    forall i :: 0 <= i < |advs| ==> WellFormedAdv(advs[i])
  }

  /** The routes the session is to bring about. */
  function Want(s: State): Advs {
    if s.pending.Some? then s.pending.value else s.advertised
  }

  /** `abort`. */
  function Aborted(s: State): State {
    s.(conn := None,
       open := if s.conn.Some? then s.open - {s.conn.value} else s.open,
       advertised := Want(s),
       pending := None)
  }

  function Written(s: State, msgs: seq<Msg>): State
    requires s.conn.Some? && s.conn.value in s.wire
  {
    s.(wire := s.wire[s.conn.value := s.wire[s.conn.value] + msgs])
  }

  /** A round of writes of which the first `sent` succeed. */
  function Wrote(s: State, msgs: seq<Msg>, sent: nat): State
    requires s.conn.Some? && s.conn.value in s.wire
  {
    if sent < |msgs| then Aborted(Written(s, msgs[..sent])).(pc := Connecting)
    else Written(s, msgs).(advertised := Want(s), pending := None, pc := Waiting)
  }

  /** A visit of a map's keys in some order. */
  ghost predicate Visit(order: seq<Cidr>, keys: set<Cidr>) {
    && (forall i :: 0 <= i < |order| ==> order[i] in keys)
    && (forall k :: k in keys ==> k in order)
    && (forall i, j :: 0 <= i < j < |order| ==> order[i] != order[j])
  }

  /** The updates for the entries of advs that `known` does not already have. */
  function Announcements(sp: Speaker, known: Advs, advs: Advs, order: seq<Cidr>): seq<Msg>
    requires forall i :: 0 <= i < |order| ==> order[i] in advs
  {
    if order == [] then []
    else
      var before, k := Announcements(sp, known, advs, order[..|order| - 1]), order[|order| - 1];
      if k in known && Equal(advs[k], known[k]) then before else before + [Announce(sp, advs[k])]
  }

  function Withdrawals(gone: seq<Cidr>): seq<Msg>
    requires forall i :: 0 <= i < |gone| ==> V4Prefix(gone[i])
  {
    if gone == [] then [] else [Withdraw(gone)]
  }

  // ---------- connect, action by action ----------

  /** A connection has been dialled; it is open until somebody closes it. */
  function Dialled(s: State): State {
    s.(dialled := s.dialled + 1, wire := s.wire[s.dialled := []], open := s.open + {s.dialled})
  }

  function Said(s: State, c: nat, m: Msg): State
    requires c in s.wire
  {
    s.(wire := s.wire[c := s.wire[c] + [m]])
  }

  /** `conn.Close()`. */
  function Shut(s: State, c: nat): State {
    s.(open := s.open - {c})
  }

  function Installed(s: State, c: nat, hold: U16): State {
    s.(conn := Some(c), holdTime := hold, pc := Ready)
  }

  /** The peer has answered our OPEN with its own. */
  function Negotiated(p: Params, s: State, c: nat, dial: Dial): State
    requires c in s.wire && dial.Answered?
  {
    if dial.op.asn != p.peerAsn || !dial.deadlineOk then Shut(s, c)
    else
      var s' := s.(consumers := s.consumers + {c});
      if !dial.keepaliveOk then Shut(s', c)
      else Installed(Said(s', c, Keepalive), c, if dial.op.holdTime < p.holdTime then dial.op.holdTime else p.holdTime)
  }

  function Handshaken(p: Params, s: State, c: nat, dial: Dial): State
    requires c in s.wire && !dial.DialFailed?
  {
    match dial
    case SetupFailed => Shut(s, c)
    case HandshakeFailed(address, openSent) =>
      var s' := s.(address := address);
      Shut(if openSent then Said(s', c, Opened) else s', c)
    case Answered(address, _, _, _) => Negotiated(p, Said(s.(address := address), c, Opened), c, dial)
  }

  function Connected(p: Params, s: State, dial: Dial): State {
    if dial.DialFailed? then s else Handshaken(p, Dialled(s), s.dialled, dial)
  }

  ghost predicate Usable(s: State) {
    s.conn.Some? && s.conn.value in s.wire
  }

  /** `sendUpdates` from its entry to its first wait or return: send everything. */
  ghost function Entered(p: Params, s: State, order: seq<Cidr>, sent: nat): State {
    if s.closed then s.(pc := Done)
    else if s.conn.None? then s.(pc := Connecting)
    else if !Visit(order, Want(s).Keys) || !Usable(s) then s
    else Wrote(s, Announcements(SpeakerOf(p, s), map[], Want(s), order), sent)
  }

  /** `sendUpdates` from one wait to the next or to its return: send the difference. */
  ghost function Woken(p: Params, s: State, order: seq<Cidr>, gone: seq<Cidr>, sent: nat): State {
    if s.pending.None? && s.conn.Some? then s
    else if s.closed then s.(pc := Done)
    else if s.conn.None? then s.(pc := Connecting)
    else if !Visit(order, Want(s).Keys) || !Visit(gone, s.advertised.Keys - Want(s).Keys) || !Usable(s)
            || !(forall i :: 0 <= i < |gone| ==> V4Prefix(gone[i])) then s
    else Wrote(s, Announcements(SpeakerOf(p, s), s.advertised, Want(s), order) + Withdrawals(gone), sent)
  }

  /** One critical section. An event that the program cannot take now changes nothing. */
  ghost function Step(p: Params, s: State, e: Event): State {
    match e
    case SetAdvs(advs) =>
      if !AllWellFormed(advs) || Merge(advs).None? then s
      else s.(pending := Merge(advs), desired := Merge(advs).value)
    case Connect(dial) =>
      if s.pc != Connecting then s
      else if s.closed then s.(pc := Done)
      else Connected(p, s, dial)
    case Enter(order, sent) => if s.pc != Ready then s else Entered(p, s, order, sent)
    case Wake(order, gone, sent) => if s.pc != Waiting then s else Woken(p, s, order, gone, sent)
    case ConsumerExits(c) =>
      if c !in s.consumers then s
      else if s.conn == Some(c) then Aborted(s).(consumers := s.consumers - {c})
      else s.(open := s.open - {c}, consumers := s.consumers - {c})
    case KeepaliveTick(ok) =>
      if s.closed || !Usable(s) then s
      else if ok then Written(s, [Keepalive])
      else Aborted(s)
    case Close => Aborted(s.(closed := true))
  }

  ghost function Run(p: Params, events: seq<Event>): State {
    if events == [] then NEW else Step(p, Run(p, events[..|events| - 1]), events[|events| - 1])
  }
}
