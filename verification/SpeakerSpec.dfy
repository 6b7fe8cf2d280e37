/** The BGP half of the speaker (speaker/bgp_controller.go): peers, their sessions and the
    advertisements of all services, as functions on values. A session is the pair of its
    parameters and the log of everything that ever happened to it; SessionSpec says what the
    session makes of that log. */
module SpeakerSpec {
  import opened Net
  import opened Bytes
  import opened Config
  import opened Routes
  import opened Advertising
  import S = SessionSpec
  import A = AllocatorSpec

  type Labels = map<string, string>
  type Selector = string

  /** Label selectors belong to a library; what they match is a parameter. */
  type Matcher = (Selector, Labels) -> bool

  datatype PeerCfg = PeerCfg(
    myAsn: U32, asn: U32, addr: string, port: nat, holdTime: U16, routerId: Option<Ip>,
    selectors: seq<Selector>, password: string)

  /** A peer and the number of its session, if it has one. */
  datatype Peer = Peer(cfg: PeerCfg, bgp: Option<nat>)

  datatype Sess = Sess(p: S.Params, log: seq<S.Event>)

  datatype Ctl = Ctl(
    peers: seq<Peer>,
    labels: Option<Labels>,
    svcAds: SvcAds,
    sessions: seq<Sess>)    // every session ever started, in that order

  const START := Ctl([], None, map[], [])

  function ParamsOf(cfg: PeerCfg): S.Params {
    S.Params(cfg.myAsn, cfg.asn, cfg.holdTime)
  }

  /** Nil labels match like no labels. */
  function LabelsOf(labels: Option<Labels>): Labels {
    if labels.Some? then labels.value else map[]
  }

  predicate ShouldRun(m: Matcher, cfg: PeerCfg, labels: Option<Labels>) {
    exists i :: 0 <= i < |cfg.selectors| && m(cfg.selectors[i], LabelsOf(labels))
  }

  /** One more event in the life of session h. */
  function Logged(sessions: seq<Sess>, h: nat, e: S.Event): seq<Sess>
    requires h < |sessions|
  {
    sessions[h := sessions[h].(log := sessions[h].log + [e])]
  }

  predicate Numbered(peers: seq<Peer>, sessions: seq<Sess>) {
    forall i :: 0 <= i < |peers| && peers[i].bgp.Some? ==> peers[i].bgp.value < |sessions|
  }

  // ---------- SetConfig: matching old peers with new configurations ----------

  /** The old peers that are still to be had; None where one has been taken. */
  type Slots = seq<Option<Peer>>

  function SlotsOf(peers: seq<Peer>): (r: Slots)
    ensures |r| == |peers| && forall i :: 0 <= i < |r| ==> r[i] == Some(peers[i])
  {
    seq(|peers|, i requires 0 <= i < |peers| => Some(peers[i]))
  }

  predicate Fits(slot: Option<Peer>, cfg: PeerCfg) {
    slot.Some? && slot.value.cfg == cfg
  }

  /** The first slot with this configuration, or the number of slots. */
  function Pick(slots: Slots, cfg: PeerCfg): (i: nat)
    ensures i <= |slots| && (i < |slots| ==> Fits(slots[i], cfg))
    ensures forall j :: 0 <= j < i ==> !Fits(slots[j], cfg)
  {
    if slots == [] then 0
    else
      var i := Pick(slots[..|slots| - 1], cfg);
      if i < |slots| - 1 || Fits(slots[|slots| - 1], cfg) then i else |slots|
  }

  datatype Match = Match(peers: seq<Peer>, left: Slots)

  /** The next configuration takes the first old peer that fits, or is a new peer. */
  function Took(r: Match, cfg: PeerCfg): Match {
    var i := Pick(r.left, cfg);
    if i == |r.left| then Match(r.peers + [Peer(cfg, None)], r.left)
    else Match(r.peers + [r.left[i].value], r.left[i := None])
  }

  function Matched(cfgs: seq<PeerCfg>, slots: Slots): (r: Match)
    ensures |r.peers| == |cfgs| && |r.left| == |slots|
    ensures forall i :: 0 <= i < |cfgs| ==> r.peers[i].cfg == cfgs[i]
  {
    if cfgs == [] then Match([], slots) else Took(Matched(cfgs[..|cfgs| - 1], slots), cfgs[|cfgs| - 1])
  }

  predicate NumberedSlots(slots: Slots, sessions: seq<Sess>) {
    forall i :: 0 <= i < |slots| && slots[i].Some? && slots[i].value.bgp.Some? ==> slots[i].value.bgp.value < |sessions|
  }

  /** The sessions of the peers that nobody wants any more are closed. */
  function Dropped(slots: Slots, sessions: seq<Sess>): (r: seq<Sess>)
    requires NumberedSlots(slots, sessions)
    ensures |r| == |sessions|
  {
    if slots == [] then sessions
    else
      var before, slot := Dropped(slots[..|slots| - 1], sessions), slots[|slots| - 1];
      if slot.Some? && slot.value.bgp.Some? then Logged(before, slot.value.bgp.value, S.Close) else before
  }

  // ---------- syncPeers ----------

  datatype Sync = Sync(peers: seq<Peer>, sessions: seq<Sess>, started: bool, failed: bool)

  /** The next peer: stop what should not run, start what should. */
  function SyncOne(m: Matcher, labels: Option<Labels>, s: Sync, peer: Peer, ok: bool): (r: Sync)
    requires peer.bgp.Some? ==> peer.bgp.value < |s.sessions|
  {
    var should := ShouldRun(m, peer.cfg, labels);
    if peer.bgp.Some? && !should then
      s.(peers := s.peers + [Peer(peer.cfg, None)], sessions := Logged(s.sessions, peer.bgp.value, S.Close))
    else if peer.bgp.None? && should then
      if ok then
        s.(peers := s.peers + [Peer(peer.cfg, Some(|s.sessions|))],
           sessions := s.sessions + [Sess(ParamsOf(peer.cfg), [])], started := true)
      else s.(peers := s.peers + [peer], failed := true)
    else s.(peers := s.peers + [peer])
  }

  /** The first n peers; oks says which sessions can be created. */
  function SyncUpTo(m: Matcher, labels: Option<Labels>, peers: seq<Peer>, sessions: seq<Sess>, oks: seq<bool>,
                    n: nat): (r: Sync)
    requires n <= |peers| && |oks| == |peers| && Numbered(peers, sessions)
    ensures |r.peers| == n && |r.sessions| >= |sessions|
  {
    if n == 0 then Sync([], sessions, false, false)
    else SyncOne(m, labels, SyncUpTo(m, labels, peers, sessions, oks, n - 1), peers[n - 1], oks[n - 1])
  }

  // ---------- updateAds ----------

  predicate SomeRun(peers: seq<Peer>) {
    exists i :: 0 <= i < |peers| && peers[i].bgp.Some?
  }

  /** Set on every session in turn, up to the first error. */
  function SetAll(peers: seq<Peer>, sessions: seq<Sess>, advs: seq<Adv>): (r: seq<Sess>)
    requires Numbered(peers, sessions) && S.AllWellFormed(advs)
    ensures |r| == |sessions|
  {
    if peers == [] then sessions
    else
      var init, peer := peers[..|peers| - 1], peers[|peers| - 1];
      var before := SetAll(init, sessions, advs);
      if peer.bgp.None? || (S.Merge(advs).None? && SomeRun(init)) then before
      else Logged(before, peer.bgp.value, S.SetAdvs(advs))
  }

  // ---------- The operations ----------

  /** `syncPeers`, given which sessions can be created and in which order services come. */
  ghost function Synced(m: Matcher, c: Ctl, oks: seq<bool>, order: seq<string>): Ctl
    requires |oks| == |c.peers| && Numbered(c.peers, c.sessions) && AllGood(c.svcAds)
      && A.Enumerates(order, c.svcAds.Keys)
  {
    var s := SyncUpTo(m, c.labels, c.peers, c.sessions, oks, |c.peers|);
    var c' := c.(peers := s.peers, sessions := s.sessions);
    if s.started && Numbered(s.peers, s.sessions) then Updated(c', order) else c'
  }

  ghost function Updated(c: Ctl, order: seq<string>): Ctl
    requires Numbered(c.peers, c.sessions) && AllGood(c.svcAds) && A.Enumerates(order, c.svcAds.Keys)
  {
    ConcatGood(c.svcAds, order);
    c.(sessions := SetAll(c.peers, c.sessions, Concat(c.svcAds, order)))
  }

  ghost function Configured(c: Ctl, cfgs: seq<PeerCfg>): Ctl
    requires Numbered(c.peers, c.sessions)
  {
    var r := Matched(cfgs, SlotsOf(c.peers));
    if NumberedSlots(r.left, c.sessions) then c.(peers := r.peers, sessions := Dropped(r.left, c.sessions)) else c
  }

  datatype Event =
    | EvConfig(cfgs: seq<PeerCfg>, oks: seq<bool>, order: seq<string>)
    | EvNode(labels: Labels, oks: seq<bool>, order: seq<string>)
    | EvBalancer(name: string, ip: Ip, pool: Pool, ads: seq<Adv>, order: seq<string>)
    | EvDelete(name: string, order: seq<string>)
    | EvSession(h: nat, e: S.Event)    // a critical section of a session's own goroutines

  ghost predicate Sound(c: Ctl) {
    Numbered(c.peers, c.sessions) && AllGood(c.svcAds)
  }

  /** One event. What cannot happen now changes nothing. */
  ghost function Step(m: Matcher, c: Ctl, e: Event): Ctl
    requires Sound(c)
  {
    match e
    case EvConfig(cfgs, oks, order) =>
      var c' := Configured(c, cfgs);
      if |oks| == |cfgs| == |c'.peers| && Sound(c') && A.Enumerates(order, c.svcAds.Keys) then Synced(m, c', oks, order) else c
    case EvNode(labels, oks, order) =>
      if c.labels == Some(labels) || |oks| != |c.peers| || !A.Enumerates(order, c.svcAds.Keys) then c
      else Synced(m, c.(labels := Some(labels)), oks, order)
    case EvBalancer(name, ip, pool, ads, order) =>
      var c' := c.(svcAds := c.svcAds[name := ads]);
      if !ValidIp(ip) || !AdsFor(ip, pool, ads) || !AllGood(c'.svcAds) || !A.Enumerates(order, c'.svcAds.Keys) then c
      else Updated(c', order)
    case EvDelete(name, order) =>
      var c' := c.(svcAds := c.svcAds - {name});
      if name !in c.svcAds || !AllGood(c'.svcAds) || !A.Enumerates(order, c'.svcAds.Keys) then c
      else Updated(c', order)
    case EvSession(h, e) =>
      if h >= |c.sessions| || e.SetAdvs? || e.Close? then c else c.(sessions := Logged(c.sessions, h, e))
  }
}
