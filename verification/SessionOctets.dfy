/** Exactly when a peer can live on the octets alone: which peers, and how many advertisements
    a Set may hold. */
module SessionOctets {
  import opened Net
  import opened Bytes
  import opened Routes
  import opened UpdateCodec
  import opened SessionSpec
  import opened SessionProofs
  import opened SessionPrefixes
  import opened SessionWire

  ghost const ALIGNED: iset<Cidr> := iset c | Aligned(c)

  /** Canonical prefixes, and at most n advertisements per Set. */
  ghost predicate Within(n: nat, events: seq<Event>) {
    forall e :: e in events ==> Over(ALIGNED, e) && (e.SetAdvs? ==> |e.advs| <= n)
  }

  ghost predicate AlwaysReadsOff(wide: bool, p: Params, routerId: U32, n: nat) {
    forall events :: Within(n, events) && Resting(Run(p, events)) ==>
      Usable(Run(p, events)) && ReadsOff(wide, p, routerId, Run(p, events))
  }

  lemma AlignedInjective()
    ensures Injective(ALIGNED)
  {
    hide Aligned, Canon;
    forall k, l | k in ALIGNED && l in ALIGNED && Canon(k) == Canon(l)
      ensures k == l
    {
      AlignedCanon(k);
      AlignedCanon(l);
    }
  }

  lemma AlignedCanon(k: Cidr)
    requires Aligned(k)
    ensures Canon(k) == k
  {
    CanonAligned(k);
  }

  lemma SmallWithin(n: nat, events: seq<Event>)
    requires Within(n, events) && n <= MAX_ADVS
    ensures forall e :: e in events ==> Over(ALIGNED, e) && Small(e)
  {
    hide Over;
  }

  // ---------- One advertisement ----------

  /** A peer that cannot read the path is wrong already about one advertisement. */
  lemma OneIsTooMany(wide: bool, p: Params, routerId: U32)
    requires !wide && p.asn != p.peerAsn
    ensures exists events ::
      && Within(1, events) && Resting(Run(p, events)) && Usable(Run(p, events))
      && !ReadsOff(wide, p, routerId, Run(p, events))
  {
    hide Run, ReadsOff, Resting, Usable, Aligned;
    var k: V4Cidr := Cidr(V4, 0, 0);
    var events := Swap(p, k, k)[..3];
    AfterFirst(p, k);
    assert Within(1, events) by { assert Aligned(k) by { ZeroAligned(); } FirstWithin(p, k); }
    SmallWithin(1, events);
    AlignedInjective();
    OctetsInSync(wide, p, routerId, ALIGNED, events);
  }

  lemma ZeroAligned()
    ensures Aligned(Cidr(V4, 0, 0))
  {
    MaskIdempotent(0, 32);
  }

  lemma FirstWithin(p: Params, k: V4Cidr)
    requires Aligned(k)
    ensures Within(1, Swap(p, k, k)[..3])
  {
    hide Aligned;
  }

  lemma AfterFirst(p: Params, k: V4Cidr)
    ensures var s := Run(p, Swap(p, k, k)[..3]); Resting(s) && s.desired != map[]
  {
    hide Run, Plumbing;
    var s := Run(p, Swap(p, k, k)[..3]);
    First(p, k, k);
    OneConnection(p, Swap(p, k, k)[..3]);
    assert k in s.desired;
  }

  // ---------- Many withdrawals ----------

  predicate DistinctPrefixes(ks: seq<V4Cidr>) {
    forall i, j :: 0 <= i < j < |ks| ==> ks[i] != ks[j]
  }

  function Plains(ks: seq<V4Cidr>): (r: seq<Adv>)
    ensures |r| == |ks| && forall i :: 0 <= i < |ks| ==> r[i] == Plain(ks[i])
  {
    if ks == [] then [] else Plains(ks[..|ks| - 1]) + [Plain(ks[|ks| - 1])]
  }

  function TableOf(ks: seq<V4Cidr>): (r: Advs)
    ensures forall k :: k in r <==> k in ks
    ensures forall k :: k in r ==> r[k] == Plain(k)
  {
    if ks == [] then map[] else TableOf(ks[..|ks| - 1])[ks[|ks| - 1] := Plain(ks[|ks| - 1])]
  }

  lemma {:induction false} MergePlains(ks: seq<V4Cidr>)
    ensures AllWellFormed(Plains(ks)) && Merge(Plains(ks)) == Some(TableOf(ks))
  {
    hide Merge, WellFormedAdv;
    if ks == [] {
      MergeSnoc([], Plain(Cidr(V4, 0, 0)));
    } else {
      var init, k := ks[..|ks| - 1], ks[|ks| - 1];
      MergePlains(init);
      MergeSnoc(Plains(init), Plain(k));
    }
  }

  lemma MergeSnoc(advs: seq<Adv>, a: GoodAdv)
    requires AllWellFormed(advs)
    ensures Merge([]) == Some(map[])
    ensures AllWellFormed(advs + [a])
      && Merge(advs + [a]) == if Merge(advs).None? then None else Some(Merge(advs).value[a.prefix := a])
  {
    assert (advs + [a])[..|advs|] == advs;
  }

  lemma {:induction false} AnnouncePlains(sp: Speaker, advs: Advs, ks: seq<V4Cidr>)
    requires forall i :: 0 <= i < |ks| ==> ks[i] in advs
    ensures |Announcements(sp, map[], advs, ks)| == |ks|
    ensures forall m :: m in Announcements(sp, map[], advs, ks) ==> m.Announce? && m.sp == sp
  {
    if ks != [] {
      AnnouncePlains(sp, advs, ks[..|ks| - 1]);
    }
  }

  /** Advertise all of ks, let the session come to rest, then take everything back. */
  function TakeBack(p: Params, ks: seq<V4Cidr>): seq<Event> {
    [SetAdvs(Plains(ks)), Connect(Answer(p)), Enter(ks, |ks|), SetAdvs([]), Wake([], ks, 1)]
  }

  lemma VisitAll(ks: seq<V4Cidr>)
    requires DistinctPrefixes(ks)
    ensures Visit(ks, TableOf(ks).Keys)
  {
  }

  ghost predicate Greeted(p: Params, s: State, ks: seq<V4Cidr>) {
    && !s.closed && s.conn == Some(0) && 0 in s.wire && s.advertised == TableOf(ks)
    && (forall m :: m in s.wire[0] ==> m == Opened || m == Keepalive || (m.Announce? && m.sp == SpeakerOf(p, s)))
  }

  lemma ConnectedTo(p: Params, ks: seq<V4Cidr>)
    ensures var s := Run(p, TakeBack(p, ks)[..2]);
      && s.pc == Ready && !s.closed && s.conn == Some(0) && s.pending == Some(TableOf(ks))
      && s.wire == map[0 := [Opened, Keepalive]]
  {
    hide Plain, Plains, TableOf;
    MergePlains(ks);
    var es := TakeBack(p, ks);
    assert es[..1] == [] + [es[0]] && es[..2] == es[..1] + [es[1]];
    RunSnoc(p, [], es[0]);
    RunSnoc(p, es[..1], es[1]);
    hide Handshaken;
    ConnectedIs(p, Run(p, es[..1]), Answer(p));
  }

  lemma Announced(p: Params, ks: seq<V4Cidr>)
    requires DistinctPrefixes(ks)
    ensures var s := Run(p, TakeBack(p, ks)[..3]); s.pc == Waiting && s.pending == None && Greeted(p, s, ks)
  {
    hide Plain, Plains, TableOf, Run, Announcements, Visit, Written;
    ConnectedTo(p, ks);
    var es := TakeBack(p, ks);
    assert es[..3] == es[..2] + [es[2]];
    RunSnoc(p, es[..2], es[2]);
    var s := Run(p, es[..2]);
    VisitAll(ks);
    InTable(ks);
    AnnouncePlains(SpeakerOf(p, s), TableOf(ks), ks);
    WrittenKeepsWire(s, Announcements(SpeakerOf(p, s), map[], TableOf(ks), ks));
  }

  lemma InTable(ks: seq<V4Cidr>)
    ensures forall i :: 0 <= i < |ks| ==> ks[i] in TableOf(ks)
  {
  }

  lemma TakenBack(p: Params, ks: seq<V4Cidr>)
    requires DistinctPrefixes(ks) && ks != []
    ensures var s, s' := Run(p, TakeBack(p, ks)[..3]), Run(p, TakeBack(p, ks));
      && Greeted(p, s, ks) && Resting(s') && Usable(s') && s'.conn == Some(0)
      && s'.wire[0] == s.wire[0] + [Withdraw(ks)]
  {
    hide Plain, Plains, TableOf, Run, Woken;
    Announced(p, ks);
    var es := TakeBack(p, ks);
    assert es[..4] == es[..3] + [es[3]] && es == es[..4] + [es[4]];
    RunSnoc(p, es[..3], es[3]);
    RunSnoc(p, es[..4], es[4]);
    assert Merge([]) == Some(map[]);
    WithdrawnAll(p, Run(p, es[..4]), ks);
  }

  /** With nothing wanted any more, waking up withdraws everything. */
  lemma WithdrawnAll(p: Params, s: State, ks: seq<V4Cidr>)
    requires DistinctPrefixes(ks) && ks != [] && s.pending == Some(map[])
    requires !s.closed && s.conn == Some(0) && 0 in s.wire && s.advertised == TableOf(ks)
    ensures var s' := Woken(p, s, [], ks, 1);
      Resting(s') && Usable(s') && s'.conn == Some(0) && s'.wire[0] == s.wire[0] + [Withdraw(ks)]
  {
    hide TableOf, Written, Visit, Announcements;
    VisitAll(ks);
    NothingWanted(s.advertised);
    assert s.advertised.Keys - Want(s).Keys == TableOf(ks).Keys;
    var msgs := Announcements(SpeakerOf(p, s), s.advertised, map[], []) + Withdrawals(ks);
    assert msgs == [Withdraw(ks)];
    WrittenKeepsWire(s, msgs);
    assert Want(s) == map[] && Want(s).Keys == {};
    assert Woken(p, s, [], ks, 1) == Wrote(s, msgs, 1);
  }

  lemma NothingWanted(known: Advs)
    ensures Visit([], {})
    ensures forall sp :: Announcements(sp, known, map[], []) == []
  {
  }

  lemma BigFrameCut(w: seq<Byte>)
    requires 4096 < 23 + |w| < 0x1_0000
    ensures Cutoff(Frame(w, [], [])) == None
  {
    hide Be16, Un16;
    var m := Frame(w, [], []);
    assert |m| == 23 + |w|;
    assert m[16..18] == Be16(|m|);
    RoundTrip16(|m|);
  }

  /** A withdrawal beyond 4096 octets ends the peer's reading. */
  lemma TooLong(wide: bool, p: Params, routerId: U32, ks: seq<V4Cidr>)
    requires wide || p.asn == p.peerAsn
    requires DistinctPrefixes(ks) && V4Prefixes(ks) && 4096 < 23 + |PrintPrefixes(ks)| < 0x1_0000
    ensures var s := Run(p, TakeBack(p, ks)); Resting(s) && Usable(s) && !ReadsOff(wide, p, routerId, s)
  {
    hide Run, PrintPrefixes, Cutoff, TableOf, Replay, Resting;
    assert ks != [] by { NoPrefixes(ks); }
    TakenBack(p, ks);
    var s, s' := Run(p, TakeBack(p, ks)[..3]), Run(p, TakeBack(p, ks));
    var log := s.wire[0];
    forall i | 0 <= i < |log|
      ensures Fits(log[i]) && Understood(wide, log[i])
    {
      assert log[i] in log;
    }
    var last := WithdrawBytes(ks);
    assert (log + [Withdraw(ks)])[..|log|] == log;
    assert Stream(p, routerId, s'.wire[0]) == Stream(p, routerId, log) + last;
    StreamReceived(wide, p, routerId, map[], log, last);
    BigFrameCut(PrintPrefixes(ks));
  }

  lemma NoPrefixes(ks: seq<V4Cidr>)
    requires V4Prefixes(ks) && |PrintPrefixes(ks)| > 0
    ensures ks != []
  {
  }

  /** n prefixes of 32 bits. */
  function Hosts(n: nat): (ks: seq<V4Cidr>)
    requires n < 0x1_0000
    ensures |ks| == n && forall i :: 0 <= i < n ==> ks[i] == Cidr(V4, i, 32)
  {
    Pow2Constants();
    if n == 0 then [] else Hosts(n - 1) + [Cidr(V4, n - 1, 32)]
  }

  lemma HostAligned(i: nat)
    requires i < 0x1_0000
    ensures V4Prefix(Cidr(V4, i, 32)) && Aligned(Cidr(V4, i, 32)) && |PrintPrefix(Cidr(V4, i, 32))| == 5
  {
    Pow2Constants();
  }

  lemma {:induction false} HostsSize(n: nat)
    requires n < 0x1_0000
    ensures V4Prefixes(Hosts(n)) && |PrintPrefixes(Hosts(n))| == 5 * n
  {
    hide V4Prefix, PrintPrefix, Pow2;
    if n > 0 {
      HostsSize(n - 1);
      HostAligned(n - 1);
      assert Hosts(n)[..n - 1] == Hosts(n - 1);
    }
  }

  lemma HostsWithin(p: Params, n: nat, max: nat)
    requires n < 0x1_0000 && n <= max
    ensures DistinctPrefixes(Hosts(n)) && Within(max, TakeBack(p, Hosts(n)))
  {
    hide Aligned, Pow2;
    forall i | 0 <= i < n
      ensures Hosts(n)[i] in ALIGNED
    {
      HostAligned(i);
    }
  }

  lemma ManyAreTooMany(wide: bool, p: Params, routerId: U32, n: nat)
    requires (wide || p.asn == p.peerAsn) && n > MAX_ADVS
    ensures exists events ::
      && Within(n, events) && Resting(Run(p, events)) && Usable(Run(p, events))
      && !ReadsOff(wide, p, routerId, Run(p, events))
  {
    hide Run, ReadsOff, Resting, Usable, Within, TakeBack, PrintPrefixes, Hosts;
    var c := MAX_ADVS + 1;
    HostsSize(c);
    HostsWithin(p, c, n);
    TooLong(wide, p, routerId, Hosts(c));
  }

  /** Over canonical prefixes with at most n advertisements per Set, a peer reads the right
      table off the octets at every rest of every run, if and only if it reads four-octet AS
      numbers or belongs to the same AS, and n is at most 814. */
  lemma OctetsHypothesisExact(wide: bool, p: Params, routerId: U32, n: nat)
    requires n > 0
    ensures AlwaysReadsOff(wide, p, routerId, n) <==> (wide || p.asn == p.peerAsn) && n <= MAX_ADVS
  {
    hide Run, ReadsOff, Resting, Usable, Over;
    if !(wide || p.asn == p.peerAsn) {
      OneIsTooMany(wide, p, routerId);
      var events :| Within(1, events) && Resting(Run(p, events)) && Usable(Run(p, events)) &&
      !ReadsOff(wide, p, routerId, Run(p, events));
      assert Within(n, events);
    } else if n > MAX_ADVS {
      ManyAreTooMany(wide, p, routerId, n);
    } else {
      forall events | Within(n, events) && Resting(Run(p, events))
        ensures Usable(Run(p, events)) && ReadsOff(wide, p, routerId, Run(p, events))
      {
        SmallWithin(n, events);
        AlignedInjective();
        OctetsInSync(wide, p, routerId, ALIGNED, events);
      }
    }
  }
}
