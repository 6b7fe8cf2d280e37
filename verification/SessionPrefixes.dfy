/** Which prefixes a session can be trusted with: exactly those that differ for a peer. Two
    spellings of one prefix, advertised one after the other, leave the peer without it. */
module SessionPrefixes {
  import opened Net
  import opened Routes
  import opened OpenCodec
  import opened UpdateCodec
  import opened SessionSpec
  import opened SessionProofs

  ghost predicate AlwaysInSync(p: Params, u: iset<Cidr>) {
    forall events :: (forall e :: e in events ==> Over(u, e)) ==> InSync(p, Run(p, events))
  }

  function Plain(k: V4Cidr): GoodAdv {
    Adv(k, None, 0, [])
  }

  function Answer(p: Params): Dial {
    Answered(0, OpenResult(p.peerAsn, 90, true, true), true, true)
  }

  /** Advertise k, let the session come to rest, then advertise l instead. */
  function Swap(p: Params, k: V4Cidr, l: V4Cidr): seq<Event> {
    [SetAdvs([Plain(k)]), Connect(Answer(p)), Enter([k], 1), SetAdvs([Plain(l)]), Wake([l], [k], 2)]
  }

  lemma RunSnoc(p: Params, events: seq<Event>, e: Event)
    ensures Run(p, events + [e]) == Step(p, Run(p, events), e)
  {
    assert (events + [e])[..|events|] == events;
  }

  lemma MergeOne(k: V4Cidr)
    ensures AllWellFormed([Plain(k)]) && Merge([Plain(k)]) == Some(map[k := Plain(k)])
  {
    assert [Plain(k)][..0] == [];
    assert Merge([]) == Some(map[]);
  }

  lemma AnnounceOne(sp: Speaker, known: Advs, k: V4Cidr)
    requires k !in known
    ensures Announcements(sp, known, map[k := Plain(k)], [k]) == [Announce(sp, Plain(k))]
  {
    assert [k][..0] == [];
    assert Announcements(sp, known, map[k := Plain(k)], []) == [];
  }

  lemma First(p: Params, k: V4Cidr, l: V4Cidr)
    ensures var s := Run(p, Swap(p, k, l)[..3]);
            && s.pc == Waiting && !s.closed && s.conn == Some(0) && s.pending == None
            && s.advertised == map[k := Plain(k)] && 0 in s.wire
  {
    hide Canon, Plain, Announcements, Written;
    MergeOne(k);
    var es := Swap(p, k, l);
    assert es[..1] == [] + [es[0]] && es[..2] == es[..1] + [es[1]] && es[..3] == es[..2] + [es[2]];
    RunSnoc(p, [], es[0]);
    RunSnoc(p, es[..1], es[1]);
    RunSnoc(p, es[..2], es[2]);
    var s2 := Run(p, es[..2]);
    assert s2.pc == Ready && s2.conn == Some(0) && s2.pending == Some(map[k := Plain(k)]);
    assert Visit([k], Want(s2).Keys);
    WrittenKeepsWire(s2, Announcements(SpeakerOf(p, s2), map[], Want(s2), [k]));
    assert |Announcements(SpeakerOf(p, s2), map[], Want(s2), [k])| == 1 by { AnnounceOne(SpeakerOf(p, s2), map[], k); }
  }

  lemma WrittenKeepsWire(s: State, msgs: seq<Msg>)
    requires s.conn.Some? && s.conn.value in s.wire
    ensures var s' := Written(s, msgs);
            && s' == s.(wire := s'.wire) && s.conn.value in s'.wire
            && s'.wire[s.conn.value] == s.wire[s.conn.value] + msgs
  {
  }

  lemma Second(p: Params, k: V4Cidr, l: V4Cidr)
    requires k != l && Canon(k) == Canon(l)
    ensures !InSync(p, Run(p, Swap(p, k, l)))
  {
    hide Canon, Plain, Announcements, Withdrawals, Written, Run, Swap;
    First(p, k, l);
    MergeOne(l);
    SwapParts(p, k, l);
    var es := Swap(p, k, l);
    RunSnoc(p, es[..3], SetAdvs([Plain(l)]));
    var s4 := Run(p, es[..4]);
    RunSnoc(p, es[..4], Wake([l], [k], 2));
    var sp := SpeakerOf(p, s4);
    assert s4.advertised == map[k := Plain(k)] && Want(s4) == map[l := Plain(l)];
    assert s4.advertised.Keys - Want(s4).Keys == {k};
    assert Visit([l], Want(s4).Keys) && Visit([k], s4.advertised.Keys - Want(s4).Keys);
    AnnounceOne(sp, s4.advertised, l);
    var msgs := Announcements(sp, s4.advertised, Want(s4), [l]) + Withdrawals([k]);
    SwapLog(sp, k, l);
    WrittenKeepsWire(s4, msgs);
    var s5 := Run(p, es);
    assert s5.wire[0] == s4.wire[0] + [Announce(sp, Plain(l)), Withdraw([k])];
    SwapTable(Replay(map[], s4.wire[0]), s4.wire[0], sp, k, l);
    assert l in s5.desired;
  }

  lemma SwapParts(p: Params, k: V4Cidr, l: V4Cidr)
    ensures var es := Swap(p, k, l);
            |es| == 5 && es[..4] == es[..3] + [SetAdvs([Plain(l)])] && es == es[..4] + [Wake([l], [k], 2)]
  {
  }

  lemma SwapLog(sp: Speaker, k: V4Cidr, l: V4Cidr)
    ensures [Announce(sp, Plain(l))] + Withdrawals([k]) == [Announce(sp, Plain(l)), Withdraw([k])]
  {
  }

  /** The withdrawal of one spelling takes the other with it. */
  lemma SwapTable(t: Table, log: seq<Msg>, sp: Speaker, k: V4Cidr, l: V4Cidr)
    requires Canon(k) == Canon(l) && t == Replay(map[], log)
    ensures Canon(l) !in Replay(map[], log + [Announce(sp, Plain(l)), Withdraw([k])])
  {
    hide Canon;
    var more := [Announce(sp, Plain(l)), Withdraw([k])];
    ReplayAppend(map[], log, more);
    assert more[..1] == [Announce(sp, Plain(l))];
    assert Canon([k][0]) in Cut([k]);
  }

  /** Over a family of IPv4 prefixes the peer is in sync at every rest of every run, if and
      only if no two of them are the same prefix to a peer. */
  lemma PrefixHypothesisExact(p: Params, u: iset<Cidr>)
    requires forall k :: k in u ==> V4Prefix(k)
    ensures AlwaysInSync(p, u) <==> Injective(u)
  {
    hide InSync, Run, Canon, Swap;
    if Injective(u) {
      forall events | forall e :: e in events ==> Over(u, e)
        ensures InSync(p, Run(p, events))
      {
        PeerInSync(p, u, events);
      }
    } else {
      var k, l :| k in u && l in u && Canon(k) == Canon(l) && k != l;
      Second(p, k, l);
      SwapOver(p, u, k, l);
    }
  }

  /** 0.0.0.0/31 and 0.0.0.1/31: with both, a run ends out of sync. */
  lemma TwoSpellings(p: Params)
    ensures var k, l := Cidr(V4, 0, 31), Cidr(V4, 1, 31);
            V4Prefix(k) && V4Prefix(l) && !AlwaysInSync(p, iset{k, l})
  {
    hide InSync, Run, Swap;
    var k, l := Cidr(V4, 0, 31), Cidr(V4, 1, 31);
    assert ValidCidr(k) && ValidCidr(l);
    assert Canon(k) == Canon(l) by { assert Mask(0, 1) == Mask(1, 1) == 0; }
    PrefixHypothesisExact(p, iset{k, l});
  }

  lemma SwapOver(p: Params, u: iset<Cidr>, k: V4Cidr, l: V4Cidr)
    requires k in u && l in u
    ensures forall e :: e in Swap(p, k, l) ==> Over(u, e)
  {
  }
}
