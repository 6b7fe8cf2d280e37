/** What the pool loop of `Parse` accepts and makes of it, field by field from the raw pools. */
module ConfigMeaning {
  import opened Net
  import opened Bytes
  import opened Config

  // ---------- Acceptable files ----------

  /** Prefix k of address text j contains the address. */
  ghost predicate Reads(d: Decoders, addresses: seq<string>, j: int, k: int, ip: Ip) {
    && 0 <= j < |addresses| && d.cidrs(addresses[j]).Some?
    && 0 <= k < |d.cidrs(addresses[j]).value| && Contains(d.cidrs(addresses[j]).value[k], ip)
  }

  ghost predicate PoolReads(d: Decoders, ps: seq<RawPool>, i: int, j: int, k: int, ip: Ip) {
    0 <= i < |ps| && Reads(d, ps[i].addresses, j, k, ip)
  }

  /** No address lies in two prefixes that the texts of the file stand for. */
  ghost predicate PoolsApart(d: Decoders, ps: seq<RawPool>) {
    forall i, j, k, i', j', k', ip :: PoolReads(d, ps, i, j, k, ip) && PoolReads(d, ps, i', j', k', ip) ==>
      i == i' && j == j' && k == k'
  }

  ghost predicate Length(raw: RawAd, n: int) {
    raw.aggLen == Some(n) || (raw.aggLen.None? && n == 32)
  }

  /** The text names a community of the file or, failing that, is one in numbers. */
  ghost predicate Community(d: Decoders, text: string, v: U32) {
    if text in d.named then d.named[text] == v else d.community(text) == Some(v)
  }

  /** An entry whose length fits IPv4 and every prefix of the pool, with communities that exist. */
  ghost predicate AdAcceptable(d: Decoders, p: RawPool, raw: RawAd) {
    && (forall n :: Length(raw, n) ==> n <= 32)
    && (forall n, a, c :: Length(raw, n) && a in p.addresses && d.cidrs(a).Some? && c in d.cidrs(a).value ==> c.len <= n)
    && (forall text :: text in raw.communities ==> exists v :: Community(d, text, v))
  }

  ghost predicate PoolAcceptable(d: Decoders, p: RawPool) {
    && p.name != "" && p.addresses != []
    && (forall a :: a in p.addresses ==> d.cidrs(a).Some?)
    && (p.protocol == "layer2" || p.protocol == "bgp")
    && (p.protocol == "layer2" ==> p.ads == [])
    && (p.protocol == "bgp" ==> forall raw :: raw in p.ads ==> AdAcceptable(d, p, raw))
  }

  ghost predicate Acceptable(d: Decoders, ps: seq<RawPool>) {
    && (forall i :: 0 <= i < |ps| ==> PoolAcceptable(d, ps[i]))
    && (forall i, j :: 0 <= i < j < |ps| ==> ps[i].name != ps[j].name)
    && PoolsApart(d, ps)
  }

  // ---------- What an accepted file means ----------

  /** The text stands for the prefixes at these places. */
  ghost predicate Slice(d: Decoders, text: string, cidrs: seq<Cidr>, lo: nat, hi: nat) {
    lo <= hi <= |cidrs| && d.cidrs(text) == Some(cidrs[lo..hi])
  }

  /** The prefixes are those of the texts, text by text in file order. */
  ghost predicate Spliced(d: Decoders, addresses: seq<string>, cuts: seq<nat>, cidrs: seq<Cidr>) {
    && |cuts| == |addresses| + 1 && cuts[0] == 0 && cuts[|addresses|] == |cidrs|
    && forall j :: 0 <= j < |addresses| ==> Slice(d, addresses[j], cidrs, cuts[j], cuts[j + 1])
  }

  ghost predicate AdMeans(d: Decoders, raw: RawAd, ad: BgpAd) {
    && Length(raw, ad.aggLen)
    && (raw.localPref == Some(ad.localPref) || (raw.localPref.None? && ad.localPref == 0))
    && (forall v :: v in ad.communities <==> exists text :: text in raw.communities && Community(d, text, v))
  }

  ghost predicate AdsMean(d: Decoders, p: RawPool, ads: seq<BgpAd>) {
    if p.protocol != "bgp" then ads == []
    else if p.ads == [] then ads == [BgpAd(32, 0, {})]
    else |ads| == |p.ads| && forall i :: 0 <= i < |ads| ==> AdMeans(d, p.ads[i], ads[i])
  }

  ghost predicate PoolMeans(d: Decoders, p: RawPool, pool: Pool) {
    && pool.protocol == p.protocol && pool.avoidBuggy == p.avoidBuggy
    && pool.autoAssign == (p.autoAssign != Some(false))
    && (exists cuts :: Spliced(d, p.addresses, cuts, pool.cidrs))
    && AdsMean(d, p, pool.ads)
  }

  // ---------- Prefixes of texts ----------

  ghost predicate Holds(cs: seq<Cidr>, ip: Ip) {
    exists f :: 0 <= f < |cs| && Contains(cs[f], ip)
  }

  lemma HoldsEither(a: seq<Cidr>, b: seq<Cidr>, ip: Ip)
    ensures Holds(a + b, ip) <==> Holds(a, ip) || Holds(b, ip)
  {
    hide Contains;
    if f :| 0 <= f < |a| && Contains(a[f], ip) {
      assert (a + b)[f] == a[f];
    }
    if f :| 0 <= f < |b| && Contains(b[f], ip) {
      assert (a + b)[|a| + f] == b[f];
    }
  }

  lemma SharedWhere(a: seq<Cidr>, b: seq<Cidr>, i: int, j: int, ip: Ip)
    requires 0 <= i < j < |a + b| && Contains((a + b)[i], ip) && Contains((a + b)[j], ip)
    ensures !NoSharedAddress(a) || !NoSharedAddress(b) || (Holds(a, ip) && Holds(b, ip))
  {
    hide Contains;
    var n := |a|;
    if j < n {
      assert Contains(a[i], ip) && Contains(a[j], ip);
    } else if i < n {
      assert Contains(a[i], ip) && Contains(b[j - n], ip);
    } else {
      assert Contains(b[i - n], ip) && Contains(b[j - n], ip);
    }
  }

  lemma SharedAcross(a: seq<Cidr>, b: seq<Cidr>, ip: Ip)
    requires Holds(a, ip) && Holds(b, ip)
    ensures !NoSharedAddress(a + b)
  {
    hide Contains;
    var i :| 0 <= i < |a| && Contains(a[i], ip);
    var j :| 0 <= j < |b| && Contains(b[j], ip);
    assert Contains((a + b)[i], ip) && Contains((a + b)[|a| + j], ip);
  }

  lemma ApartParts(a: seq<Cidr>, b: seq<Cidr>)
    requires NoSharedAddress(a + b)
    ensures NoSharedAddress(a) && NoSharedAddress(b)
  {
    hide Contains;
    var c := a + b;
    forall i, j, ip | 0 <= i < j < |a|
      ensures !(Contains(a[i], ip) && Contains(a[j], ip))
    {
      assert c[i] == a[i] && c[j] == a[j];
    }
    forall i, j, ip | 0 <= i < j < |b|
      ensures !(Contains(b[i], ip) && Contains(b[j], ip))
    {
      assert c[|a| + i] == b[i] && c[|a| + j] == b[j];
    }
  }

  lemma ApartBoth(a: seq<Cidr>, b: seq<Cidr>)
    ensures NoSharedAddress(a + b)
      <==> NoSharedAddress(a) && NoSharedAddress(b) && forall ip :: !(Holds(a, ip) && Holds(b, ip))
  {
    hide Contains, Holds;
    if NoSharedAddress(a + b) {
      ApartParts(a, b);
    } else {
      var i, j, ip :| 0 <= i < j < |a + b| && Contains((a + b)[i], ip) && Contains((a + b)[j], ip);
      SharedWhere(a, b, i, j, ip);
    }
    if ip :| Holds(a, ip) && Holds(b, ip) {
      SharedAcross(a, b, ip);
    }
  }

  /** No address lies in two prefixes of the texts. */
  ghost predicate TextsApart(d: Decoders, addresses: seq<string>) {
    forall j, k, j', k', ip :: Reads(d, addresses, j, k, ip) && Reads(d, addresses, j', k', ip) ==> j == j' && k == k'
  }

  ghost predicate ReadsSome(d: Decoders, addresses: seq<string>, ip: Ip) {
    exists j, k :: Reads(d, addresses, j, k, ip)
  }

  /** The prefixes of one text. */
  function PartOf(d: Decoders, text: string): seq<Cidr> {
    if d.cidrs(text).Some? then d.cidrs(text).value else []
  }

  lemma ReadsSnoc(d: Decoders, init: seq<string>, last: string, j: int, k: int, ip: Ip)
    ensures Reads(d, init + [last], j, k, ip) <==>
      Reads(d, init, j, k, ip) || (j == |init| && 0 <= k < |PartOf(d, last)| && Contains(PartOf(d, last)[k], ip))
  {
    hide Contains;
  }

  lemma CidrsSnoc(d: Decoders, init: seq<string>, last: string)
    ensures CidrsOf(d, init + [last]) == CidrsOf(d, init) + PartOf(d, last)
  {
    assert (init + [last])[..|init|] == init;
  }

  lemma {:induction false} ReadsExact(d: Decoders, addresses: seq<string>, ip: Ip)
    ensures Holds(CidrsOf(d, addresses), ip) <==> ReadsSome(d, addresses, ip)
  {
    hide Reads, CidrsOf;
    if addresses == [] {
      NothingRead(d, ip);
    } else {
      var init, last := addresses[..|addresses| - 1], addresses[|addresses| - 1];
      assert addresses == init + [last];
      ReadsExact(d, init, ip);
      CidrsSnoc(d, init, last);
      HoldsEither(CidrsOf(d, init), PartOf(d, last), ip);
      SomeSnoc(d, init, last, ip);
    }
  }

  lemma NothingRead(d: Decoders, ip: Ip)
    ensures CidrsOf(d, []) == [] && !ReadsSome(d, [], ip) && !Holds([], ip)
  {
  }

  lemma SomeSnoc(d: Decoders, init: seq<string>, last: string, ip: Ip)
    ensures ReadsSome(d, init + [last], ip) <==> ReadsSome(d, init, ip) || Holds(PartOf(d, last), ip)
  {
    hide Reads, Contains, PartOf;
    if j, k :| Reads(d, init + [last], j, k, ip) {
      ReadsSnoc(d, init, last, j, k, ip);
    }
    if j, k :| Reads(d, init, j, k, ip) {
      ReadsSnoc(d, init, last, j, k, ip);
    }
    if k :| 0 <= k < |PartOf(d, last)| && Contains(PartOf(d, last)[k], ip) {
      ReadsSnoc(d, init, last, |init|, k, ip);
    }
  }

  lemma {:induction false} TextsApartExact(d: Decoders, addresses: seq<string>)
    ensures NoSharedAddress(CidrsOf(d, addresses)) <==> TextsApart(d, addresses)
  {
    hide Reads, CidrsOf, NoSharedAddress, Holds, TextsApart, ReadsSome;
    if addresses == [] {
      NoTexts(d);
    } else {
      var init, last := addresses[..|addresses| - 1], addresses[|addresses| - 1];
      assert addresses == init + [last];
      TextsApartExact(d, init);
      CidrsSnoc(d, init, last);
      ApartBoth(CidrsOf(d, init), PartOf(d, last));
      forall ip
        ensures Holds(CidrsOf(d, init), ip) <==> ReadsSome(d, init, ip)
      {
        ReadsExact(d, init, ip);
      }
      TextsSnoc(d, init, last);
    }
  }

  lemma NoTexts(d: Decoders)
    ensures NoSharedAddress(CidrsOf(d, [])) && TextsApart(d, [])
  {
  }

  lemma TextsSnoc(d: Decoders, init: seq<string>, last: string)
    ensures TextsApart(d, init + [last])
      <==> TextsApart(d, init) && NoSharedAddress(PartOf(d, last))
           && forall ip :: !(ReadsSome(d, init, ip) && Holds(PartOf(d, last), ip))
  {
    if TextsApart(d, init + [last]) {
      TextsSplit(d, init, last);
    }
    if TextsApart(d, init) && NoSharedAddress(PartOf(d, last))
       && forall ip :: !(ReadsSome(d, init, ip) && Holds(PartOf(d, last), ip)) {
      TextsJoin(d, init, last);
    }
  }

  lemma TextsSplit(d: Decoders, init: seq<string>, last: string)
    requires TextsApart(d, init + [last])
    ensures TextsApart(d, init) && NoSharedAddress(PartOf(d, last))
    ensures forall ip :: !(ReadsSome(d, init, ip) && Holds(PartOf(d, last), ip))
  {
    hide Reads, Contains, PartOf;
    var all, n := init + [last], |init|;
    forall j, k, ip
      ensures Reads(d, init, j, k, ip) ==> Reads(d, all, j, k, ip) && j != n
    {
      ReadsSnoc(d, init, last, j, k, ip);
      ReadsBelow(d, init, j, k, ip);
    }
    forall k, ip | 0 <= k < |PartOf(d, last)| && Contains(PartOf(d, last)[k], ip)
      ensures Reads(d, all, n, k, ip)
    {
      ReadsSnoc(d, init, last, n, k, ip);
    }
  }

  lemma ReadsBelow(d: Decoders, addresses: seq<string>, j: int, k: int, ip: Ip)
    ensures Reads(d, addresses, j, k, ip) ==> j < |addresses|
  {
  }

  lemma TextsJoin(d: Decoders, init: seq<string>, last: string)
    requires TextsApart(d, init) && NoSharedAddress(PartOf(d, last))
    requires forall ip :: !(ReadsSome(d, init, ip) && Holds(PartOf(d, last), ip))
    ensures TextsApart(d, init + [last])
  {
    hide Reads, Contains, PartOf;
    var all := init + [last];
    forall j, k, j', k', ip | Reads(d, all, j, k, ip) && Reads(d, all, j', k', ip)
      ensures j == j' && k == k'
    {
      ReadsSnoc(d, init, last, j, k, ip);
      ReadsSnoc(d, init, last, j', k', ip);
      assert Reads(d, init, j, k, ip) || Reads(d, init, j', k', ip) ==> ReadsSome(d, init, ip);
      assert j == |init| && !Reads(d, init, j, k, ip) ==> Holds(PartOf(d, last), ip);
      assert j' == |init| && !Reads(d, init, j', k', ip) ==> Holds(PartOf(d, last), ip);
    }
  }

  // ---------- Prefixes of files ----------

  ghost predicate FileReads(d: Decoders, ps: seq<RawPool>, ip: Ip) {
    exists i, j, k :: PoolReads(d, ps, i, j, k, ip)
  }

  lemma PoolSnoc(d: Decoders, init: seq<RawPool>, last: RawPool, i: int, j: int, k: int, ip: Ip)
    ensures PoolReads(d, init + [last], i, j, k, ip) <==>
      PoolReads(d, init, i, j, k, ip) || (i == |init| && Reads(d, last.addresses, j, k, ip))
  {
    hide Reads;
  }

  lemma FileSnoc(d: Decoders, init: seq<RawPool>, last: RawPool, ip: Ip)
    ensures FileReads(d, init + [last], ip) <==> FileReads(d, init, ip) || ReadsSome(d, last.addresses, ip)
  {
    hide PoolReads, Reads;
    if i, j, k :| PoolReads(d, init + [last], i, j, k, ip) {
      PoolSnoc(d, init, last, i, j, k, ip);
    }
    if i, j, k :| PoolReads(d, init, i, j, k, ip) {
      PoolSnoc(d, init, last, i, j, k, ip);
    }
    if j, k :| Reads(d, last.addresses, j, k, ip) {
      PoolSnoc(d, init, last, |init|, j, k, ip);
    }
  }

  lemma {:induction false} FlatExact(d: Decoders, ps: seq<RawPool>, ip: Ip)
    ensures Holds(FlatCidrs(d, ps), ip) <==> FileReads(d, ps, ip)
  {
    hide PoolReads, ReadsSome, FileReads;
    if ps == [] {
      assert !FileReads(d, ps, ip) by { NoFile(d, ip); }
    } else {
      var init, last := ps[..|ps| - 1], ps[|ps| - 1];
      assert ps == init + [last];
      FlatExact(d, init, ip);
      ReadsExact(d, last.addresses, ip);
      HoldsEither(FlatCidrs(d, init), CidrsOf(d, last.addresses), ip);
      FileSnoc(d, init, last, ip);
    }
  }

  lemma NoFile(d: Decoders, ip: Ip)
    ensures !FileReads(d, [], ip)
  {
  }

  /** The pairwise test on the flat list is the condition on the file. */
  lemma {:induction false} PoolsApartExact(d: Decoders, ps: seq<RawPool>)
    ensures NoSharedAddress(FlatCidrs(d, ps)) <==> PoolsApart(d, ps)
  {
    hide PoolReads, NoSharedAddress, Holds, PoolsApart, FileReads, ReadsSome, TextsApart, CidrsOf;
    if ps == [] {
      NoPools(d);
    } else {
      var init, last := ps[..|ps| - 1], ps[|ps| - 1];
      assert ps == init + [last];
      PoolsApartExact(d, init);
      TextsApartExact(d, last.addresses);
      ApartBoth(FlatCidrs(d, init), CidrsOf(d, last.addresses));
      forall ip
        ensures Holds(FlatCidrs(d, init), ip) <==> FileReads(d, init, ip)
        ensures Holds(CidrsOf(d, last.addresses), ip) <==> ReadsSome(d, last.addresses, ip)
      {
        FlatExact(d, init, ip);
        ReadsExact(d, last.addresses, ip);
      }
      PoolsSnoc(d, init, last);
    }
  }

  lemma NoPools(d: Decoders)
    ensures NoSharedAddress(FlatCidrs(d, [])) && PoolsApart(d, [])
  {
  }

  lemma PoolsSnoc(d: Decoders, init: seq<RawPool>, last: RawPool)
    ensures PoolsApart(d, init + [last])
      <==> PoolsApart(d, init) && TextsApart(d, last.addresses)
           && forall ip :: !(FileReads(d, init, ip) && ReadsSome(d, last.addresses, ip))
  {
    if PoolsApart(d, init + [last]) {
      PoolsSplit(d, init, last);
    }
    if PoolsApart(d, init) && TextsApart(d, last.addresses)
       && forall ip :: !(FileReads(d, init, ip) && ReadsSome(d, last.addresses, ip)) {
      PoolsJoin(d, init, last);
    }
  }

  lemma PoolsSplit(d: Decoders, init: seq<RawPool>, last: RawPool)
    requires PoolsApart(d, init + [last])
    ensures PoolsApart(d, init) && TextsApart(d, last.addresses)
    ensures forall ip :: !(FileReads(d, init, ip) && ReadsSome(d, last.addresses, ip))
  {
    hide PoolReads, Reads;
    var all, n := init + [last], |init|;
    forall i, j, k, ip
      ensures PoolReads(d, init, i, j, k, ip) ==> PoolReads(d, all, i, j, k, ip) && i != n
    {
      PoolSnoc(d, init, last, i, j, k, ip);
      PoolBelow(d, init, i, j, k, ip);
    }
    forall j, k, ip
      ensures Reads(d, last.addresses, j, k, ip) ==> PoolReads(d, all, n, j, k, ip)
    {
      PoolSnoc(d, init, last, n, j, k, ip);
    }
  }

  lemma PoolBelow(d: Decoders, ps: seq<RawPool>, i: int, j: int, k: int, ip: Ip)
    ensures PoolReads(d, ps, i, j, k, ip) ==> i < |ps|
  {
  }

  lemma PoolsJoin(d: Decoders, init: seq<RawPool>, last: RawPool)
    requires PoolsApart(d, init) && TextsApart(d, last.addresses)
    requires forall ip :: !(FileReads(d, init, ip) && ReadsSome(d, last.addresses, ip))
    ensures PoolsApart(d, init + [last])
  {
    hide PoolReads, Reads;
    var all := init + [last];
    forall i, j, k, i', j', k', ip | PoolReads(d, all, i, j, k, ip) && PoolReads(d, all, i', j', k', ip)
      ensures i == i' && j == j' && k == k'
    {
      PoolSnoc(d, init, last, i, j, k, ip);
      PoolSnoc(d, init, last, i', j', k', ip);
      assert PoolReads(d, init, i, j, k, ip) || PoolReads(d, init, i', j', k', ip) ==> FileReads(d, init, ip);
      assert Reads(d, last.addresses, j, k, ip) || Reads(d, last.addresses, j', k', ip) ==>
        ReadsSome(d, last.addresses, ip);
    }
  }

  // ---------- Pools ----------

  lemma CommunityExact(d: Decoders, text: string, v: U32)
    ensures Community(d, text, v) <==> CommunityOf(d, text) == Some(v)
  {
  }

  lemma {:induction false} CidrsRead(d: Decoders, addresses: seq<string>, c: Cidr)
    ensures c in CidrsOf(d, addresses) <==> exists a :: a in addresses && d.cidrs(a).Some? && c in d.cidrs(a).value
  {
    if addresses != [] {
      var init, last := addresses[..|addresses| - 1], addresses[|addresses| - 1];
      CidrsRead(d, init, c);
      assert addresses == init + [last];
      if a :| a in addresses && d.cidrs(a).Some? && c in d.cidrs(a).value {
        assert a in init || a == last;
      }
    }
  }

  lemma AdLengths(d: Decoders, p: RawPool, raw: RawAd)
    ensures AggLen(raw) <= 32 && (forall c :: c in CidrsOf(d, p.addresses) ==> c.len <= AggLen(raw))
      <==> (forall n :: Length(raw, n) ==> n <= 32)
           && forall n, a, c :: Length(raw, n) && a in p.addresses && d.cidrs(a).Some? && c in d.cidrs(a).value ==>
             c.len <= n
  {
    var cidrs, n := CidrsOf(d, p.addresses), AggLen(raw);
    assert Length(raw, n);
    forall n' | Length(raw, n')
      ensures n' == n
    {
    }
    forall a, c | a in p.addresses && d.cidrs(a).Some? && c in d.cidrs(a).value
      ensures c in cidrs
    {
      CidrsRead(d, p.addresses, c);
    }
    forall c | c in cidrs
      ensures exists a :: a in p.addresses && d.cidrs(a).Some? && c in d.cidrs(a).value
    {
      CidrsRead(d, p.addresses, c);
    }
  }

  lemma AdExact(d: Decoders, p: RawPool, raw: RawAd)
    ensures AdOk(d, raw, CidrsOf(d, p.addresses)) <==> AdAcceptable(d, p, raw)
    ensures AdOk(d, raw, CidrsOf(d, p.addresses)) ==> AdMeans(d, raw, AdOf(d, raw))
  {
    hide Community, CommunityOf, CidrsOf;
    AdLengths(d, p, raw);
    AdCommunities(d, raw);
  }

  lemma AdCommunities(d: Decoders, raw: RawAd)
    ensures (forall c :: c in raw.communities ==> CommunityOf(d, c).Some?)
      <==> forall text :: text in raw.communities ==> exists v :: Community(d, text, v)
    ensures forall v :: v in AdOf(d, raw).communities <==>
      exists text :: text in raw.communities && Community(d, text, v)
  {
    hide Community, CommunityOf;
    forall text, v: U32
      ensures Community(d, text, v) <==> CommunityOf(d, text) == Some(v)
    {
      CommunityExact(d, text, v);
    }
    forall text | text in raw.communities
      ensures CommunityOf(d, text).Some? <==> exists v :: Community(d, text, v)
    {
      if CommunityOf(d, text).Some? {
        assert Community(d, text, CommunityOf(d, text).value);
      }
    }
    forall v
      ensures v in AdOf(d, raw).communities <==> exists text :: text in raw.communities && Community(d, text, v)
    {
      if text :| text in raw.communities && Community(d, text, v) {
        assert CommunityOf(d, text).value in AdOf(d, raw).communities;
      }
    }
  }

  lemma PoolExact(d: Decoders, p: RawPool)
    ensures PoolOk(d, p) <==> PoolAcceptable(d, p)
  {
    hide AdOk, AdAcceptable, CidrsOf;
    forall raw | raw in p.ads
      ensures AdOk(d, raw, CidrsOf(d, p.addresses)) <==> AdAcceptable(d, p, raw)
    {
      AdExact(d, p, raw);
    }
  }

  lemma {:induction false} CidrsSpliced(d: Decoders, addresses: seq<string>) returns (cuts: seq<nat>)
    requires forall a :: a in addresses ==> d.cidrs(a).Some?
    ensures Spliced(d, addresses, cuts, CidrsOf(d, addresses))
  {
    if addresses == [] {
      cuts := [0];
    } else {
      var n := |addresses| - 1;
      var init, last := addresses[..n], addresses[n];
      var before := CidrsSpliced(d, init);
      var cidrs := CidrsOf(d, addresses);
      cuts := before + [|cidrs|];
      forall j | 0 <= j < |addresses|
        ensures Slice(d, addresses[j], cidrs, cuts[j], cuts[j + 1])
      {
        if j < n {
          assert init[j] == addresses[j] && Slice(d, init[j], CidrsOf(d, init), before[j], before[j + 1]);
          assert cidrs[cuts[j]..cuts[j + 1]] == CidrsOf(d, init)[before[j]..before[j + 1]];
        } else {
          assert last in addresses;
          assert cidrs[cuts[n]..cuts[n + 1]] == d.cidrs(last).value;
        }
      }
    }
  }

  lemma PoolMeant(d: Decoders, p: RawPool)
    requires PoolOk(d, p)
    ensures PoolMeans(d, p, PoolOf(d, p))
  {
    hide AdOk, AdMeans, CidrsOf, AdOf, Spliced;
    var cuts := CidrsSpliced(d, p.addresses);
    if p.protocol == "bgp" && p.ads != [] {
      var ads := PoolOf(d, p).ads;
      forall i | 0 <= i < |ads|
        ensures AdMeans(d, p.ads[i], ads[i])
      {
        assert p.ads[i] in p.ads;
        AdExact(d, p, p.ads[i]);
      }
    }
  }

  /** The file is accepted exactly if every pool is acceptable by itself, names differ and no
      address lies in two prefixes of its texts. The result then has exactly the pools of the
      file, each meaning what the file says, and an address lies in a pool exactly if some text
      of that pool stands for a prefix around it. */
  lemma ParseMeans(d: Decoders, ps: seq<RawPool>)
    ensures Accepts(d, ps) <==> Acceptable(d, ps)
    ensures Accepts(d, ps) ==> (forall n :: n in PoolsOf(d, ps) <==> exists i :: 0 <= i < |ps| && ps[i].name == n)
    ensures Accepts(d, ps) ==> forall i :: 0 <= i < |ps| ==>
      && ps[i].name in PoolsOf(d, ps) && PoolMeans(d, ps[i], PoolsOf(d, ps)[ps[i].name])
      && forall ip :: Holds(PoolsOf(d, ps)[ps[i].name].cidrs, ip) <==> ReadsSome(d, ps[i].addresses, ip)
  {
    hide PoolOk, PoolAcceptable, NoSharedAddress, PoolsApart, PoolMeans, Holds, ReadsSome, PoolOf, CidrsOf;
    PoolsApartExact(d, ps);
    forall i | 0 <= i < |ps|
      ensures PoolOk(d, ps[i]) <==> PoolAcceptable(d, ps[i])
    {
      PoolExact(d, ps[i]);
    }
    forall n
      ensures n in PoolsOf(d, ps) <==> exists i :: 0 <= i < |ps| && ps[i].name == n
    {
      PoolsOfKeys(d, ps, n);
    }
    if Accepts(d, ps) {
      forall i | 0 <= i < |ps|
        ensures ps[i].name in PoolsOf(d, ps) && PoolMeans(d, ps[i], PoolsOf(d, ps)[ps[i].name])
        ensures forall ip :: Holds(PoolsOf(d, ps)[ps[i].name].cidrs, ip) <==> ReadsSome(d, ps[i].addresses, ip)
      {
        EntryInPools(d, ps, i);
        PoolMeant(d, ps[i]);
        PoolRead(d, ps[i]);
      }
    }
  }

  lemma PoolRead(d: Decoders, p: RawPool)
    ensures forall ip :: Holds(PoolOf(d, p).cidrs, ip) <==> ReadsSome(d, p.addresses, ip)
  {
    hide Holds, ReadsSome, CidrsOf, AdsOf;
    forall ip
      ensures Holds(CidrsOf(d, p.addresses), ip) <==> ReadsSome(d, p.addresses, ip)
    {
      ReadsExact(d, p.addresses, ip);
    }
  }
}
