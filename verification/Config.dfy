/** The address-pool half of the configuration (internal/config/config.go): CIDR
    overlap, aggregation checks and the pool loop of `Parse`. Text decoding (YAML,
    CIDR and community syntax) is a parameter. */
module Config {
  import opened Net
  import opened Bytes

  datatype BgpAd = BgpAd(aggLen: int, localPref: U32, communities: set<U32>)

  datatype Pool = Pool(protocol: string, cidrs: seq<Cidr>, avoidBuggy: bool, autoAssign: bool, ads: seq<BgpAd>)

  datatype RawAd = RawAd(aggLen: Option<int>, localPref: Option<U32>, communities: seq<string>)

  datatype RawPool = RawPool(protocol: string, name: string, addresses: seq<string>,
                             avoidBuggy: bool, autoAssign: Option<bool>, ads: seq<RawAd>)

  /** The text decoders, and the named communities of the configuration file. */
  datatype Decoders = Decoders(cidrs: string -> Option<seq<Cidr>>, community: string -> Option<U32>,
                               named: map<string, U32>)

  type PoolMap = map<string, Pool>

  /** `net.ParseCIDR` and `ipaddr.Summarize` only produce prefixes with clear host bits. */
  ghost predicate SoundDecoders(d: Decoders) {
    forall s :: d.cidrs(s).Some? ==> AllAligned(d.cidrs(s).value)
  }

  // ---------- CIDR overlap ----------

  predicate CidrContainsCidr(outer: Cidr, inner: Cidr) {
    || (outer.len == inner.len && Ip(outer.fam, outer.base) == Ip(inner.fam, inner.base))
    || (outer.len < inner.len && Contains(outer, Ip(inner.fam, inner.base)))
  }

  predicate CidrsOverlap(a: Cidr, b: Cidr) {
    CidrContainsCidr(a, b) || CidrContainsCidr(b, a)
  }

  /** The longer of two prefixes that share an address lies inside the shorter. */
  lemma Nested(outer: Cidr, inner: Cidr, ip: Ip)
    requires Aligned(outer) && Aligned(inner) && outer.len <= inner.len
    requires Contains(outer, ip) && Contains(inner, ip)
    ensures Contains(outer, Ip(inner.fam, inner.base))
    ensures Mask(ip.n, HostBits(inner)) == inner.base
  {
    assert Mask(ip.n, HostBits(inner)) == inner.base;
    MaskMask(ip.n, HostBits(inner), HostBits(outer));
  }

  /** The overlap test is exact: it holds just when some address lies in both prefixes. */
  lemma OverlapExact(a: Cidr, b: Cidr)
    requires Aligned(a) && Aligned(b)
    ensures CidrsOverlap(a, b) <==> exists ip :: Contains(a, ip) && Contains(b, ip)
  {
    if CidrsOverlap(a, b) {
      var ip := if CidrContainsCidr(a, b) then Ip(b.fam, b.base) else Ip(a.fam, a.base);
      assert Contains(a, ip) && Contains(b, ip);
    }
    if ip :| Contains(a, ip) && Contains(b, ip) {
      if a.len <= b.len {
        Nested(a, b, ip);
      } else {
        Nested(b, a, ip);
      }
    }
  }

  // ---------- What an acceptable configuration is ----------

  function CidrsOf(d: Decoders, addresses: seq<string>): (r: seq<Cidr>) {
    if addresses == [] then [] else
      var init := addresses[..|addresses| - 1];
      match d.cidrs(addresses[|addresses| - 1])
      case None => CidrsOf(d, init)
      case Some(cs) => CidrsOf(d, init) + cs
  }

  function AggLen(ad: RawAd): int {
    if ad.aggLen.Some? then ad.aggLen.value else 32
  }

  /** A named community takes precedence over the numeric notation. */
  function CommunityOf(d: Decoders, c: string): Option<U32> {
    if c in d.named then Some(d.named[c]) else d.community(c)
  }

  ghost predicate AdOk(d: Decoders, ad: RawAd, cidrs: seq<Cidr>) {
    && AggLen(ad) <= 32
    && (forall c :: c in cidrs ==> c.len <= AggLen(ad))
    && (forall c :: c in ad.communities ==> CommunityOf(d, c).Some?)
  }

  ghost function AdOf(d: Decoders, ad: RawAd): BgpAd {
    BgpAd(AggLen(ad),
          if ad.localPref.Some? then ad.localPref.value else 0,
          set c | c in ad.communities && CommunityOf(d, c).Some? :: CommunityOf(d, c).value)
  }

  ghost function AdsOf(d: Decoders, ads: seq<RawAd>): seq<BgpAd> {
    if ads == [] then [BgpAd(32, 0, {})] else seq(|ads|, i requires 0 <= i < |ads| => AdOf(d, ads[i]))
  }

  ghost predicate PoolOk(d: Decoders, p: RawPool) {
    && p.name != ""
    && p.addresses != []
    && (forall a :: a in p.addresses ==> d.cidrs(a).Some?)
    && match p.protocol
       case "layer2" => p.ads == []
       case "bgp" => forall ad :: ad in p.ads ==> AdOk(d, ad, CidrsOf(d, p.addresses))
       case _ => false
  }

  ghost function PoolOf(d: Decoders, p: RawPool): Pool {
    Pool(p.protocol, CidrsOf(d, p.addresses), p.avoidBuggy,
         if p.autoAssign.Some? then p.autoAssign.value else true,
         if p.protocol == "bgp" then AdsOf(d, p.ads) else [])
  }

  /** All prefixes of all pools, in file order. */
  ghost function FlatCidrs(d: Decoders, ps: seq<RawPool>): seq<Cidr> {
    if ps == [] then [] else FlatCidrs(d, ps[..|ps| - 1]) + CidrsOf(d, ps[|ps| - 1].addresses)
  }

  ghost function PoolsOf(d: Decoders, ps: seq<RawPool>): PoolMap {
    if ps == [] then map[] else
      var last := ps[|ps| - 1];
      PoolsOf(d, ps[..|ps| - 1])[last.name := PoolOf(d, last)]
  }

  /** No address lies in two entries of the list. */
  ghost predicate NoSharedAddress(cs: seq<Cidr>) {
    forall i, j, ip :: 0 <= i < j < |cs| ==> !(Contains(cs[i], ip) && Contains(cs[j], ip))
  }

  ghost predicate AllAligned(cs: seq<Cidr>) {
    forall i :: 0 <= i < |cs| ==> Aligned(cs[i])
  }

  ghost predicate Accepts(d: Decoders, ps: seq<RawPool>) {
    && (forall i :: 0 <= i < |ps| ==> PoolOk(d, ps[i]))
    && (forall i, j :: 0 <= i < j < |ps| ==> ps[i].name != ps[j].name)
    && NoSharedAddress(FlatCidrs(d, ps))
  }

  lemma {:induction false} CidrsAligned(d: Decoders, addresses: seq<string>)
    requires SoundDecoders(d)
    ensures AllAligned(CidrsOf(d, addresses))
  {
    if addresses != [] {
      CidrsAligned(d, addresses[..|addresses| - 1]);
    }
  }

  lemma {:induction false} FlatAligned(d: Decoders, ps: seq<RawPool>)
    requires SoundDecoders(d)
    ensures AllAligned(FlatCidrs(d, ps))
  {
    if ps != [] {
      FlatAligned(d, ps[..|ps| - 1]);
      CidrsAligned(d, ps[|ps| - 1].addresses);
    }
  }

  lemma {:induction false} FlatPrefix(d: Decoders, ps: seq<RawPool>, k: nat)
    requires k <= |ps|
    ensures FlatCidrs(d, ps[..k]) <= FlatCidrs(d, ps)
    decreases |ps| - k
  {
    if k == |ps| {
      assert ps[..k] == ps;
    } else {
      FlatPrefix(d, ps, k + 1);
      assert ps[..k + 1][..k] == ps[..k];
    }
  }

  ghost predicate NoOverlap(cs: seq<Cidr>) {
    forall i, j :: 0 <= i < j < |cs| ==> !CidrsOverlap(cs[j], cs[i])
  }

  lemma NoOverlapExact(cs: seq<Cidr>)
    requires AllAligned(cs)
    ensures NoOverlap(cs) <==> NoSharedAddress(cs)
  {
    forall i, j | 0 <= i < j < |cs|
      ensures !CidrsOverlap(cs[j], cs[i]) <==> forall ip :: !(Contains(cs[i], ip) && Contains(cs[j], ip))
    {
      OverlapExact(cs[j], cs[i]);
    }
  }

  // ---------- The parser ----------

  method ParseBgpAdvertisements(d: Decoders, ads: seq<RawAd>, cidrs: seq<Cidr>) returns (r: Option<seq<BgpAd>>)
    ensures r.Some? <==> forall ad :: ad in ads ==> AdOk(d, ad, cidrs)
    ensures r.Some? ==> r.value == AdsOf(d, ads)
  {
    if ads == [] {
      return Some([BgpAd(32, 0, {})]);
    }
    var ret: seq<BgpAd> := [];
    for i := 0 to |ads|
      invariant forall k :: 0 <= k < i ==> AdOk(d, ads[k], cidrs)
      invariant |ret| == i
      invariant forall k :: 0 <= k < i ==> ret[k] == AdOf(d, ads[k])
    {
      var raw := ads[i];
      var aggLen := 32;
      if raw.aggLen.Some? {
        aggLen := raw.aggLen.value;
      }
      if aggLen > 32 {
        assert !AdOk(d, ads[i], cidrs);
        return None;
      }
      for j := 0 to |cidrs|
        invariant forall k :: 0 <= k < j ==> cidrs[k].len <= aggLen
      {
        if aggLen < cidrs[j].len {
          assert cidrs[j] in cidrs && !AdOk(d, ads[i], cidrs);
          return None;
        }
      }
      var localPref: U32 := 0;
      if raw.localPref.Some? {
        localPref := raw.localPref.value;
      }
      var comms: set<U32> := {};
      for j := 0 to |raw.communities|
        invariant forall k :: 0 <= k < j ==> CommunityOf(d, raw.communities[k]).Some?
        invariant comms == set k | 0 <= k < j
          && CommunityOf(d, raw.communities[k]).Some? :: CommunityOf(d, raw.communities[k]).value
      {
        var c := raw.communities[j];
        if c in d.named {
          comms := comms + {d.named[c]};
        } else {
          match d.community(c) {
            case None =>
              assert c in raw.communities && !AdOk(d, ads[i], cidrs);
              return None;
            case Some(v) =>
              comms := comms + {v};
          }
        }
      }
      ret := ret + [BgpAd(aggLen, localPref, comms)];
      assert AdOf(d, raw).communities == comms;
    }
    return Some(ret);
  }

  method ParseAddressPool(d: Decoders, p: RawPool) returns (r: Option<Pool>)
    ensures r.Some? <==> PoolOk(d, p)
    ensures r.Some? ==> r.value == PoolOf(d, p)
  {
    if p.name == "" {
      return None;
    }
    var autoAssign := true;
    if p.autoAssign.Some? {
      autoAssign := p.autoAssign.value;
    }
    if |p.addresses| == 0 {
      return None;
    }
    var cidrs: seq<Cidr> := [];
    for i := 0 to |p.addresses|
      invariant forall k :: 0 <= k < i ==> d.cidrs(p.addresses[k]).Some?
      invariant cidrs == CidrsOf(d, p.addresses[..i])
    {
      assert p.addresses[..i + 1][..i] == p.addresses[..i];
      match d.cidrs(p.addresses[i]) {
        case None =>
          assert p.addresses[i] in p.addresses;
          return None;
        case Some(nets) =>
          cidrs := cidrs + nets;
      }
    }
    assert p.addresses[..|p.addresses|] == p.addresses;
    match p.protocol {
      case "layer2" =>
        if |p.ads| > 0 {
          return None;
        }
        return Some(Pool(p.protocol, cidrs, p.avoidBuggy, autoAssign, []));
      case "bgp" =>
        var ads := ParseBgpAdvertisements(d, p.ads, cidrs);
        if ads.None? {
          return None;
        }
        return Some(Pool(p.protocol, cidrs, p.avoidBuggy, autoAssign, ads.value));
      case _ =>
        return None;
    }
  }

  /** The inner loops of `Parse`: append the prefixes of one pool, unless one of them
      overlaps a prefix that is already there. */
  method AddCidrs(all: seq<Cidr>, cidrs: seq<Cidr>) returns (ok: bool, r: seq<Cidr>)
    requires NoOverlap(all)
    ensures ok <==> NoOverlap(all + cidrs)
    ensures ok ==> r == all + cidrs
  {
    r := all;
    for j := 0 to |cidrs|
      invariant r == all + cidrs[..j] && NoOverlap(r)
    {
      var cidr := cidrs[j];
      assert r + [cidr] <= all + cidrs;
      for m := 0 to |r|
        invariant forall k :: 0 <= k < m ==> !CidrsOverlap(cidr, r[k])
      {
        if CidrsOverlap(cidr, r[m]) {
          assert (all + cidrs)[|r|] == cidr && (all + cidrs)[m] == r[m];
          return false, r;
        }
      }
      r := r + [cidr];
    }
    assert r == all + cidrs;
    return true, r;
  }

  /** What the pool loop has established after the pools ps. */
  ghost predicate LoopAccepts(d: Decoders, ps: seq<RawPool>) {
    ps == [] || (
      var init, last := ps[..|ps| - 1], ps[|ps| - 1];
      && LoopAccepts(d, init)
      && PoolOk(d, last)
      && last.name !in PoolsOf(d, init)
      && NoOverlap(FlatCidrs(d, ps)))
  }

  lemma {:induction false} LoopAcceptsPrefix(d: Decoders, ps: seq<RawPool>, k: nat)
    requires k <= |ps| && LoopAccepts(d, ps)
    ensures LoopAccepts(d, ps[..k])
  {
    if k == |ps| {
      assert ps[..k] == ps;
    } else {
      LoopAcceptsPrefix(d, ps[..|ps| - 1], k);
      assert ps[..|ps| - 1][..k] == ps[..k];
    }
  }

  lemma {:induction false} PoolsOfKeys(d: Decoders, ps: seq<RawPool>, n: string)
    ensures n in PoolsOf(d, ps) <==> exists i :: 0 <= i < |ps| && ps[i].name == n
  {
    if ps != [] {
      var init := ps[..|ps| - 1];
      PoolsOfKeys(d, init, n);
      if n in PoolsOf(d, init) {
        var i :| 0 <= i < |init| && init[i].name == n;
        assert ps[i].name == n;
      } else if n in PoolsOf(d, ps) {
        assert ps[|ps| - 1].name == n;
      }
      if i :| 0 <= i < |ps| && ps[i].name == n {
        assert i < |init| ==> init[i].name == n;
      }
    }
  }

  lemma {:induction false} LoopAcceptsExact(d: Decoders, ps: seq<RawPool>)
    requires SoundDecoders(d)
    ensures LoopAccepts(d, ps) <==> Accepts(d, ps)
  {
    hide PoolOk, NoOverlap, SoundDecoders, AllAligned;
    FlatAligned(d, ps);
    NoOverlapExact(FlatCidrs(d, ps));
    if ps != [] {
      var init, last := ps[..|ps| - 1], ps[|ps| - 1];
      LoopAcceptsExact(d, init);
      PoolsOfKeys(d, init, last.name);
      FlatPrefix(d, ps, |ps| - 1);
      assert ps == init + [last];
    }
  }

  /** The pool loop of `Parse`: the configuration is accepted exactly when every pool
      is acceptable, names are distinct and no address lies in two prefixes. */
  method ParsePools(d: Decoders, raw: seq<RawPool>) returns (r: Option<PoolMap>)
    requires SoundDecoders(d)
    ensures r.Some? <==> Accepts(d, raw)
    ensures r.Some? ==> r.value == PoolsOf(d, raw)
  {
    LoopAcceptsExact(d, raw);
    var pools: PoolMap := map[];
    var all: seq<Cidr> := [];
    for i := 0 to |raw|
      invariant LoopAccepts(d, raw[..i])
      invariant pools == PoolsOf(d, raw[..i])
      invariant all == FlatCidrs(d, raw[..i]) && NoOverlap(all)
    {
      var p := raw[i];
      assert raw[..i + 1][..i] == raw[..i];
      assert LoopAccepts(d, raw) ==> LoopAccepts(d, raw[..i + 1]) by {
        if LoopAccepts(d, raw) {
          LoopAcceptsPrefix(d, raw, i + 1);
        }
      }
      var pool := ParseAddressPool(d, p);
      if pool.None? {
        return None;
      }
      if p.name in pools {
        return None;
      }
      var ok;
      ok, all := AddCidrs(all, pool.value.cidrs);
      if !ok {
        return None;
      }
      pools := pools[p.name := pool.value];
    }
    assert raw[..|raw|] == raw;
    return Some(pools);
  }

  // ---------- What an accepted configuration guarantees ----------

  ghost predicate Covers(pools: PoolMap, n: string, i: int, ip: Ip) {
    n in pools && 0 <= i < |pools[n].cidrs| && Contains(pools[n].cidrs[i], ip)
  }

  /** Every address lies in at most one prefix across all pools. */
  ghost predicate Exclusive(pools: PoolMap) {
    forall n, m, i, j, ip :: Covers(pools, n, i, ip) && Covers(pools, m, j, ip) ==> n == m && i == j
  }

  /** Aggregation never reaches outside a prefix of the pool. */
  ghost predicate AdsFit(p: Pool) {
    forall ad, c :: ad in p.ads && c in p.cidrs ==> c.len <= ad.aggLen <= 32
  }

  ghost predicate WellFormed(pools: PoolMap) {
    forall n :: n in pools ==> n != "" && AllAligned(pools[n].cidrs)
  }

  ghost predicate GoodPools(pools: PoolMap) {
    WellFormed(pools) && Exclusive(pools)
  }

  /** Prefixes of the pools read so far are prefixes of the flat list. */
  lemma {:induction false} CoversFlat(d: Decoders, ps: seq<RawPool>, n: string, i: int, ip: Ip)
    requires LoopAccepts(d, ps) && Covers(PoolsOf(d, ps), n, i, ip)
    ensures exists k :: 0 <= k < |FlatCidrs(d, ps)| && Contains(FlatCidrs(d, ps)[k], ip)
  {
    var init, last := ps[..|ps| - 1], ps[|ps| - 1];
    if n == last.name {
      assert Contains(FlatCidrs(d, ps)[|FlatCidrs(d, init)| + i], ip);
    } else {
      CoversFlat(d, init, n, i, ip);
      var k :| 0 <= k < |FlatCidrs(d, init)| && Contains(FlatCidrs(d, init)[k], ip);
      assert Contains(FlatCidrs(d, ps)[k], ip);
    }
  }

  lemma FlatOnce(d: Decoders, ps: seq<RawPool>, k: nat, l: nat, ip: Ip)
    requires SoundDecoders(d) && LoopAccepts(d, ps)
    requires k < |FlatCidrs(d, ps)| && Contains(FlatCidrs(d, ps)[k], ip)
    requires l < |FlatCidrs(d, ps)| && Contains(FlatCidrs(d, ps)[l], ip)
    ensures k == l
  {
    FlatAligned(d, ps);
    NoOverlapExact(FlatCidrs(d, ps));
  }

  lemma LastCoversFlat(d: Decoders, ps: seq<RawPool>, j: int, ip: Ip)
    requires ps != [] && Covers(PoolsOf(d, ps), ps[|ps| - 1].name, j, ip)
    ensures var k := |FlatCidrs(d, ps[..|ps| - 1])| + j;
      0 <= j && k < |FlatCidrs(d, ps)| && Contains(FlatCidrs(d, ps)[k], ip)
  {
    hide Contains;
  }

  lemma InitCoversFlat(d: Decoders, ps: seq<RawPool>, n: string, i: int, ip: Ip)
    requires ps != [] && LoopAccepts(d, ps) && Covers(PoolsOf(d, ps[..|ps| - 1]), n, i, ip)
    ensures exists k :: 0 <= k < |FlatCidrs(d, ps[..|ps| - 1])| <= |FlatCidrs(d, ps)| && Contains(FlatCidrs(d, ps)[k], ip)
  {
    hide Contains, NoOverlap, PoolsOf;
    var init := ps[..|ps| - 1];
    CoversFlat(d, init, n, i, ip);
    var k :| 0 <= k < |FlatCidrs(d, init)| && Contains(FlatCidrs(d, init)[k], ip);
    assert FlatCidrs(d, ps)[k] == FlatCidrs(d, init)[k];
  }

  /** No earlier pool reaches into a prefix of the last one. */
  lemma LastPoolApart(d: Decoders, ps: seq<RawPool>, n: string, i: int, j: int, ip: Ip)
    requires SoundDecoders(d) && LoopAccepts(d, ps) && ps != []
    requires Covers(PoolsOf(d, ps[..|ps| - 1]), n, i, ip)
    ensures !Covers(PoolsOf(d, ps), ps[|ps| - 1].name, j, ip)
  {
    hide LoopAccepts, SoundDecoders, Contains, FlatCidrs, PoolsOf, Covers;
    if Covers(PoolsOf(d, ps), ps[|ps| - 1].name, j, ip) {
      InitCoversFlat(d, ps, n, i, ip);
      LastCoversFlat(d, ps, j, ip);
      var len := |FlatCidrs(d, ps[..|ps| - 1])|;
      var k :| 0 <= k < len <= |FlatCidrs(d, ps)| && Contains(FlatCidrs(d, ps)[k], ip);
      FlatOnce(d, ps, k, len + j, ip);
    }
  }

  lemma {:induction false} CoveredOnce(d: Decoders, ps: seq<RawPool>, n: string, m: string, i: int, j: int, ip: Ip)
    requires SoundDecoders(d) && LoopAccepts(d, ps)
    requires Covers(PoolsOf(d, ps), n, i, ip) && Covers(PoolsOf(d, ps), m, j, ip)
    ensures n == m && i == j
  {
    hide Contains, SoundDecoders, NoOverlap, PoolOk;
    var init, last := ps[..|ps| - 1], ps[|ps| - 1];
    if n == last.name {
      if m == last.name {
        FlatOnce(d, ps, |FlatCidrs(d, init)| + i, |FlatCidrs(d, init)| + j, ip);
      } else {
        LastPoolApart(d, ps, m, j, i, ip);
      }
    } else if m == last.name {
      LastPoolApart(d, ps, n, i, j, ip);
    } else {
      CoveredOnce(d, init, n, m, i, j, ip);
    }
  }

  lemma {:induction false} PoolsOfEntry(d: Decoders, ps: seq<RawPool>, n: string)
    requires LoopAccepts(d, ps) && n in PoolsOf(d, ps)
    ensures exists i :: 0 <= i < |ps| && n == ps[i].name && PoolOk(d, ps[i]) && PoolsOf(d, ps)[n] == PoolOf(d, ps[i])
  {
    var init, last := ps[..|ps| - 1], ps[|ps| - 1];
    if n == last.name {
      assert ps[|ps| - 1].name == n;
    } else {
      PoolsOfEntry(d, init, n);
      var i :| 0 <= i < |init| && n == init[i].name && PoolOk(d, init[i]) && PoolsOf(d, init)[n] == PoolOf(d, init[i]);
      assert ps[i] == init[i];
    }
  }

  /** The one way past the check: the default advertisement is not compared with the prefixes. */
  ghost predicate DefaultTooShort(d: Decoders, p: RawPool) {
    p.protocol == "bgp" && p.ads == [] && exists c :: c in CidrsOf(d, p.addresses) && c.len > 32
  }

  /** An acceptable pool's advertisements fit its prefixes exactly unless it has none of its own
      and some prefix is longer than 32. */
  lemma AdsFitExact(d: Decoders, p: RawPool)
    requires PoolOk(d, p)
    ensures AdsFit(PoolOf(d, p)) <==> !DefaultTooShort(d, p)
  {
    var pool := PoolOf(d, p);
    if p.protocol == "bgp" && p.ads != [] {
      forall ad, c | ad in pool.ads && c in pool.cidrs
        ensures c.len <= ad.aggLen <= 32
      {
        var i :| 0 <= i < |pool.ads| && pool.ads[i] == ad;
        assert AdOk(d, p.ads[i], pool.cidrs);
      }
    } else if p.protocol == "bgp" {
      assert pool.ads[0] == BgpAd(32, 0, {}) && pool.ads[0] in pool.ads;
    }
  }

  /** Whatever the pool, its advertisements fit its IPv4 prefixes. */
  ghost predicate AdsFitV4(p: Pool) {
    forall ad, c :: ad in p.ads && c in p.cidrs && c.fam == V4 ==> c.len <= ad.aggLen <= 32
  }

  lemma AdsFitV4Always(d: Decoders, p: RawPool)
    requires SoundDecoders(d) && PoolOk(d, p)
    ensures AdsFitV4(PoolOf(d, p))
  {
    hide SoundDecoders;
    AdsFitExact(d, p);
    CidrsAligned(d, p.addresses);
  }

  /** A configuration accepted by `Parse` puts every address in at most one prefix of at
      most one pool, names are non-empty, every pool's advertisements fit its IPv4 prefixes,
      and they fit all of them exactly unless the default meets a prefix longer than 32. */
  lemma AcceptedConfigIsGood(d: Decoders, ps: seq<RawPool>)
    requires SoundDecoders(d) && Accepts(d, ps)
    ensures GoodPools(PoolsOf(d, ps))
    ensures forall n :: n in PoolsOf(d, ps) ==> AdsFitV4(PoolsOf(d, ps)[n])
    ensures forall i :: 0 <= i < |ps| ==> ps[i].name in PoolsOf(d, ps) && PoolsOf(d, ps)[ps[i].name] == PoolOf(d, ps[i])
    ensures forall i :: 0 <= i < |ps| ==> (AdsFit(PoolOf(d, ps[i])) <==> !DefaultTooShort(d, ps[i]))
  {
    hide SoundDecoders, PoolOk, AdsFit, AdsFitV4, DefaultTooShort, AllAligned, Accepts, LoopAccepts, PoolOf;
    LoopAcceptsExact(d, ps);
    var pools := PoolsOf(d, ps);
    forall n, m, i, j, ip | Covers(pools, n, i, ip) && Covers(pools, m, j, ip)
      ensures n == m && i == j
    {
      CoveredOnce(d, ps, n, m, i, j, ip);
    }
    forall n | n in pools
      ensures n != "" && AllAligned(pools[n].cidrs) && AdsFitV4(pools[n])
    {
      PoolsOfEntry(d, ps, n);
      var i :| 0 <= i < |ps| && n == ps[i].name && PoolOk(d, ps[i]) && pools[n] == PoolOf(d, ps[i]);
      PoolBasics(d, ps[i]);
      AdsFitV4Always(d, ps[i]);
    }
    forall i | 0 <= i < |ps|
      ensures ps[i].name in pools && pools[ps[i].name] == PoolOf(d, ps[i])
      ensures AdsFit(PoolOf(d, ps[i])) <==> !DefaultTooShort(d, ps[i])
    {
      EntryInPools(d, ps, i);
      AdsFitExact(d, ps[i]);
    }
  }

  lemma PoolBasics(d: Decoders, p: RawPool)
    requires SoundDecoders(d) && PoolOk(d, p)
    ensures p.name != "" && AllAligned(PoolOf(d, p).cidrs)
  {
    hide SoundDecoders;
    CidrsAligned(d, p.addresses);
  }

  lemma {:induction false} EntryInPools(d: Decoders, ps: seq<RawPool>, i: nat)
    requires Accepts(d, ps) && i < |ps|
    ensures PoolOk(d, ps[i]) && ps[i].name in PoolsOf(d, ps) && PoolsOf(d, ps)[ps[i].name] == PoolOf(d, ps[i])
  {
    hide PoolOk, NoSharedAddress;
    LaterNames(d, ps, i, |ps|);
    assert ps[..|ps|] == ps;
  }

  lemma {:induction false} LaterNames(d: Decoders, ps: seq<RawPool>, i: nat, n: nat)
    requires i < n <= |ps| && forall i, j :: 0 <= i < j < |ps| ==> ps[i].name != ps[j].name
    ensures ps[i].name in PoolsOf(d, ps[..n]) && PoolsOf(d, ps[..n])[ps[i].name] == PoolOf(d, ps[i])
  {
    hide PoolOf;
    assert ps[..n][..n - 1] == ps[..n - 1];
    if i < n - 1 {
      LaterNames(d, ps, i, n - 1);
    }
  }

  // ---------- An accepted configuration whose advertisement does not fit ----------

  const V6_HOST := Cidr(V6, 0, 128)

  /** Every address text means one IPv6 address. */
  function V6Decoders(): Decoders {
    Decoders(_ => Some([V6_HOST]), _ => None, map[])
  }

  /** One BGP pool with that address and no advertisements of its own. */
  const V6_POOL := RawPool("bgp", "p", ["a"], false, None, [])

  lemma V6PoolIs()
    ensures PoolOf(V6Decoders(), V6_POOL) == Pool("bgp", [V6_HOST], false, true, [BgpAd(32, 0, {})])
  {
    assert CidrsOf(V6Decoders(), ["a"]) == [] + [V6_HOST] by { assert ["a"][..0] == []; }
  }

  /** A file with one pool. */
  lemma OnePool(d: Decoders, p: RawPool)
    requires PoolOk(d, p) && NoSharedAddress(CidrsOf(d, p.addresses))
    ensures Accepts(d, [p]) && PoolsOf(d, [p]) == map[p.name := PoolOf(d, p)]
  {
    hide PoolOk, NoSharedAddress, CidrsOf, PoolOf;
    assert [p][..0] == [];
    assert FlatCidrs(d, []) == [] && PoolsOf(d, []) == map[];
    assert FlatCidrs(d, [p]) == [] + CidrsOf(d, p.addresses) == CidrsOf(d, p.addresses);
  }

  lemma V6PoolOk()
    ensures PoolOk(V6Decoders(), V6_POOL)
  {
  }

  lemma V6Sound()
    ensures SoundDecoders(V6Decoders())
  {
  }

  /** The parser accepts it although the default advertisement is shorter than the prefix. */
  lemma DefaultTooShortAccepted()
    ensures SoundDecoders(V6Decoders()) && Accepts(V6Decoders(), [V6_POOL])
    ensures PoolsOf(V6Decoders(), [V6_POOL]) == map["p" := PoolOf(V6Decoders(), V6_POOL)]
    ensures !AdsFit(PoolOf(V6Decoders(), V6_POOL))
  {
    hide SoundDecoders, PoolOk, Accepts, PoolsOf, CidrsOf, AdsOf, AdsFit;
    V6Sound();
    V6PoolOk();
    V6PoolIs();
    OnePool(V6Decoders(), V6_POOL);
    AdsFitExact(V6Decoders(), V6_POOL);
    assert V6_HOST in PoolOf(V6Decoders(), V6_POOL).cidrs;
  }
}
