/** From a service's address to BGP advertisements (speaker/bgp_controller.go), and what the
    merge of all services' advertisements looks like. */
module Advertising {
  import opened Net
  import opened Bytes
  import opened Config
  import opened Ledgers
  import opened Routes
  import opened SessionSpec
  import opened AllocatorSpec
  import opened Allocators

  // ---------- Community lists ----------

  predicate Ascending(list: seq<U32>) {
    forall i, j :: 0 <= i < j < |list| ==> list[i] < list[j]
  }

  ghost predicate ListOf(list: seq<U32>, all: set<U32>) {
    Ascending(list) && forall x :: x in all <==> x in list
  }

  /** A set has one ascending list, so the order of map iteration leaves no trace. */
  lemma {:induction false} OneList(a: seq<U32>, b: seq<U32>, all: set<U32>)
    requires ListOf(a, all) && ListOf(b, all)
    ensures a == b
  {
    OneEmpty(a, b, all);
    if a != [] {
      var x, y := a[|a| - 1], b[|b| - 1];
      LastIsMost(a, y);
      LastIsMost(b, x);
      assert x == y;
      WithoutLast(a, all);
      WithoutLast(b, all);
      OneList(a[..|a| - 1], b[..|b| - 1], all - {x});
      assert a == a[..|a| - 1] + [x] && b == b[..|b| - 1] + [x];
    }
  }

  lemma OneEmpty(a: seq<U32>, b: seq<U32>, all: set<U32>)
    requires ListOf(a, all) && ListOf(b, all)
    ensures a == [] <==> b == []
  {
    assert a == [] || a[0] in b;
    assert b == [] || b[0] in a;
  }

  lemma LastIsMost(a: seq<U32>, x: U32)
    requires Ascending(a) && x in a
    ensures x <= a[|a| - 1]
  {
  }

  lemma WithoutLast(a: seq<U32>, all: set<U32>)
    requires a != [] && ListOf(a, all)
    ensures ListOf(a[..|a| - 1], all - {a[|a| - 1]})
  {
    var init := a[..|a| - 1];
    forall x | x in all - {a[|a| - 1]}
      ensures x in init
    {
      var i :| 0 <= i < |a| && a[i] == x;
      assert init[i] == x;
    }
  }

  /** Collects a set in any order and sorts it. */
  method SortedList(all: set<U32>) returns (list: seq<U32>)
    ensures ListOf(list, all)
  {
    list := [];
    var todo := all;
    while todo != {}
      invariant todo <= all && ListOf(list, all - todo)
      decreases todo
    {
      var x :| x in todo;
      list := Insert(list, all - todo, x);
      todo := todo - {x};
      assert all - todo == all - (todo + {x}) + {x};
    }
    assert all - {} == all;
  }

  method Insert(list: seq<U32>, ghost all: set<U32>, x: U32) returns (r: seq<U32>)
    requires ListOf(list, all) && x !in all
    ensures ListOf(r, all + {x})
  {
    var n := |list|;
    while n > 0 && list[n - 1] > x
      invariant 0 <= n <= |list|
      invariant forall i :: n <= i < |list| ==> x < list[i]
    {
      n := n - 1;
    }
    assert n > 0 ==> list[n - 1] in list;
    r := list[..n] + [x] + list[n..];
    InsertedHere(list, n, x, all);
  }

  lemma InsertedHere(list: seq<U32>, n: nat, x: U32, all: set<U32>)
    requires n <= |list| && ListOf(list, all)
    requires (n > 0 ==> list[n - 1] < x) && (forall i :: n <= i < |list| ==> x < list[i])
    ensures ListOf(list[..n] + [x] + list[n..], all + {x})
  {
    var r := list[..n] + [x] + list[n..];
    assert forall y :: y in list <==> y in list[..n] || y in list[n..] by { assert list == list[..n] + list[n..]; }
    assert forall i :: 0 <= i < n ==> list[i] < x;
    assert Ascending(r) by { InsertedAscending(list, n, x, r); }
  }

  lemma InsertedAscending(list: seq<U32>, n: nat, x: U32, r: seq<U32>)
    requires n <= |list| && Ascending(list) && r == list[..n] + [x] + list[n..]
    requires (forall i :: 0 <= i < n ==> list[i] < x) && (forall i :: n <= i < |list| ==> x < list[i])
    ensures Ascending(r)
  {
    forall i, j | 0 <= i < j < |r|
      ensures r[i] < r[j]
    {
      if n < i {
        assert r[i] == list[i - 1] && r[j] == list[j - 1];
      } else if n < j {
        assert r[j] == list[j - 1];
      }
    }
  }

  // ---------- One service ----------

  /** The advertisement that one entry of the pool's configuration makes of an address. An
      IPv6 address cannot be masked with an IPv4 mask; its prefix stays non-IPv4. */
  ghost predicate AdFor(ip: Ip, cfg: BgpAd, a: Adv) {
    && a.prefix == (if ip.fam == V4 && 0 <= cfg.aggLen <= 32 then Cidr(V4, Mask(ip.n, 32 - cfg.aggLen), cfg.aggLen)
                    else Cidr(V6, 0, 0))
    && a.nextHop == None
    && a.localPref == cfg.localPref
    && ListOf(a.communities, cfg.communities)
  }

  ghost predicate AdsFor(ip: Ip, pool: Pool, ads: seq<Adv>) {
    |ads| == |pool.ads| && forall i :: 0 <= i < |ads| ==> AdFor(ip, pool.ads[i], ads[i])
  }

  /** The loop of `SetBalancer`. */
  method MakeAds(ip: Ip, pool: Pool) returns (ads: seq<Adv>)
    requires ValidIp(ip)
    ensures AdsFor(ip, pool, ads) && AllWellFormed(ads)
  {
    hide ListOf, ValidCidr;
    ads := [];
    for i := 0 to |pool.ads|
      invariant |ads| == i && AllWellFormed(ads)
      invariant forall k :: 0 <= k < i ==> AdFor(ip, pool.ads[k], ads[k])
    {
      var cfg := pool.ads[i];
      var prefix := Cidr(V6, 0, 0);
      if ip.fam == V4 && 0 <= cfg.aggLen <= 32 {
        prefix := Cidr(V4, Mask(ip.n, 32 - cfg.aggLen), cfg.aggLen);
      }
      MaskedValid(ip, prefix);
      var comms := SortedList(cfg.communities);
      ads := ads + [Adv(prefix, None, cfg.localPref, comms)];
    }
  }

  lemma MaskedValid(ip: Ip, c: Cidr)
    requires ValidIp(ip)
      && (c == Cidr(V6, 0, 0) || (ip.fam == V4 && c.len <= 32 && c == Cidr(V4, Mask(ip.n, 32 - c.len), c.len)))
    ensures ValidCidr(c)
  {
  }

  /** The advertised prefix has clear host bits and contains the address. */
  lemma PrefixHoldsAddress(ip: Ip, cfg: BgpAd, a: Adv)
    requires ValidIp(ip) && ip.fam == V4 && 0 <= cfg.aggLen <= 32 && AdFor(ip, cfg, a)
    ensures Aligned(a.prefix) && Contains(a.prefix, ip)
  {
    MaskIdempotent(ip.n, 32 - cfg.aggLen);
    MaskedValid(ip, a.prefix);
  }

  /** It lies inside the prefix of the pool that the address comes from. */
  lemma PrefixInsidePool(ip: Ip, cfg: BgpAd, a: Adv, c: Cidr, x: Ip)
    requires ip.fam == V4 && c.len <= cfg.aggLen <= 32 && AdFor(ip, cfg, a)
    requires Aligned(c) && Contains(c, ip) && Contains(a.prefix, x)
    ensures Contains(c, x)
  {
    hide ListOf, Mask, Pow2, Size, Aligned;
    assert HostBits(a.prefix) == 32 - cfg.aggLen;
    var h, k := 32 - cfg.aggLen, HostBits(c);
    MaskIdempotent(ip.n, h);
    MaskMask(ip.n, h, k);
    MaskMask(x.n, h, k);
  }

  lemma SameFamily(c: Cidr, ip: Ip)
    requires Contains(c, ip)
    ensures c.fam == ip.fam
  {
  }

  /** Under one accepted configuration, services of different pools never share a prefix. */
  lemma PoolsNeverShareAPrefix(pools: PoolMap, n: string, m: string, ip: Ip, jp: Ip, f: BgpAd, g: BgpAd, a: Adv, b: Adv)
    requires GoodPools(pools) && n in pools && m in pools && AdsFitV4(pools[n]) && AdsFitV4(pools[m])
    requires Spans(pools[n], ip) && Spans(pools[m], jp) && ip.fam == V4 && jp.fam == V4 && ValidIp(ip) && ValidIp(jp)
    requires f in pools[n].ads && g in pools[m].ads && AdFor(ip, f, a) && AdFor(jp, g, b)
    requires a.prefix == b.prefix
    ensures n == m
  {
    hide AdFor, Aligned, Contains;
    var i :| 0 <= i < |pools[n].cidrs| && Contains(pools[n].cidrs[i], ip);
    var j :| 0 <= j < |pools[m].cidrs| && Contains(pools[m].cidrs[j], jp);
    SameFamily(pools[n].cidrs[i], ip);
    SameFamily(pools[m].cidrs[j], jp);
    assert pools[m].cidrs[j] in pools[m].cidrs && pools[n].cidrs[i] in pools[n].cidrs;
    PrefixHoldsAddress(jp, g, b);
    PrefixInsidePool(ip, f, a, pools[n].cidrs[i], jp);
    assert Covers(pools, n, i, jp) && Covers(pools, m, j, jp);
  }

  /** If a pool's advertisements have distinct aggregation lengths, equal prefixes of two
      services in it carry equal advertisements. */
  lemma EqualPrefixesEqualAds(pool: Pool, ip: Ip, jp: Ip, i: nat, j: nat, a: Adv, b: Adv)
    requires forall k, l :: 0 <= k < l < |pool.ads| ==> pool.ads[k].aggLen != pool.ads[l].aggLen
    requires i < |pool.ads| && j < |pool.ads| && AdFor(ip, pool.ads[i], a) && AdFor(jp, pool.ads[j], b)
    requires a.prefix == b.prefix && a.prefix.fam == V4
    ensures a == b
  {
    hide Mask;
    assert pool.ads[i].aggLen == pool.ads[j].aggLen;
    assert i == j;
    OneList(a.communities, b.communities, pool.ads[i].communities);
  }

  // ---------- All services ----------

  type SvcAds = map<string, seq<Adv>>

  ghost predicate Known(svcAds: SvcAds, order: seq<string>) {
    forall i :: 0 <= i < |order| ==> order[i] in svcAds
  }

  /** The list that `updateAds` builds when it visits the services in this order. */
  function Concat(svcAds: SvcAds, order: seq<string>): seq<Adv>
    requires forall i :: 0 <= i < |order| ==> order[i] in svcAds
  {
    if order == [] then [] else Concat(svcAds, order[..|order| - 1]) + svcAds[order[|order| - 1]]
  }

  ghost predicate AllGood(svcAds: SvcAds) {
    forall s, a :: s in svcAds && a in svcAds[s] ==> WellFormedAdv(a)
  }

  ghost predicate AllSendable(svcAds: SvcAds) {
    forall s, a :: s in svcAds && a in svcAds[s] ==> Sendable(a)
  }

  lemma {:induction false} ConcatHas(svcAds: SvcAds, order: seq<string>, a: Adv)
    requires Known(svcAds, order)
    ensures a in Concat(svcAds, order) <==> exists i :: 0 <= i < |order| && a in svcAds[order[i]]
  {
    if order != [] {
      var init := order[..|order| - 1];
      ConcatHas(svcAds, init, a);
      if a in Concat(svcAds, init) {
        var i :| 0 <= i < |init| && a in svcAds[init[i]];
        assert a in svcAds[order[i]];
      } else if a in Concat(svcAds, order) {
        assert a in svcAds[order[|order| - 1]];
      }
      if i :| 0 <= i < |order| && a in svcAds[order[i]] {
        assert i < |init| ==> a in svcAds[init[i]];
      }
    }
  }

  lemma ConcatGood(svcAds: SvcAds, order: seq<string>)
    requires Known(svcAds, order) && AllGood(svcAds)
    ensures AllWellFormed(Concat(svcAds, order))
  {
    hide WellFormedAdv, Concat;
    var advs := Concat(svcAds, order);
    forall i | 0 <= i < |advs|
      ensures WellFormedAdv(advs[i])
    {
      ConcatHas(svcAds, order, advs[i]);
    }
  }

  lemma {:induction false} MergeDefined(advs: seq<Adv>)
    requires AllWellFormed(advs)
    ensures Merge(advs).Some? <==> forall a :: a in advs ==> Sendable(a)
  {
    hide WellFormedAdv, Sendable;
    if advs != [] {
      MergeDefined(advs[..|advs| - 1]);
      assert advs == advs[..|advs| - 1] + [advs[|advs| - 1]];
    }
  }

  /** The sessions accept the list exactly when every advertisement of every service can be
      sent, in whatever order the services come. */
  lemma AcceptedExact(svcAds: SvcAds, order: seq<string>)
    requires Enumerates(order, svcAds.Keys) && AllGood(svcAds)
    ensures AllWellFormed(Concat(svcAds, order))
    ensures Merge(Concat(svcAds, order)).Some? <==> AllSendable(svcAds)
  {
    hide WellFormedAdv, Concat, Merge, Sendable;
    var advs := Concat(svcAds, order);
    ConcatGood(svcAds, order);
    MergeDefined(advs);
    forall a
      ensures a in advs <==> exists s :: s in svcAds && a in svcAds[s]
    {
      ConcatHas(svcAds, order, a);
      if s :| s in svcAds && a in svcAds[s] {
        var i :| 0 <= i < |order| && order[i] == s;
      }
    }
  }

  lemma MapUpdate(m: Advs, n: Advs, a: GoodAdv)
    ensures var both: Advs := m + n; both[a.prefix := a] == m + n[a.prefix := a]
  {
  }

  lemma {:induction false} MergeAppend(a: seq<Adv>, b: seq<Adv>)
    requires AllWellFormed(a) && AllWellFormed(b) && Merge(a).Some? && Merge(b).Some?
    ensures AllWellFormed(a + b) && Merge(a + b) == Some(Merge(a).value + Merge(b).value)
  {
    hide WellFormedAdv, Sendable;
    if b == [] {
      assert a + b == a && Merge(a).value + map[] == Merge(a).value;
    } else {
      var init, last := b[..|b| - 1], b[|b| - 1];
      assert Sendable(last) && WellFormedAdv(last);
      var good: GoodAdv := last;
      MergeAppend(a, init);
      assert (a + b)[..|a + b| - 1] == a + init;
      MapUpdate(Merge(a).value, Merge(init).value, good);
    }
  }

  /** What one service contributes. */
  ghost function Part(svcAds: SvcAds, s: string): Advs
    requires AllGood(svcAds) && AllSendable(svcAds) && s in svcAds
  {
    PartDefined(svcAds, s);
    Merge(svcAds[s]).value
  }

  lemma PartDefined(svcAds: SvcAds, s: string)
    requires AllGood(svcAds) && AllSendable(svcAds) && s in svcAds
    ensures AllWellFormed(svcAds[s]) && Merge(svcAds[s]).Some?
  {
    hide WellFormedAdv, Sendable;
    assert forall i :: 0 <= i < |svcAds[s]| ==> svcAds[s][i] in svcAds[s];
    MergeDefined(svcAds[s]);
  }

  /** The map that the sessions are told when the services come in this order. */
  ghost function Merged(svcAds: SvcAds, order: seq<string>): Advs
    requires AllGood(svcAds) && AllSendable(svcAds) && Enumerates(order, svcAds.Keys)
  {
    AcceptedExact(svcAds, order);
    Merge(Concat(svcAds, order)).value
  }

  /** Any two services that have a prefix in common agree on it. */
  ghost predicate Agree(svcAds: SvcAds)
    requires AllGood(svcAds) && AllSendable(svcAds)
  {
    forall s, t, k :: s in svcAds && t in svcAds && k in Part(svcAds, s) && k in Part(svcAds, t)
      ==> Part(svcAds, s)[k] == Part(svcAds, t)[k]
  }

  /** The merge of a visit is the union of the parts, later ones first. */
  lemma {:induction false} MergeOfVisit(svcAds: SvcAds, order: seq<string>, k: Cidr)
    requires AllGood(svcAds) && AllSendable(svcAds) && Known(svcAds, order)
    ensures AllWellFormed(Concat(svcAds, order)) && Merge(Concat(svcAds, order)).Some?
    ensures k in Merge(Concat(svcAds, order)).value <==> exists i :: 0 <= i < |order| && k in Part(svcAds, order[i])
    ensures k in Merge(Concat(svcAds, order)).value ==>
      exists i :: 0 <= i < |order| && k in Part(svcAds, order[i]) &&
        Merge(Concat(svcAds, order)).value[k] == Part(svcAds, order[i])[k]
    ensures order != [] && k in Part(svcAds, order[|order| - 1]) ==>
      Merge(Concat(svcAds, order)).value[k] == Part(svcAds, order[|order| - 1])[k]
  {
    hide WellFormedAdv, Sendable, AllGood, AllSendable, Merge;
    if order == [] {
      MergeOfNone();
    } else {
      var init, s := order[..|order| - 1], order[|order| - 1];
      MergeOfVisit(svcAds, init, k);
      PartDefined(svcAds, s);
      MergeAppend(Concat(svcAds, init), svcAds[s]);
      assert forall i :: 0 <= i < |init| ==> init[i] == order[i];
    }
  }

  lemma MergeOfNone()
    ensures Merge([]) == Some(map[])
  {
  }

  lemma AgreeingVisits(svcAds: SvcAds, o1: seq<string>, o2: seq<string>)
    requires AllGood(svcAds) && AllSendable(svcAds) && Agree(svcAds)
    requires Enumerates(o1, svcAds.Keys) && Enumerates(o2, svcAds.Keys)
    ensures Merged(svcAds, o1) == Merged(svcAds, o2)
  {
    hide AllGood, AllSendable, Part, Merge, Concat;
    var m, n := Merged(svcAds, o1), Merged(svcAds, o2);
    forall k
      ensures k in m <==> k in n
      ensures k in m && k in n ==> m[k] == n[k]
    {
      MergeOfVisit(svcAds, o1, k);
      MergeOfVisit(svcAds, o2, k);
      if i :| 0 <= i < |o1| && k in Part(svcAds, o1[i]) {
        var j :| 0 <= j < |o2| && o2[j] == o1[i];
      }
      if i :| 0 <= i < |o2| && k in Part(svcAds, o2[i]) {
        var j :| 0 <= j < |o1| && o1[j] == o2[i];
      }
    }
    assert m == n;
  }

  /** What the sessions are told is the same for every order of the services exactly when the
      services agree on the prefixes that they share. */
  lemma OrderLeavesNoTraceExact(svcAds: SvcAds)
    requires AllGood(svcAds) && AllSendable(svcAds)
    ensures Agree(svcAds) <==>
      forall o1, o2 :: Enumerates(o1, svcAds.Keys) && Enumerates(o2, svcAds.Keys) ==>
        Merged(svcAds, o1) == Merged(svcAds, o2)
  {
    hide AllGood, AllSendable, Part, Merge, Concat, Merged, Enumerates;
    if Agree(svcAds) {
      forall o1, o2 | Enumerates(o1, svcAds.Keys) && Enumerates(o2, svcAds.Keys)
        ensures Merged(svcAds, o1) == Merged(svcAds, o2)
      {
        AgreeingVisits(svcAds, o1, o2);
      }
    } else {
      var s, t, k :| s in svcAds && t in svcAds && k in Part(svcAds, s) && k in Part(svcAds, t)
        && Part(svcAds, s)[k] != Part(svcAds, t)[k];
      LastWins(svcAds, s, k);
      LastWins(svcAds, t, k);
    }
  }

  lemma LastWins(svcAds: SvcAds, s: string, k: Cidr)
    requires AllGood(svcAds) && AllSendable(svcAds) && s in svcAds && k in Part(svcAds, s)
    ensures exists o :: Enumerates(o, svcAds.Keys) && k in Merged(svcAds, o) && Merged(svcAds, o)[k] == Part(svcAds, s)[k]
  {
    hide AllGood, AllSendable, Part, Merge, Concat;
    var before := EnumerationOf(svcAds.Keys - {s});
    var o := before + [s];
    assert Enumerates(o, svcAds.Keys);
    MergeOfVisit(svcAds, o, k);
    assert Merged(svcAds, o)[k] == Part(svcAds, s)[k];
  }

  /** The list was made by `SetBalancer` for an address of a pool. */
  ghost predicate Source(pools: PoolMap, n: string, ip: Ip, ads: seq<Adv>) {
    n in pools && ValidIp(ip) && Spans(pools[n], ip) && AdsFor(ip, pools[n], ads)
  }

  ghost predicate FromPools(svcAds: SvcAds, pools: PoolMap) {
    forall s :: s in svcAds ==> exists n, ip :: Source(pools, n, ip, svcAds[s])
  }

  /** The merge keeps the last advertisement of a prefix. */
  ghost predicate LastOf(advs: seq<Adv>, k: Cidr, i: nat) {
    i < |advs| && advs[i].prefix == k && forall j :: i < j < |advs| ==> advs[j].prefix != k
  }

  lemma {:induction false} MergeLast(advs: seq<Adv>, k: Cidr) returns (i: nat)
    requires AllWellFormed(advs) && Merge(advs).Some? && k in Merge(advs).value
    ensures LastOf(advs, k, i) && Merge(advs).value[k] == advs[i]
  {
    hide WellFormedAdv, Sendable;
    var init, last := advs[..|advs| - 1], advs[|advs| - 1];
    if k == last.prefix {
      i := |advs| - 1;
    } else {
      i := MergeLast(init, k);
    }
  }

  lemma PrefixIs(ip: Ip, cfg: BgpAd, a: Adv, k: Cidr)
    requires AdFor(ip, cfg, a) && k.fam == V4
    ensures a.prefix == k
      <==> ip.fam == V4 && 0 <= cfg.aggLen <= 32 && cfg.aggLen == k.len && k.base == Mask(ip.n, 32 - k.len)
  {
    hide Mask, ListOf;
  }

  /** Two services of one pool keep the same entry of a prefix that they share. */
  lemma SameLast(pool: Pool, ip: Ip, jp: Ip, x: seq<Adv>, y: seq<Adv>, k: Cidr, i: nat, j: nat)
    requires AdsFor(ip, pool, x) && AdsFor(jp, pool, y) && k.fam == V4 && LastOf(x, k, i) && LastOf(y, k, j)
    ensures i == j && x[i] == y[j]
  {
    hide AdFor;
    PrefixIs(ip, pool.ads[i], x[i], k);
    PrefixIs(jp, pool.ads[j], y[j], k);
    PrefixIs(ip, pool.ads[j], x[j], k);
    PrefixIs(jp, pool.ads[i], y[i], k);
    SameEntry(ip, jp, pool.ads[i], x[i], y[i]);
  }

  lemma SameEntry(ip: Ip, jp: Ip, cfg: BgpAd, a: Adv, b: Adv)
    requires AdFor(ip, cfg, a) && AdFor(jp, cfg, b) && a.prefix == b.prefix
    ensures a == b
  {
    hide Mask;
    OneList(a.communities, b.communities, cfg.communities);
  }

  /** Under one accepted configuration the services agree, so map order leaves no trace in what
      the sessions are told. */
  lemma OneConfigAgrees(svcAds: SvcAds, pools: PoolMap)
    requires GoodPools(pools) && FromPools(svcAds, pools) && forall n :: n in pools ==> AdsFitV4(pools[n])
    requires AllGood(svcAds) && AllSendable(svcAds)
    ensures Agree(svcAds)
  {
    hide AllGood, Merge, GoodPools, AdsFitV4, Source, Sendable, WellFormedAdv;
    forall s, t, k | s in svcAds && t in svcAds && k in Part(svcAds, s) && k in Part(svcAds, t)
      ensures Part(svcAds, s)[k] == Part(svcAds, t)[k]
    {
      PartDefined(svcAds, s);
      PartDefined(svcAds, t);
      var i := MergeLast(svcAds[s], k);
      var j := MergeLast(svcAds[t], k);
      assert k.fam == V4 by { SendableFamily(svcAds[s][i]); }
      var n, ip :| Source(pools, n, ip, svcAds[s]);
      var m, jp :| Source(pools, m, jp, svcAds[t]);
      SharedPrefix(pools, n, m, ip, jp, svcAds[s], svcAds[t], k, i, j);
    }
  }

  lemma SendableFamily(a: Adv)
    requires Sendable(a)
    ensures a.prefix.fam == V4
  {
  }

  lemma SharedPrefix(pools: PoolMap, n: string, m: string, ip: Ip, jp: Ip, x: seq<Adv>, y: seq<Adv>, k: Cidr, i: nat,
                     j: nat)
    requires GoodPools(pools) && forall n :: n in pools ==> AdsFitV4(pools[n])
    requires Source(pools, n, ip, x) && Source(pools, m, jp, y) && k.fam == V4 && LastOf(x, k, i) && LastOf(y, k, j)
    ensures x[i] == y[j]
  {
    hide GoodPools, AdsFitV4, AdFor, Spans;
    PrefixIs(ip, pools[n].ads[i], x[i], k);
    PrefixIs(jp, pools[m].ads[j], y[j], k);
    PoolsNeverShareAPrefix(pools, n, m, ip, jp, pools[n].ads[i], pools[m].ads[j], x[i], y[j]);
    SameLast(pools[n], ip, jp, x, y, k, i, j);
  }

  // ---------- Prefixes ----------

  lemma {:induction false} MergeKeys(advs: seq<Adv>, k: Cidr)
    requires AllWellFormed(advs) && Merge(advs).Some?
    ensures k in Merge(advs).value <==> exists a :: a in advs && a.prefix == k
  {
    hide WellFormedAdv, Sendable;
    if advs != [] {
      var init, last := advs[..|advs| - 1], advs[|advs| - 1];
      assert advs == init + [last];
      MergeKeys(init, k);
    }
  }

  /** The sessions are told exactly the prefixes of the services. */
  lemma MergedKeys(svcAds: SvcAds, order: seq<string>, k: Cidr)
    requires AllGood(svcAds) && AllSendable(svcAds) && Enumerates(order, svcAds.Keys)
    ensures k in Merged(svcAds, order) <==> exists s, a :: s in svcAds && a in svcAds[s] && a.prefix == k
  {
    hide WellFormedAdv, Sendable, Merge, Concat;
    AcceptedExact(svcAds, order);
    MergeKeys(Concat(svcAds, order), k);
    if a :| a in Concat(svcAds, order) && a.prefix == k {
      ConcatHas(svcAds, order, a);
    }
    if s, a :| s in svcAds && a in svcAds[s] && a.prefix == k {
      ConcatHas(svcAds, order, a);
      var i :| 0 <= i < |order| && order[i] == s;
    }
  }

  ghost predicate AlignedAds(svcAds: SvcAds) {
    forall s, a :: s in svcAds && a in svcAds[s] ==> Aligned(a.prefix)
  }

  lemma AdsAligned(ip: Ip, pool: Pool, ads: seq<Adv>, a: Adv)
    requires ValidIp(ip) && AdsFor(ip, pool, ads) && a in ads
    ensures Aligned(a.prefix) && WellFormedAdv(a)
  {
    hide ListOf, Aligned;
    var i :| 0 <= i < |ads| && ads[i] == a;
    if ip.fam == V4 && 0 <= pool.ads[i].aggLen <= 32 {
      PrefixHoldsAddress(ip, pool.ads[i], a);
    } else {
      NoPrefixAligned();
    }
    assert ValidCidr(a.prefix) by { MaskedValid(ip, a.prefix); }
  }

  lemma NoPrefixAligned()
    ensures Aligned(Cidr(V6, 0, 0))
  {
    MaskIdempotent(0, 128);
  }
}
