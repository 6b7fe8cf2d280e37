/** The allocator's capacity figure: a closed form for the number of addresses that a search
    of the pool would try. */
module PoolCount {
  import opened Net
  import opened Config
  import opened Ledgers

  /** The addresses from n up to end that the search does not skip. */
  function Tried(avoid: bool, fam: Family, n: nat, end: nat): nat
    decreases end - n
  {
    if n >= end then 0
    else (if avoid && Buggy(Ip(fam, n)) then 0 else 1) + Tried(avoid, fam, n + 1, end)
  }

  function TriedIn(avoid: bool, c: Cidr): nat {
    Tried(avoid, c.fam, c.base, c.base + Size(c))
  }

  function TriedInAll(avoid: bool, cidrs: seq<Cidr>): nat {
    if cidrs == [] then 0 else TriedInAll(avoid, cidrs[..|cidrs| - 1]) + TriedIn(avoid, cidrs[|cidrs| - 1])
  }

  /** A single address that is itself to be avoided. */
  predicate LoneBuggy(c: Cidr) {
    c.fam == V4 && c.len == 32 && Buggy(Ip(V4, c.base))
  }

  function LoneBuggies(cidrs: seq<Cidr>): nat {
    if cidrs == [] then 0
    else LoneBuggies(cidrs[..|cidrs| - 1]) + if LoneBuggy(cidrs[|cidrs| - 1]) then 1 else 0
  }

  lemma {:induction false} TriedSplit(avoid: bool, fam: Family, n: nat, mid: nat, end: nat)
    requires n <= mid <= end
    ensures Tried(avoid, fam, n, end) == Tried(avoid, fam, n, mid) + Tried(avoid, fam, mid, end)
    decreases mid - n
  {
    if n < mid {
      TriedSplit(avoid, fam, n + 1, mid, end);
    }
  }

  lemma {:induction false} TriedPlain(avoid: bool, fam: Family, n: nat, end: nat)
    requires n <= end && forall x: nat :: n <= x < end ==> !avoid || !Buggy(Ip(fam, x))
    ensures Tried(avoid, fam, n, end) == end - n
    decreases end - n
  {
    if n < end {
      TriedPlain(avoid, fam, n + 1, end);
    }
  }

  /** Ends apart, nothing is skipped. */
  lemma TriedEnds(n: nat, end: nat)
    requires n + 2 <= end && forall x: nat :: n < x < end - 1 ==> !Buggy(Ip(V4, x))
    ensures Tried(true, V4, n, end)
         == end - n - (if Buggy(Ip(V4, n)) then 1 else 0) - (if Buggy(Ip(V4, end - 1)) then 1 else 0)
  {
    TriedSplit(true, V4, n, n + 1, end);
    TriedSplit(true, V4, n + 1, end - 1, end);
    TriedPlain(true, V4, n + 1, end - 1);
    assert Tried(true, V4, n, n + 1) == if Buggy(Ip(V4, n)) then 0 else 1;
    assert Tried(true, V4, end - 1, end) == if Buggy(Ip(V4, end - 1)) then 0 else 1;
  }

  /** k whole /24 blocks contain 2k addresses to skip. */
  lemma {:induction false} TriedBlocks(n: nat, k: nat)
    requires n % 256 == 0
    ensures Tried(true, V4, n, n + 256 * k) == 254 * k
    decreases k
  {
    if k > 0 {
      TriedSplit(true, V4, n, n + 256, n + 256 * k);
      TriedEnds(n, n + 256);
      TriedBlocks(n + 256, k - 1);
    }
  }

  /** An aligned run of s addresses does not cross a multiple of w = t*s. */
  lemma WithinMultiple(n: nat, s: nat, t: nat, w: nat)
    requires s > 0 && t > 0 && w == t * s && n % s == 0
    ensures w > 0 && n % w + s <= w
  {
    var q := n / s;
    var u, v := q / t, q % t;
    Distribute(u, t, v, s);
    assert n == u * w + v * s + 0;
    DigitsMod(w, s, t, u, v, 0);
    MulLt(v, t, s);
  }

  lemma InteriorPlain(n: nat, s: nat, x: nat)
    requires n % 256 + s <= 256 && n < x < n + s - 1
    ensures !Buggy(Ip(V4, x))
  {
    assert x % 256 == n % 256 + (x - n);
  }

  lemma TwoOrMore(k: nat)
    requires k > 0
    ensures Pow2(k) >= 2
  {
  }

  lemma SmallPrefix(c: Cidr)
    requires Aligned(c) && c.fam == V4 && 24 < c.len < 32
    ensures TriedIn(true, c)
      == Size(c) - (if Buggy(Ip(V4, c.base)) then 1 else 0) - (if Buggy(Ip(V4, c.base + Size(c) - 1)) then 1 else 0)
  {
    hide Buggy, Pow2, Mask, Aligned, Tried;
    AlignedMod(c);
    var k := HostBits(c);
    var s := Pow2(k);
    TwoOrMore(k);
    Pow2Constants();
    Pow2Add(8 - k, k);
    WithinMultiple(c.base, s, Pow2(8 - k), 256);
    forall x: nat | c.base < x < c.base + s - 1
      ensures !Buggy(Ip(V4, x))
    {
      InteriorPlain(c.base, s, x);
    }
    TriedEnds(c.base, c.base + s);
  }

  lemma LargePrefix(c: Cidr)
    requires Aligned(c) && c.fam == V4 && c.len <= 24
    ensures TriedIn(true, c) == Size(c) - 2 * Pow2(24 - c.len)
  {
    hide Tried, Buggy, Mask, Pow2;
    AlignedMod(c);
    Pow2Constants();
    Pow2Add(8, 24 - c.len);
    var k := Pow2(24 - c.len);
    ModOfMultiple(c.base, 256, k, Size(c));
    TriedBlocks(c.base, k);
  }

  /** One prefix's share of the figure. */
  function Figure(avoid: bool, c: Cidr): int {
    var sz := Size(c);
    if !avoid then sz
    else if c.len <= 24 then sz - 2 * Pow2(24 - c.len)
    else sz - (if Buggy(Ip(c.fam, c.base)) then 1 else 0) - (if Buggy(Ip(c.fam, c.base + sz - 1)) then 1 else 0)
  }

  /** Sizes of up to 2^62 addresses pass through a float64 and into an int64 unharmed. */
  predicate Countable(c: Cidr) {
    Aligned(c) && HostBits(c) <= 62
  }

  /** The figure is exact, except that a lone address to be avoided counts -1, not 0. */
  lemma FigureExact(avoid: bool, c: Cidr)
    requires Countable(c)
    ensures Figure(avoid, c) == TriedIn(avoid, c) - if avoid && LoneBuggy(c) then 1 else 0
  {
    hide Tried, Buggy, Mask, Pow2;
    NeverBuggy();
    if !avoid || c.fam == V6 {
      TriedPlain(avoid, c.fam, c.base, c.base + Size(c));
    } else if c.len <= 24 {
      LargePrefix(c);
    } else if c.len < 32 {
      SmallPrefix(c);
    } else {
      HostSize(c);
      TriedOne(c.base);
    }
  }

  lemma NeverBuggy()
    ensures forall n: nat :: !Buggy(Ip(V6, n))
  {
  }

  lemma HostSize(c: Cidr)
    requires HostBits(c) == 0
    ensures Size(c) == 1
  {
  }

  lemma TriedOne(n: nat)
    ensures Tried(true, V4, n, n + 1) == if Buggy(Ip(V4, n)) then 0 else 1
  {
    assert Tried(true, V4, n + 1, n + 1) == 0;
  }

  /** 0.0.0.0/32 in a pool that avoids such addresses: none to try, and the figure is -1. */
  lemma LoneFigure()
    ensures var c := Cidr(V4, 0, 32); Countable(c) && LoneBuggy(c) && TriedIn(true, c) == 0 && Figure(true, c) == -1
  {
    var c := Cidr(V4, 0, 32);
    assert Aligned(c);
    HostSize(c);
    TriedOne(0);
    FigureExact(true, c);
  }

  /** `poolCount`: the number of addresses a search of the pool tries, if and only if no
      avoided address stands alone in a /32. */
  method Count(p: Pool) returns (total: int)
    requires forall c :: c in p.cidrs ==> Countable(c)
    ensures total == TriedInAll(p.avoidBuggy, p.cidrs) - if p.avoidBuggy then LoneBuggies(p.cidrs) else 0
    ensures total == TriedInAll(p.avoidBuggy, p.cidrs)
      <==> (p.avoidBuggy ==> forall c :: c in p.cidrs ==> !LoneBuggy(c))
  {
    hide Countable, LoneBuggy, Figure, TriedIn;
    total := 0;
    for i := 0 to |p.cidrs|
      invariant total == TriedInAll(p.avoidBuggy, p.cidrs[..i]) - if p.avoidBuggy then LoneBuggies(p.cidrs[..i]) else 0
    {
      var c := p.cidrs[i];
      var sz := CountCidr(p.avoidBuggy, c);
      FigureExact(p.avoidBuggy, c);
      assert p.cidrs[..i + 1][..i] == p.cidrs[..i];
      total := total + sz;
    }
    assert p.cidrs[..|p.cidrs|] == p.cidrs;
    NoLoneBuggies(p.cidrs);
  }

  method CountCidr(avoid: bool, c: Cidr) returns (sz: int)
    requires Countable(c)
    ensures sz == Figure(avoid, c)
  {
    sz := Size(c);
    var firstIp, lastIp := Ip(c.fam, c.base), Ip(c.fam, c.base + sz - 1);
    if avoid {
      if c.len <= 24 {
        var buggies := Pow2(24 - c.len) * 2;
        sz := sz - buggies;
      } else {
        if Buggy(firstIp) {
          sz := sz - 1;
        }
        if Buggy(lastIp) {
          sz := sz - 1;
        }
      }
    }
  }

  lemma {:induction false} NoLoneBuggies(cidrs: seq<Cidr>)
    ensures LoneBuggies(cidrs) == 0 <==> forall c :: c in cidrs ==> !LoneBuggy(c)
  {
    hide LoneBuggy;
    if cidrs != [] {
      NoLoneBuggies(cidrs[..|cidrs| - 1]);
      assert cidrs == cidrs[..|cidrs| - 1] + [cidrs[|cidrs| - 1]];
    }
  }
}
