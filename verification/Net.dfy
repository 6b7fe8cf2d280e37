/** Addresses and CIDR prefixes of both IP families, as the standard library's
    `net.IP` and `net.IPNet` present them to the rest of the program. An address
    is a number below 2^32 or 2^128; masking clears its low bits. */
module Net {

  datatype Option<+T> = None | Some(value: T)

  datatype Family = V4 | V6

  datatype Ip = Ip(fam: Family, n: nat)

  datatype Cidr = Cidr(fam: Family, base: nat, len: nat)

  function Width(f: Family): nat {
    if f == V4 then 32 else 128
  }

  function Pow2(n: nat): (r: nat)
    ensures r >= 1
  {
    if n == 0 then 1 else 2 * Pow2(n - 1)
  }

  predicate ValidIp(ip: Ip) {
    ip.n < Pow2(Width(ip.fam))
  }

  predicate ValidCidr(c: Cidr) {
    c.len <= Width(c.fam) && c.base < Pow2(Width(c.fam))
  }

  function HostBits(c: Cidr): nat {
    if c.len <= Width(c.fam) then Width(c.fam) - c.len else 0
  }

  function Size(c: Cidr): nat {
    Pow2(HostBits(c))
  }

  /** Clears the k low bits of n, one by one. */
  function Mask(n: nat, k: nat): (r: nat)
    ensures r <= n
    decreases k
  {
    if k == 0 then n else 2 * Mask(n / 2, k - 1)
  }

  /** The host bits are clear. */
  predicate Aligned(c: Cidr) {
    ValidCidr(c) && Mask(c.base, HostBits(c)) == c.base
  }

  /** The prefix with its host bits cleared. */
  function Canon(c: Cidr): Cidr {
    Cidr(c.fam, Mask(c.base, HostBits(c)), c.len)
  }

  /** `(*net.IPNet).Contains`: same family and equal network bits. */
  predicate Contains(c: Cidr, ip: Ip) {
    c.fam == ip.fam && Mask(ip.n, HostBits(c)) == Mask(c.base, HostBits(c))
  }

  lemma {:induction false} Pow2Add(a: nat, b: nat)
    ensures Pow2(a + b) == Pow2(a) * Pow2(b)
  {
    if a > 0 {
      Pow2Add(a - 1, b);
      assert (2 * Pow2(a - 1)) * Pow2(b) == 2 * (Pow2(a - 1) * Pow2(b));
    }
  }

  lemma Pow2Constants()
    ensures Pow2(3) == 8 && Pow2(8) == 0x100 && Pow2(16) == 0x1_0000
    ensures Pow2(24) == 0x100_0000 && Pow2(32) == 0x1_0000_0000
  {
    assert Pow2(3) == 8;
    assert Pow2(4) == 16;
    Pow2Add(4, 4);
    Pow2Add(8, 8);
    Pow2Add(8, 16);
    Pow2Add(16, 16);
  }

  lemma MulGe(x: nat, y: nat)
    requires y >= 1
    ensures x * y >= x
  {
    assert x * y == x * (y - 1) + x;
  }

  lemma MulLt(x: int, y: int, s: nat)
    requires x < y
    ensures x * s + s <= y * s
  {
    MulGe(s, y - x);
    assert (y - x) * s == y * s - x * s;
  }

  /** Quotient and remainder are determined by q*s <= n < (q+1)*s. */
  lemma DivModUnique(n: nat, s: nat, q: nat, r: nat)
    requires s > 0 && n == q * s + r && r < s
    ensures n / s == q && n % s == r
  {
    assert n == (n / s) * s + n % s;
    if n / s > q {
      MulLt(q, n / s, s);
    } else if n / s < q {
      MulLt(n / s, q, s);
    }
  }

  lemma Distribute(u: nat, t: nat, v: nat, s: nat)
    ensures (u * t + v) * s == u * (t * s) + v * s
  {
    assert (u * t) * s == u * (t * s);
  }

  lemma DigitsMod(w: nat, s: nat, t: nat, u: nat, v: nat, r: nat)
    requires s > 0 && v < t && r < s && w == t * s
    ensures w > 0 && (u * w + v * s + r) % w == v * s + r
  {
    MulLt(v, t, s);
    assert v * s >= 0;
    DivModUnique(u * w + v * s + r, w, u, v * s + r);
  }

  /** A number's remainder by a multiple t*s refines its remainder by s. */
  lemma ModOfMultiple(n: nat, s: nat, t: nat, w: nat)
    requires s > 0 && t > 0 && w == t * s
    ensures w > 0 && (n - n % s) % w == n % w - n % s
  {
    var q, r := n / s, n % s;
    var u, v := q / t, q % t;
    Distribute(u, t, v, s);
    assert n == u * w + v * s + r;
    DigitsMod(w, s, t, u, v, r);
    DigitsMod(w, s, t, u, v, 0);
  }

  lemma HalfMod(n: nat, s: nat)
    requires s > 0
    ensures n % (2 * s) == 2 * ((n / 2) % s) + n % 2
  {
    var q, r := (n / 2) / s, (n / 2) % s;
    assert n == 2 * (q * s + r) + n % 2;
    assert 2 * (q * s) == q * (2 * s);
    DivModUnique(n, 2 * s, q, 2 * r + n % 2);
  }

  /** Clearing bits is subtracting a remainder. */
  lemma {:induction false} MaskMod(n: nat, k: nat)
    ensures Mask(n, k) == n - n % Pow2(k)
    decreases k
  {
    if k > 0 {
      MaskMod(n / 2, k - 1);
      HalfMod(n, Pow2(k - 1));
    }
  }

  /** Masking fewer bits first changes nothing. */
  lemma {:induction false} MaskMask(n: nat, a: nat, b: nat)
    requires a <= b
    ensures Mask(Mask(n, a), b) == Mask(n, b)
    decreases a
  {
    if a > 0 {
      MaskMask(n / 2, a - 1, b - 1);
      assert (2 * Mask(n / 2, a - 1)) / 2 == Mask(n / 2, a - 1);
    }
  }

  lemma MaskIdempotent(n: nat, k: nat)
    ensures Mask(Mask(n, k), k) == Mask(n, k)
  {
    MaskMask(n, k, k);
  }

  lemma AlignedMod(c: Cidr)
    requires Aligned(c)
    ensures c.base % Size(c) == 0
  {
    MaskMod(c.base, HostBits(c));
  }

  lemma CanonAligned(c: Cidr)
    requires ValidCidr(c)
    ensures Aligned(Canon(c)) && Canon(Canon(c)) == Canon(c)
    ensures Aligned(c) <==> Canon(c) == c
  {
    MaskIdempotent(c.base, HostBits(c));
  }

  /** An aligned prefix is an interval of addresses. */
  lemma ContainsInterval(c: Cidr, ip: Ip)
    requires Aligned(c)
    ensures Contains(c, ip) <==> c.fam == ip.fam && c.base <= ip.n < c.base + Size(c)
  {
    var s := Size(c);
    AlignedMod(c);
    MaskMod(ip.n, HostBits(c));
    IntervalExact(c.base, ip.n, s);
  }

  lemma IntervalExact(b: nat, n: nat, s: nat)
    requires s > 0 && b % s == 0
    ensures n - n % s == b <==> b <= n < b + s
  {
    var q := b / s;
    assert b == q * s;
    if b <= n < b + s {
      DivModUnique(n, s, q, n - b);
    }
  }
}
