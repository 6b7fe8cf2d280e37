/** The decoder recovers what the writer put on the wire. */
module UpdateRoundTrip {
  import opened Net
  import opened Bytes
  import opened Routes
  import opened UpdateCodec

  // ---------- Prefixes ----------

  /** The octets that are sent are the address with its tail cleared. */
  lemma Truncated(n: nat, k: nat)
    requires n < Pow2(32) && k <= 4
    ensures Un32(Octets(n)[..k] + Zeros(4 - k)) == Mask(n, 8 * (4 - k))
  {
    hide Octets, Mask, Pow2, Zeros;
    var b := Octets(n);
    LowOctets(n);
    MaskOctets(n);
    var z := Zeros(4 - k);
    var s := b[..k] + z;
    if k == 0 {
      ZerosAre(4);
      assert s == [0, 0, 0, 0];
    } else if k == 1 {
      ZerosAre(3);
      assert s == [b[0], 0, 0, 0];
    } else if k == 2 {
      ZerosAre(2);
      assert s == [b[0], b[1], 0, 0];
    } else if k == 3 {
      ZerosAre(1);
      assert s == [b[0], b[1], b[2], 0];
    } else {
      assert s == b;
    }
  }

  lemma MaskOctets(n: nat)
    ensures Mask(n, 0) == n && Mask(n, 8) == n - n % 0x100 && Mask(n, 16) == n - n % 0x1_0000
    ensures Mask(n, 24) == n - n % 0x100_0000 && (n < Pow2(32) ==> Mask(n, 32) == 0)
  {
    hide Pow2, Mask;
    Pow2Constants();
    Pow2Zero();
    MaskBy(n, 0, 1);
    MaskBy(n, 8, 0x100);
    MaskBy(n, 16, 0x1_0000);
    MaskBy(n, 24, 0x100_0000);
    MaskBy(n, 32, 0x1_0000_0000);
  }

  lemma Pow2Zero()
    ensures Pow2(0) == 1
  {
  }

  lemma MaskBy(n: nat, k: nat, w: nat)
    requires Pow2(k) == w
    ensures w > 0 && Mask(n, k) == n - n % w
  {
    hide Pow2, Mask;
    MaskMod(n, k);
  }

  lemma LowOctets(n: nat)
    requires n < Pow2(32)
    ensures var b := Octets(n);
            var b0: int, b1: int, b2: int, b3: int := b[0], b[1], b[2], b[3];
            && n == b0 * 0x100_0000 + b1 * 0x1_0000 + b2 * 0x100 + b3
            && n % 0x100 == b3 && n % 0x1_0000 == b2 * 0x100 + b3 && n % 0x100_0000 == b1 * 0x1_0000 + b2 * 0x100 + b3
  {
    Pow2Constants();
    RoundTrip32(n);
  }

  lemma ZerosAre(n: nat)
    requires 1 <= n <= 4
    ensures Zeros(1) == [0] && Zeros(2) == [0, 0] && Zeros(3) == [0, 0, 0] && Zeros(4) == [0, 0, 0, 0]
  {
    assert Zeros(0) == [];
    assert Zeros(1) == [0];
    assert Zeros(2) == [0] + Zeros(1);
    assert Zeros(3) == [0] + Zeros(2);
    assert Zeros(4) == [0] + Zeros(3);
  }

  lemma PrefixRead(c: Cidr)
    requires V4Prefix(c)
    ensures DecodePrefix(c.len, PrintPrefix(c)[1..]) == Canon(c)
  {
    hide Mask, Octets;
    var k := BytesForBits(c.len);
    assert PrintPrefix(c)[1..] == Octets(c.base)[..k];
    Truncated(c.base, k);
    MaskMask(c.base, 8 * (4 - k), 32 - c.len);
  }

  function Canons(cs: seq<Cidr>): (r: seq<Cidr>)
    ensures |r| == |cs| && forall i :: 0 <= i < |cs| ==> r[i] == Canon(cs[i])
  {
    if cs == [] then [] else Canons(cs[..|cs| - 1]) + [Canon(cs[|cs| - 1])]
  }

  lemma {:induction false} PrefixesAppended(cs: seq<Cidr>, b: seq<Byte>)
    requires V4Prefixes(cs)
    ensures DecodePrefixes(PrintPrefixes(cs) + b)
         == match DecodePrefixes(b) case None => None case Some(ds) => Some(Canons(cs) + ds)
  {
    hide Canon, DecodePrefix, Octets, ValidCidr;
    if cs == [] {
      assert PrintPrefixes(cs) + b == b;
      if ds :| DecodePrefixes(b) == Some(ds) {
        assert Canons(cs) + ds == ds;
      }
    } else {
      var init, c := cs[..|cs| - 1], cs[|cs| - 1];
      var tail := PrintPrefix(c) + b;
      assert PrintPrefixes(cs) + b == PrintPrefixes(init) + tail;
      PrefixesAppended(init, tail);
      FirstPrefix(c, b);
      if ds :| DecodePrefixes(b) == Some(ds) {
        assert Canons(init) + ([Canon(c)] + ds) == Canons(cs) + ds;
      }
    }
  }

  lemma FirstPrefix(c: Cidr, b: seq<Byte>)
    requires V4Prefix(c)
    ensures DecodePrefixes(PrintPrefix(c) + b)
         == match DecodePrefixes(b) case None => None case Some(ds) => Some([Canon(c)] + ds)
  {
    hide Canon, DecodePrefix, Octets;
    var s := PrintPrefix(c) + b;
    var k := BytesForBits(c.len);
    PrefixRead(c);
    assert s[0] == c.len && s[1..1 + k] == PrintPrefix(c)[1..] && s[1 + k..] == b;
  }

  /** Every list of IPv4 prefixes is read back with irrelevant bits cleared. */
  lemma PrefixesRead(cs: seq<Cidr>)
    requires V4Prefixes(cs)
    ensures DecodePrefixes(PrintPrefixes(cs)) == Some(Canons(cs))
  {
    PrefixesAppended(cs, []);
    assert PrintPrefixes(cs) + [] == PrintPrefixes(cs);
    assert Canons(cs) + [] == Canons(cs);
  }

  // ---------- Attributes ----------

  lemma {:induction false} AttrsRead(attrs: seq<Attr>)
    requires AttrsOk(attrs)
    ensures DecodeAttrs(PrintAttrs(attrs)) == Some(attrs)
  {
    if attrs != [] {
      var a := attrs[0];
      var s := PrintAttrs(attrs);
      AttrsRead(attrs[1..]);
      var n := |a.value|;
      assert s[0] == a.flags && s[1] == a.code && s[2] == n && s[3..3 + n] == a.value
        && s[3 + n..] == PrintAttrs(attrs[1..]);
      assert attrs == [a] + attrs[1..];
    }
  }

  lemma {:induction false} WordsRead(ns: seq<U32>)
    ensures Words(Flat(ns)) == ns
  {
    hide Be32, Un32;
    if ns != [] {
      var init, n := ns[..|ns| - 1], ns[|ns| - 1];
      WordsRead(init);
      RoundTrip32(n);
      var b := Flat(ns);
      assert b[..|b| - 4] == Flat(init) && b[|b| - 4..] == Be32(n);
    }
  }

  lemma PathRead(asn: U32)
    ensures DecodePath(true, [2, 1] + Be32(asn)) == Some([asn])
  {
    hide Be32, Un32;
    var b: seq<Byte> := [2, 1] + Be32(asn);
    assert b[0] == 2 && b[1] == 1 && |b| == 6;
    assert b[2..6] == Be32(asn) && b[6..] == [];
    RoundTrip32(asn);
    assert Be32(asn)[..0] == [] && Be32(asn)[0..] == Be32(asn);
    assert Words(Be32(asn)) == [] + [asn];
    assert DecodePath(true, []) == Some([]);
    assert DecodePath(true, b) == Some(Words(b[2..6]) + []);
    assert Words(b[2..6]) + [] == [asn];
  }

  /** Two octets at a time the path starts with the upper half of the number. */
  lemma NarrowHead(asn: U32)
    ensures match DecodePath(false, [2, 1] + Be32(asn))
      case None => true
      case Some(path) => path != [] && path[0] == Un16(Be32(asn)[..2]) && Be32(asn)[2] == 2
  {
    hide Be32, Un16, DecodePath, Halves;
    var b: seq<Byte> := [2, 1] + Be32(asn);
    assert b[0] == 2 && b[1] == 1 && |b| == 6;
    assert b[2..4] == Be32(asn)[..2] && b[4..][0] == Be32(asn)[2];
    NarrowStep(b);
    OneHalf(b[2..4]);
  }

  lemma NarrowStep(b: seq<Byte>)
    requires |b| > 4 && b[0] == 2 && b[1] == 1
    ensures var rest := DecodePath(false, b[4..]);
      && DecodePath(false, b) == (if rest.None? then None else Some(Halves(b[2..4]) + rest.value))
      && (rest.Some? ==> b[4..][0] == 2)
  {
    hide Halves, Words;
  }

  lemma OneHalf(b: seq<Byte>)
    requires |b| == 2
    ensures Halves(b) == [Un16(b)]
  {
    hide Un16;
    assert b[..0] == [] && b[0..] == b;
  }

  lemma NarrowPath(asn: U32)
    ensures DecodePath(false, [2, 1] + Be32(asn)) != Some([asn])
  {
    hide DecodePath;
    NarrowHead(asn);
    assert Un16(Be32(asn)[..2]) == asn / 0x1_0000;
    assert asn == asn / 0x1_0000 ==> Be32(asn)[2] == 0;
  }

  lemma FoundAttrs(sp: Speaker, a: Adv)
    requires Sendable(a) && WellFormedAdv(a)
    ensures var attrs := AttrsOf(sp, a);
            && Find(attrs, 1) == Some([2])
            && Find(attrs, 2) == Some(if sp.ibgp then [] else [2, 1] + Be32(sp.asn))
            && Find(attrs, 3) == Some(Be32(HopOf(sp, a)))
            && Find(attrs, 5) == (if sp.ibgp then Some(Be32(a.localPref)) else None)
            && Find(attrs, 8) == (if a.communities != [] then Some(Flat(a.communities)) else None)
  {
    hide Be32, Flat, HopOf, Sendable, WellFormedAdv;
    var attrs := AttrsOf(sp, a);
    var tail := attrs[3..];
    assert attrs[1..][1..][1..] == tail;
    assert attrs[1..][0] == attrs[1] && attrs[1..][1..][0] == attrs[2];
    assert Find(attrs, 3) == Find(attrs[1..], 3) == Find(attrs[1..][1..], 3);
    forall code: Byte | code > 3
      ensures Find(attrs, code) == Find(tail, code)
    {
      assert Find(attrs, code) == Find(attrs[1..], code);
      assert Find(attrs[1..], code) == Find(attrs[1..][1..], code);
    }
    TailAttrs(sp, a, tail);
  }

  lemma TailAttrs(sp: Speaker, a: Adv, tail: seq<Attr>)
    requires tail == (if sp.ibgp then [Attr(0x40, 5, Be32(a.localPref))] else [])
                     + (if a.communities != [] then [Attr(0xc0, 8, Flat(a.communities))] else [])
    ensures Find(tail, 5) == if sp.ibgp then Some(Be32(a.localPref)) else None
    ensures Find(tail, 8) == if a.communities != [] then Some(Flat(a.communities)) else None
  {
    hide Be32, Flat;
    if tail != [] {
      assert Find(tail[1..], 5) == None
        && (tail[0].code != 8 ==> Find(tail[1..], 8) == if a.communities != [] then Some(Flat(a.communities)) else None) by {
        if |tail| == 2 {
          assert tail[1..] == [tail[1]] && [tail[1]][1..] == [];
        } else {
          assert tail[1..] == [];
        }
      }
    }
  }

  lemma ListRead(sp: Speaker, a: Adv)
    requires Sendable(a) && WellFormedAdv(a)
    ensures ListOk(AttrsOf(sp, a))
  {
    hide Be32, Flat, HopOf;
  }

  /** The octets of an UPDATE hold well-known attributes flagged 0x40 and communities flagged
      0xc0, with all unused bits clear. */
  lemma FlagsWritten(sp: Speaker, a: Adv)
    requires Sendable(a) && WellFormedAdv(a)
    ensures match DecodeAttrs(PrintAttrs(AttrsOf(sp, a)))
      case None => false
      case Some(attrs) => forall i :: 0 <= i < |attrs| ==> attrs[i].flags == if attrs[i].code == 8 then 0xc0 else 0x40
  {
    hide Be32, Flat, HopOf, PrintAttrs, DecodeAttrs;
    AttrsRead(AttrsOf(sp, a));
  }

  /** The attributes carry exactly the route, to a peer that reads four-octet AS numbers or
      has the same one, and to no other. */
  lemma RouteRead(wide: bool, sp: Speaker, a: Adv)
    requires Sendable(a) && WellFormedAdv(a)
    ensures DecodeRoute(wide, AttrsOf(sp, a)) == Some(RouteOf(sp, a)) <==> wide || sp.ibgp
    ensures !(wide || sp.ibgp) && DecodeRoute(wide, AttrsOf(sp, a)).Some? ==>
      DecodeRoute(wide, AttrsOf(sp, a)).value.asPath != [sp.asn]
  {
    hide Be32, Un32, Find, Flat, AttrsOf, DecodePath, Words, HopOf, Sendable, WellFormedAdv, ListOk;
    FoundAttrs(sp, a);
    ListRead(sp, a);
    PathRead(sp.asn);
    NarrowPath(sp.asn);
    RoundTrip32(HopOf(sp, a));
    RoundTrip32(a.localPref);
    WordsRead(a.communities);
    assert DecodePath(wide, []) == Some([]) by { EmptyPath(wide); }
  }

  lemma EmptyPath(wide: bool)
    ensures DecodePath(wide, []) == Some([])
  {
  }

  // ---------- Whole messages ----------

  /** The decoder finds the parts of a frame if it fits one message, and rejects it if not. */
  lemma FrameRead(wide: bool, w: seq<Byte>, a: seq<Byte>, n: seq<Byte>)
    ensures DecodeUpdate(wide, Frame(w, a, n))
      == if 23 + |w| + |a| + |n| <= 4096 then DecodeParts(wide, w, a, n) else None
  {
    hide DecodeParts, Un16, Be16;
    var m := Frame(w, a, n);
    var len := 23 + |w| + |a| + |n|;
    assert |m| == len;
    if len <= 4096 {
      RoundTrip16(len);
      RoundTrip16(|w|);
      RoundTrip16(|a|);
      FrameLayout(w, a, n);
    }
  }

  lemma FrameLayout(w: seq<Byte>, a: seq<Byte>, n: seq<Byte>)
    requires 23 + |w| + |a| + |n| <= 4096
    ensures var m := Frame(w, a, n);
            && |m| == 23 + |w| + |a| + |n| && m[..16] == MARKER && m[18] == 2
            && m[16..18] == Be16(|m|) && m[19..21] == Be16(|w|) && m[21..21 + |w|] == w
            && m[21 + |w|..23 + |w|] == Be16(|a|) && m[23 + |w|..23 + |w| + |a|] == a && m[23 + |w| + |a|..] == n
  {
    hide Be16, Frame;
    var len := 23 + |w| + |a| + |n|;
    var h, x, y := MARKER + Be16(len) + [2], Be16(|w|) + w, Be16(|a|) + a;
    var m := Frame(w, a, n);
    FrameParts(w, a, n);
    FourParts(h, x, y, n);
    HeadLayout(len);
    FieldLayout(w);
    FieldLayout(a);
    SubSlice(m, 0, h, 0, 16);
    SubSlice(m, 0, h, 16, 18);
    SubSlice(m, 19, x, 0, 2);
    SubSlice(m, 19, x, 2, |x|);
    SubSlice(m, 21 + |w|, y, 0, 2);
    SubSlice(m, 21 + |w|, y, 2, |y|);
    assert m[18] == h[18];
  }

  lemma FrameParts(w: seq<Byte>, a: seq<Byte>, n: seq<Byte>)
    requires 23 + |w| + |a| + |n| <= 4096
    ensures Frame(w, a, n) == (MARKER + Be16(23 + |w| + |a| + |n|) + [2]) + (Be16(|w|) + w) + (Be16(|a|) + a) + n
  {
    hide Be16;
  }

  lemma HeadLayout(len: U16)
    ensures var h := MARKER + Be16(len) + [2]; |h| == 19 && h[0..16] == MARKER && h[16..18] == Be16(len) && h[18] == 2
  {
    hide Be16;
  }

  lemma FieldLayout(w: seq<Byte>)
    requires |w| < 0x1_0000
    ensures var x := Be16(|w|) + w; |x| == 2 + |w| && x[0..2] == Be16(|w|) && x[2..|x|] == w
  {
    hide Be16;
  }

  lemma FourParts(h: seq<Byte>, x: seq<Byte>, y: seq<Byte>, n: seq<Byte>)
    ensures var m := h + x + y + n;
      && |m| == |h| + |x| + |y| + |n| && m[0..|h|] == h && m[|h|..|h| + |x|] == x
      && m[|h| + |x|..|h| + |x| + |y|] == y && m[|h| + |x| + |y|..] == n
  {
  }

  lemma SubSlice(m: seq<Byte>, i: nat, t: seq<Byte>, lo: nat, hi: nat)
    requires i + |t| <= |m| && m[i..i + |t|] == t && lo <= hi <= |t|
    ensures m[i + lo..i + hi] == t[lo..hi]
  {
    var u := m[i + lo..i + hi];
    forall k | 0 <= k < hi - lo
      ensures u[k] == t[lo..hi][k]
    {
      assert u[k] == m[i + (lo + k)] == m[i..i + |t|][lo + k];
    }
  }

  lemma {:induction false} AttrsSmall(sp: Speaker, a: Adv)
    requires Sendable(a) && WellFormedAdv(a)
    ensures |PrintAttrs(AttrsOf(sp, a))| <= 276
  {
    hide HopOf, Sendable, WellFormedAdv;
    var attrs := AttrsOf(sp, a);
    assert |a.communities| <= 63 by { Limits(a); }
    var t := attrs[3..];
    assert attrs[1..][1..][1..] == t && attrs[1..][0] == attrs[1] && attrs[1..][1..][0] == attrs[2];
    assert |PrintAttrs(attrs)| == |PrintAttr(attrs[0])| + |PrintAttr(attrs[1])| + |PrintAttr(attrs[2])| + |PrintAttrs(t)| by {
      assert PrintAttrs(attrs) == PrintAttr(attrs[0]) + PrintAttrs(attrs[1..]);
      assert PrintAttrs(attrs[1..]) == PrintAttr(attrs[1]) + PrintAttrs(attrs[1..][1..]);
    }
    var pref, comms := Attr(0x40, 5, Be32(a.localPref)), Attr(0xc0, 8, Flat(a.communities));
    if sp.ibgp && a.communities != [] {
      assert t == [pref, comms] && [pref, comms][1..] == [comms] && [comms][1..] == [];
      assert PrintAttrs(t) == PrintAttr(pref) + PrintAttrs([comms]);
      assert PrintAttrs([comms]) == PrintAttr(comms) + [];
    } else if sp.ibgp {
      assert t == [pref] && [pref][1..] == [];
    } else if a.communities != [] {
      assert t == [comms] && [comms][1..] == [];
      assert PrintAttrs(t) == PrintAttr(comms) + [];
    } else {
      assert t == [];
    }
  }

  lemma Limits(a: Adv)
    requires Sendable(a)
    ensures |a.communities| <= 63
  {
  }

  /** Every advertisement that passes the checks of `Set` makes one legal message of at most
      304 octets. A peer recovers exactly the prefix and the route if it reads four-octet AS
      numbers or the session is internal; else it may get the prefix but never the route. */
  lemma UpdateReadsBack(wide: bool, sp: Speaker, a: Adv)
    requires Sendable(a) && WellFormedAdv(a)
    ensures |UpdateBytes(sp, a)| <= 304
    ensures DecodeUpdate(wide, UpdateBytes(sp, a)) == Some(Update([], [Canon(a.prefix)], Some(RouteOf(sp, a))))
      <==> wide || sp.ibgp
    ensures !(wide || sp.ibgp) ==>
      match DecodeUpdate(wide, UpdateBytes(sp, a))
      case None => true
      case Some(u) => u.withdrawn == [] && u.announced == [Canon(a.prefix)] && u.route.Some? && u.route.value.asPath != [sp.asn]
  {
    hide DecodeUpdate, DecodeAttrs, DecodeRoute, AttrsOf, Canon, RouteOf, PrintAttrs, PrintPrefix;
    var attrs := AttrsOf(sp, a);
    AttrsSmall(sp, a);
    FrameRead(wide, [], PrintAttrs(attrs), PrintPrefix(a.prefix));
    AttrsRead(attrs);
    RouteRead(wide, sp, a);
    FirstPrefix(a.prefix, []);
    assert PrintPrefix(a.prefix) + [] == PrintPrefix(a.prefix);
    assert [Canon(a.prefix)] + [] == [Canon(a.prefix)];
  }

  /** A withdrawal is read back exactly when it fits one message of 4096 octets. */
  lemma WithdrawReadsBack(wide: bool, cs: seq<Cidr>)
    requires V4Prefixes(cs)
    ensures DecodeUpdate(wide, WithdrawBytes(cs))
         == if 23 + |PrintPrefixes(cs)| <= 4096 then Some(Update(Canons(cs), [], None)) else None
  {
    hide DecodeUpdate, Canons, PrintPrefixes;
    FrameRead(wide, PrintPrefixes(cs), [], []);
    PrefixesRead(cs);
  }

  lemma {:induction false} PrefixesSize(cs: seq<Cidr>)
    requires V4Prefixes(cs)
    ensures |cs| <= |PrintPrefixes(cs)| <= 5 * |cs|
  {
    if cs != [] {
      PrefixesSize(cs[..|cs| - 1]);
    }
  }
}
