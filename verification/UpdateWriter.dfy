/** The writers of UPDATE and KEEPALIVE messages (internal/bgp/messages.go), appending to a
    buffer and going back to fill in the length fields. */
module UpdateWriter {
  import opened Net
  import opened Bytes
  import opened Routes
  import opened UpdateCodec

  /** `bytes.Buffer`. */
  class Buffer {
    var data: seq<Byte>

    constructor ()
      ensures data == []
    {
      data := [];
    }

    method Write(bs: seq<Byte>)
      modifies this
      ensures data == old(data) + bs
    {
      data := data + bs;
    }

    method PutUint16(at: nat, n: U16)
      requires at + 2 <= |data|
      modifies this
      ensures data == Patch16(old(data), at, n)
    {
      data := data[at := n / 0x100][at + 1 := n % 0x100];
    }
  }

  method EncodePathAttrs(b: Buffer, sp: Speaker, a: Adv)
    requires Sendable(a) && WellFormedAdv(a)
    modifies b
    ensures b.data == old(b.data) + PrintAttrs(AttrsOf(sp, a))
  {
    hide Be32, Flat, PrintAttrs, AttrsOf, MandatoryBytes, PrefBytes;
    ghost var start := b.data;
    AttrBytes(sp, a);
    WriteMandatory(b, sp, a);
    WritePref(b, sp, a);
    ghost var data := b.data;
    if |a.communities| > 0 {
      b.Write([0xc0, 8]);
      b.Write([|a.communities| * 4]);
      WriteCommunities(b, a.communities);
    }
    assert b.data == data + CommunityBytes(a);
    Joined(start, MandatoryBytes(sp, a), PrefBytes(sp, a), CommunityBytes(a));
  }

  lemma Joined(s: seq<Byte>, a: seq<Byte>, b: seq<Byte>, c: seq<Byte>)
    ensures s + a + b + c == s + (a + b + c)
  {
  }

  /** Origin, AS path and next hop. */
  method WriteMandatory(b: Buffer, sp: Speaker, a: Adv)
    requires Sendable(a) && WellFormedAdv(a)
    modifies b
    ensures b.data == old(b.data) + MandatoryBytes(sp, a)
  {
    hide Be32, HopOf, Octets, PathBytes, Sendable, WellFormedAdv;
    ghost var start := b.data;
    WritePath(b, sp);
    b.Write([0x40, 3, 4]);
    HopIs(sp, a);
    if a.nextHop.Some? {
      b.Write(Octets(a.nextHop.value.n));
    } else {
      b.Write(Be32(sp.address));
    }
    Joined(start, PathBytes(sp), [0x40, 3, 4], Be32(HopOf(sp, a)));
    Joined([], PathBytes(sp), [0x40, 3, 4], Be32(HopOf(sp, a)));
  }

  method WritePath(b: Buffer, sp: Speaker)
    modifies b
    ensures b.data == old(b.data) + PathBytes(sp)
  {
    hide Be32;
    b.Write([0x40, 1, 1, 2, 0x40, 2]);
    if sp.ibgp {
      b.Write([0]);
    } else {
      b.Write([6, 2, 1]);
      b.Write(Be32(sp.asn));
    }
    assert b.data == old(b.data) + PathBytes(sp);
  }

  method WritePref(b: Buffer, sp: Speaker, a: Adv)
    modifies b
    ensures b.data == old(b.data) + PrefBytes(sp, a)
  {
    hide Be32;
    if sp.ibgp {
      b.Write([0x40, 5, 4]);
      b.Write(Be32(a.localPref));
    }
  }

  method WriteCommunities(b: Buffer, cs: seq<U32>)
    modifies b
    ensures b.data == old(b.data) + Flat(cs)
  {
    hide Be32;
    for i := 0 to |cs|
      invariant b.data == old(b.data) + Flat(cs[..i])
    {
      assert cs[..i + 1][..i] == cs[..i];
      b.Write(Be32(cs[i]));
    }
    assert cs[..|cs|] == cs;
  }

  lemma HopIs(sp: Speaker, a: Adv)
    requires Sendable(a) && WellFormedAdv(a)
    ensures a.nextHop.Some? ==> a.nextHop.value.n < Pow2(32) && Octets(a.nextHop.value.n) == Be32(HopOf(sp, a))
    ensures a.nextHop.None? ==> HopOf(sp, a) == sp.address
  {
  }

  function MandatoryBytes(sp: Speaker, a: Adv): seq<Byte>
    requires Sendable(a) && WellFormedAdv(a)
  {
    PathBytes(sp) + ([0x40, 3, 4] + Be32(HopOf(sp, a)))
  }

  function PathBytes(sp: Speaker): seq<Byte> {
    [0x40, 1, 1, 2, 0x40, 2] + (if sp.ibgp then [0] else [6, 2, 1] + Be32(sp.asn))
  }

  function PrefBytes(sp: Speaker, a: Adv): seq<Byte> {
    if sp.ibgp then [0x40, 5, 4] + Be32(a.localPref) else []
  }

  function CommunityBytes(a: Adv): seq<Byte>
    requires |a.communities| <= 63
  {
    if a.communities != [] then [0xc0, 8, 4 * |a.communities|] + Flat(a.communities) else []
  }

  lemma OneAttr(a: Attr)
    requires AttrOk(a)
    ensures PrintAttrs([a]) == PrintAttr(a)
  {
    assert [a][1..] == [];
    assert PrintAttr(a) + [] == PrintAttr(a);
  }

  lemma {:induction false} PrintAppended(xs: seq<Attr>, ys: seq<Attr>)
    requires AttrsOk(xs) && AttrsOk(ys)
    ensures PrintAttrs(xs + ys) == PrintAttrs(xs) + PrintAttrs(ys)
  {
    hide PrintAttr, AttrOk;
    if xs == [] {
      assert xs + ys == ys;
    } else {
      assert (xs + ys)[1..] == xs[1..] + ys;
      PrintAppended(xs[1..], ys);
    }
  }

  /** The octets written are the attributes in order. */
  lemma AttrBytes(sp: Speaker, a: Adv)
    requires Sendable(a) && WellFormedAdv(a)
    ensures PrintAttrs(AttrsOf(sp, a)) == MandatoryBytes(sp, a) + PrefBytes(sp, a) + CommunityBytes(a)
  {
    hide Be32, HopOf, Flat, PrintAttrs;
    var a1, a2, a3 := Attr(0x40, 1, [2]), Attr(0x40, 2, if sp.ibgp then [] else [2, 1] + Be32(sp.asn)),
                      Attr(0x40, 3, Be32(HopOf(sp, a)));
    var a5, a8 := Attr(0x40, 5, Be32(a.localPref)), Attr(0xc0, 8, Flat(a.communities));
    var pref := if sp.ibgp then [a5] else [];
    var comms := if a.communities != [] then [a8] else [];
    var first := [a1, a2, a3];
    assert AttrsOf(sp, a) == first + pref + comms;
    PrintAppended(first + pref, comms);
    PrintAppended(first, pref);
    assert first == [a1] + ([a2] + [a3]);
    PrintAppended([a1], [a2] + [a3]);
    PrintAppended([a2], [a3]);
    OneAttr(a1);
    OneAttr(a2);
    OneAttr(a3);
    NoAttr();
    if sp.ibgp {
      OneAttr(a5);
    }
    if a.communities != [] {
      OneAttr(a8);
    }
    assert PrintAttr(a1) + (PrintAttr(a2) + PrintAttr(a3)) == MandatoryBytes(sp, a);
  }

  lemma NoAttr()
    ensures PrintAttrs([]) == []
  {
  }

  method EncodePrefix(b: Buffer, c: Cidr)
    requires V4Prefix(c)
    modifies b
    ensures b.data == old(b.data) + PrintPrefix(c)
  {
    hide Octets;
    b.Write([c.len]);
    b.Write(Octets(c.base)[..BytesForBits(c.len)]);
  }

  method EncodePrefixes(b: Buffer, cs: seq<Cidr>)
    requires V4Prefixes(cs)
    modifies b
    ensures b.data == old(b.data) + PrintPrefixes(cs)
  {
    hide PrintPrefix, ValidCidr;
    for i := 0 to |cs|
      invariant b.data == old(b.data) + PrintPrefixes(cs[..i])
    {
      var c := cs[i];
      EncodePrefix(b, c);
      assert cs[..i + 1][..i] == cs[..i];
      assert PrintPrefixes(cs[..i + 1]) == PrintPrefixes(cs[..i]) + PrintPrefix(c);
    }
    assert cs[..|cs|] == cs;
  }

  /** `sendUpdate`: both length fields are filled in after the fact. */
  method SendUpdate(sp: Speaker, a: Adv) returns (msg: seq<Byte>)
    requires Sendable(a) && WellFormedAdv(a)
    ensures msg == UpdateBytes(sp, a)
  {
    hide PrintAttrs, AttrsOf, PrintPrefix, Be16, Patch16;
    var b := new Buffer();
    b.Write(MARKER + Be16(0) + [2] + Be16(0) + Be16(0));
    assert b.data == MARKER + Be16(0) + [2] + Be16(0) + Be16(0);
    var l := |b.data|;
    EncodePathAttrs(b, sp, a);
    ghost var attrs := PrintAttrs(AttrsOf(sp, a));
    b.PutUint16(21, (|b.data| - l) % 0x1_0000);
    EncodePrefixes(b, [a.prefix]);
    OnePrefix(a.prefix);
    b.PutUint16(16, |b.data| % 0x1_0000);
    PatchedUpdate(attrs, PrintPrefix(a.prefix));
    msg := b.data;
  }

  lemma OnePrefix(c: Cidr)
    requires V4Prefix(c)
    ensures PrintPrefixes([c]) == PrintPrefix(c)
  {
    hide PrintPrefix;
    assert [c][..0] == [];
    assert PrintPrefixes([]) + PrintPrefix(c) == PrintPrefix(c);
  }

  lemma PatchedUpdate(attrs: seq<Byte>, nlri: seq<Byte>)
    ensures var hdr := MARKER + Be16(0) + [2] + Be16(0) + Be16(0);
            var m := Patch16(hdr + attrs, 21, |attrs| % 0x1_0000) + nlri;
            Patch16(m, 16, |m| % 0x1_0000) == Frame([], attrs, nlri)
  {
    hide Be16, Patch16;
    var hdr := MARKER + Be16(0) + [2] + Be16(0) + Be16(0);
    var al := |attrs| % 0x1_0000;
    var front := MARKER + Be16(0) + [2] + Be16(0);
    assert hdr + attrs == front + Be16(0) + attrs;
    PatchAt(front, Be16(0), attrs, al);
    var m := front + Be16(al) + attrs + nlri;
    var back := [2] + Be16(0) + Be16(al) + attrs + nlri;
    assert m == MARKER + Be16(0) + back;
    PatchAt(MARKER, Be16(0), back, |m| % 0x1_0000);
    assert Be16(0) + [] == Be16(0);
  }

  /** `sendWithdraw`. */
  method SendWithdraw(cs: seq<Cidr>) returns (msg: seq<Byte>)
    requires V4Prefixes(cs)
    ensures msg == WithdrawBytes(cs)
  {
    hide PrintPrefixes, Be16, Patch16;
    var b := new Buffer();
    b.Write(MARKER + Be16(0) + [2] + Be16(0));
    assert b.data == MARKER + Be16(0) + [2] + Be16(0);
    var l := |b.data|;
    EncodePrefixes(b, cs);
    b.PutUint16(19, (|b.data| - l) % 0x1_0000);
    b.Write(Be16(0));
    b.PutUint16(16, |b.data| % 0x1_0000);
    PatchedWithdraw(PrintPrefixes(cs));
    msg := b.data;
  }

  lemma PatchedWithdraw(w: seq<Byte>)
    ensures var m := Patch16(MARKER + Be16(0) + [2] + Be16(0) + w, 19, |w| % 0x1_0000) + Be16(0);
            Patch16(m, 16, |m| % 0x1_0000) == Frame(w, [], [])
  {
    hide Be16, Patch16;
    var wl := |w| % 0x1_0000;
    PatchAt(MARKER + Be16(0) + [2], Be16(0), w, wl);
    var m := MARKER + Be16(0) + [2] + Be16(wl) + w + Be16(0);
    var back := [2] + Be16(wl) + w + Be16(0);
    assert m == MARKER + Be16(0) + back;
    PatchAt(MARKER, Be16(0), back, |m| % 0x1_0000);
    assert MARKER + Be16(|m| % 0x1_0000) + back == Frame(w, [], []);
  }
}
