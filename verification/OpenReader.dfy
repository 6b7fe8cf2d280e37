/** Reading an OPEN message from a connection: a byte stream seen through a stack of
    `io.LimitedReader`s, the innermost last. */
module OpenReader {
  import opened Net
  import opened Bytes
  import opened OpenCodec

  function Least(n: nat, limits: seq<nat>): (r: nat)
    ensures r <= n
  {
    if limits == [] then n
    else
      var r := Least(n, limits[..|limits| - 1]);
      if limits[|limits| - 1] < r then limits[|limits| - 1] else r
  }

  lemma {:induction false} LeastBelow(n: nat, limits: seq<nat>)
    ensures forall i :: 0 <= i < |limits| ==> Least(n, limits) <= limits[i]
  {
    if limits != [] {
      LeastBelow(n, limits[..|limits| - 1]);
    }
  }

  /** Every limit after m octets have gone by. */
  function Less(limits: seq<nat>, m: nat): (r: seq<nat>)
    ensures |r| == |limits|
  {
    seq(|limits|, i requires 0 <= i < |limits| => if m <= limits[i] then limits[i] - m else 0)
  }

  lemma {:induction false} LeastLess(n: nat, limits: seq<nat>, m: nat)
    requires m <= Least(n, limits)
    ensures Least(n - m, Less(limits, m)) == Least(n, limits) - m
  {
    LeastBelow(n, limits);
    if limits != [] {
      var init := limits[..|limits| - 1];
      LeastLess(n, init, m);
      assert Less(limits, m)[..|limits| - 1] == Less(init, m);
    }
  }

  /** The octets that can still be read through all limits. */
  ghost function Seen(r: seq<Byte>, l: seq<nat>): seq<Byte> {
    r[..Least(|r|, l)]
  }

  /** Reading m octets leads from one position to the other; no limit was added or dropped. */
  ghost predicate Reached(r0: seq<Byte>, l0: seq<nat>, m: nat, r: seq<Byte>, l: seq<nat>) {
    m <= Least(|r0|, l0) && r == r0[m..] && l == Less(l0, m)
  }

  lemma SeenAfter(r0: seq<Byte>, l0: seq<nat>, m: nat, r: seq<Byte>, l: seq<nat>)
    requires Reached(r0, l0, m, r, l)
    ensures m <= |Seen(r0, l0)| && Seen(r, l) == Seen(r0, l0)[m..]
  {
    LeastLess(|r0|, l0, m);
  }

  class Reader {
    var rest: seq<Byte>
    var limits: seq<nat>

    constructor (stream: seq<Byte>)
      ensures rest == stream && limits == []
    {
      rest, limits := stream, [];
    }

    ghost function Window(): seq<Byte>
      reads this
    {
      Seen(rest, limits)
    }

    ghost predicate Advanced(r0: seq<Byte>, l0: seq<nat>, m: nat)
      reads this
    {
      Reached(r0, l0, m, rest, limits)
    }

    /** `io.ReadFull`: k octets if there are as many, else all there are. */
    method Read(k: nat) returns (got: seq<Byte>)
      modifies this
      ensures var w := old(Window()); got == w[..if k <= |w| then k else |w|]
      ensures Advanced(old(rest), old(limits), |got|)
      ensures Window() == old(Window())[|got|..]
    {
      ghost var r0, l0 := rest, limits;
      var n := Least(|rest|, limits);
      if k < n {
        n := k;
      }
      LeastLess(|rest|, limits, n);
      got := rest[..n];
      rest := rest[n..];
      limits := Less(limits, n);
      SeenAfter(r0, l0, n, rest, limits);
    }

    method Push(n: nat)
      modifies this`limits
      ensures limits == old(limits) + [n]
      ensures var w := old(Window()); Window() == w[..if n <= |w| then n else |w|]
    {
      limits := limits + [n];
      assert limits[..|limits| - 1] == old(limits);
    }

    /** Drops the innermost limit and answers what was left of it. */
    method Pop() returns (left: nat)
      requires limits != []
      modifies this`limits
      ensures left == old(limits)[|old(limits)| - 1] && limits == old(limits)[..|old(limits)| - 1]
    {
      left := limits[|limits| - 1];
      limits := limits[..|limits| - 1];
    }

    /** A field of n octets, read k octets at most through a limit of its own. Answers what
        was read and how much of the limit was left. */
    method ReadField(n: nat, k: nat) returns (got: seq<Byte>, left: nat)
      modifies this
      ensures var w := old(Window());
              && |got| <= n && |got| <= k && |got| <= |w| && got == w[..|got|]
              && (|got| == n || |got| == k || |got| == |w|)
              && left == n - |got|
      ensures Advanced(old(rest), old(limits), |got|)
      ensures Window() == old(Window())[|got|..]
    {
      ghost var r0, l0 := rest, limits;
      Push(n);
      got := Read(k);
      left := Pop();
      LeastLess(|r0|, l0, |got|);
      InnerDropped(l0, n, |got|);
      SeenAfter(r0, l0, |got|, rest, limits);
    }

    /** The body of one capability. */
    method ReadCapability(code: Byte, n: Byte, ret: OpenResult) returns (r: Option<OpenResult>)
      modifies this
      ensures var w := old(Window());
              r == if |w| < n as int || ((code == 65 || code == 1) && n != 4) then None
                   else Some(Learn(ret, Cap(code, w[..n])))
      ensures r.Some? ==> Advanced(old(rest), old(limits), n) && Window() == old(Window())[n..]
    {
      hide Reached, Seen, Un32;
      var got, left;
      r := Some(ret);
      if code == 65 {
        got, left := ReadField(n, 4);
        if |got| < 4 {
          return None;
        }
        r := Some(ret.(asn := Un32(got)));
      } else if code == 1 {
        got, left := ReadField(n, 4);
        if |got| < 4 {
          return None;
        }
        var afi, safi := Un16(got[..2]), Un16(got[2..]);
        if afi == 1 && safi == 1 {
          r := Some(ret.(mp4 := true));
        } else if afi == 2 && safi == 1 {
          r := Some(ret.(mp6 := true));
        }
        FamilyBytes(got);
      } else {
        got, left := ReadField(n, n);
      }
      if left != 0 {
        return None;
      }
    }

    /** `readCapabilities`, inside the limit of one option. */
    method ReadCapabilities(ret: OpenResult) returns (r: Option<OpenResult>)
      modifies this
      ensures r == ParseCaps(old(Window()), ret)
      ensures r.Some? ==> Advanced(old(rest), old(limits), |old(Window())|)
    {
      hide Reached, Seen, Learn, ParseCaps;
      ghost var w0, r0, l0, m := Window(), rest, limits, 0;
      r := Some(ret);
      NotAdvanced(r0, l0);
      while true
        invariant r.Some? && Advanced(r0, l0, m) && m <= |w0| && Window() == w0[m..]
        invariant ParseCaps(w0, ret) == ParseCaps(w0[m..], r.value)
        decreases |w0| - m
      {
        CapsUnfold(w0[m..], r.value);
        ghost var r1, l1 := rest, limits;
        var hdr := Read(2);
        if |hdr| == 0 {
          Compose(r0, l0, m, r1, l1, 0, rest, limits);
          return;
        }
        if |hdr| < 2 {
          return None;
        }
        Compose(r0, l0, m, r1, l1, 2, rest, limits);
        ghost var r2, l2 := rest, limits;
        r := ReadCapability(hdr[0], hdr[1], r.value);
        if r.None? {
          return;
        }
        Compose(r0, l0, m + 2, r2, l2, hdr[1], rest, limits);
        m := m + 2 + hdr[1] as int;
      }
    }

    /** `readOptions`, inside the limit of the message body. */
    method ReadOptions(ret: OpenResult) returns (r: Option<OpenResult>)
      modifies this
      ensures r == ParseOptions(old(Window()), ret)
      ensures r.Some? ==> Advanced(old(rest), old(limits), |old(Window())|)
    {
      hide Reached, Seen, ParseOptions, ParseCaps;
      ghost var w0, r0, l0, m := Window(), rest, limits, 0;
      r := Some(ret);
      NotAdvanced(r0, l0);
      while true
        invariant r.Some? && Advanced(r0, l0, m) && m <= |w0| && Window() == w0[m..]
        invariant ParseOptions(w0, ret) == ParseOptions(w0[m..], r.value)
        decreases |w0| - m
      {
        OptionsUnfold(w0[m..], r.value);
        ghost var r1, l1 := rest, limits;
        var hdr := Read(2);
        if |hdr| == 0 {
          Compose(r0, l0, m, r1, l1, 0, rest, limits);
          return;
        }
        if |hdr| < 2 {
          return None;
        }
        Compose(r0, l0, m, r1, l1, 2, rest, limits);
        if hdr[0] != 2 {
          return None;
        }
        ghost var r2, l2 := rest, limits;
        var left;
        r, left := ReadOption(hdr[1], r.value);
        if r.None? || left != 0 {
          return None;
        }
        Compose(r0, l0, m + 2, r2, l2, hdr[1], rest, limits);
        m := m + 2 + hdr[1] as int;
      }
    }

    /** The capabilities of one option, read through a limit of n octets. */
    method ReadOption(n: Byte, ret: OpenResult) returns (r: Option<OpenResult>, left: nat)
      modifies this
      ensures var w := old(Window());
              var m := if n as int <= |w| then n else |w|;
              r == ParseCaps(w[..m], ret) && (r.Some? ==> left == n as int - m)
      ensures r.Some? && left == 0 ==> Advanced(old(rest), old(limits), n) && Window() == old(Window())[n..]
    {
      hide ParseCaps, Least, Less;
      ghost var r0, l0 := rest, limits;
      Push(n);
      ghost var m := |Window()|;
      r := ReadCapabilities(ret);
      left := 0;
      if r.Some? {
        LeastLess(|r0|, l0, m);
        InnerDropped(l0, n, m);
        left := Pop();
        SeenAfter(r0, l0, m, rest, limits);
      }
    }

    /** What follows the header, read through a limit of n octets. */
    method ReadBody(n: nat) returns (r: Option<OpenResult>)
      requires limits == []
      modifies this
      ensures var m := if n <= |old(rest)| then n else |old(rest)|;
              r == ParseBody(old(rest)[..m]) && (r.Some? ==> limits == [] && rest == old(rest)[m..])
    {
      hide ParseOptions, Un16, Less;
      Push(n);
      assert limits == [] + [n];
      ghost var body, r1, l1 := Window(), rest, limits;
      assert body == rest[..if n <= |rest| then n else |rest|];
      var open := Read(10);
      if |open| < 10 || open[0] != 4 {
        return None;
      }
      assert open[3..5] == body[3..5] && open[1..3] == body[1..3];
      var hold := Un16(open[3..5]);
      if hold != 0 && hold < 3 {
        return None;
      }
      ghost var r2, l2 := rest, limits;
      r := ReadOptions(OpenResult(Un16(open[1..3]), hold, false, false));
      if r.Some? {
        Compose(r1, l1, 10, r2, l2, |body| - 10, rest, limits);
        InnerDropped([], n, |body|);
        EmptyLess(|body|);
        var _ := Pop();
      }
    }

    /** `readOpen` on a connection that delivers the octets of `rest` and then ends: accepts
        exactly the grammar's messages and takes exactly the message's length. */
    method ReadOpen() returns (r: Option<OpenResult>)
      requires limits == []
      modifies this
      ensures r == ParseOpen(old(rest))
      ensures r.Some? ==> limits == [] && rest == old(rest)[Consumed(old(rest))..]
    {
      hide ParseBody, Un16, Less;
      ghost var s := rest;
      var hdr := Read(19);
      if |hdr| < 19 {
        return None;
      }
      assert hdr[16..18] == s[16..18] && hdr[..16] == s[..16];
      if hdr[..16] != MARKER {
        return None;
      }
      if hdr[18] == 3 || hdr[18] != 1 {
        return None;
      }
      var len := Un16(hdr[16..18]);
      if len < 37 {
        return None;
      }
      EmptyLess(19);
      r := ReadBody(len - 19);
      ghost var m := Consumed(s) - 19;
      assert s[19..][..m] == s[19..Consumed(s)] && s[19..][m..] == s[Consumed(s)..];
    }
  }

  /** `sendOpen`: the fixed layout with the length filled in, and the two-octet AS number
      replaced by AS_TRANS when the real one does not fit. */
  method SendOpen(asn: U32, routerId: U32, hold: U16) returns (msg: seq<Byte>)
    ensures msg == OpenBytes(asn, routerId, hold)
    ensures ParseOpen(msg) == if hold == 0 || hold >= 3 then Some(OpenResult(asn, hold, true, true)) else None
  {
    hide ParseOpen, OurOption, Be16, Be32, Patch16;
    var asn16 := asn % 0x1_0000;
    if asn > 65535 {
      asn16 := 23456;
    }
    var caps: seq<Byte> := [1, 4] + Be16(1) + Be16(1) + [1, 4] + Be16(2) + Be16(1) + [65, 4] + Be32(asn);
    var tail := [1, 4] + Be16(asn16) + Be16(hold) + Be32(routerId) + [20] + ([2, 18] + caps);
    OurFields(asn, caps);
    assert |tail| == 31;
    msg := MARKER + Be16(0) + tail;
    PatchAt(MARKER, Be16(0), tail, |msg|);
    msg := Patch16(msg, 16, |msg|);
    ReadsBack(asn, routerId, hold);
  }

  lemma OurFields(asn: U32, caps: seq<Byte>)
    requires caps == [1, 4] + Be16(1) + Be16(1) + [1, 4] + Be16(2) + Be16(1) + [65, 4] + Be32(asn)
    ensures [2, 18] + caps == OurOption(asn) && |OurOption(asn)| == 20
  {
    hide PrintCaps;
    OurCapsOk(asn);
    assert caps == PrintCaps(OurCaps(asn));
  }

  lemma ReadsBack(asn: U32, routerId: U32, hold: U16)
    ensures ParseOpen(OpenBytes(asn, routerId, hold))
      == if hold == 0 || hold >= 3 then Some(OpenResult(asn, hold, true, true)) else None
  {
    hide ParseOpen, OpenBytes;
    OpenRoundTrip(asn, routerId, hold, []);
    assert OpenBytes(asn, routerId, hold) + [] == OpenBytes(asn, routerId, hold);
  }

  lemma FamilyBytes(b: seq<Byte>)
    requires |b| == 4
    ensures Un16(b[..2]) == 1 && Un16(b[2..]) == 1 <==> b == [0, 1, 0, 1]
    ensures Un16(b[..2]) == 2 && Un16(b[2..]) == 1 <==> b == [0, 2, 0, 1]
  {
    assert b == [b[0], b[1], b[2], b[3]];
  }

  lemma NotAdvanced(r: seq<Byte>, l: seq<nat>)
    ensures Reached(r, l, 0, r, l) && Seen(r, l)[0..] == Seen(r, l)
  {
  }

  /** Two advances in a row are one. */
  lemma Compose(r0: seq<Byte>, l0: seq<nat>, m: nat, r1: seq<Byte>, l1: seq<nat>, k: nat, r2: seq<Byte>, l2: seq<nat>)
    requires Reached(r0, l0, m, r1, l1) && Reached(r1, l1, k, r2, l2)
    ensures Reached(r0, l0, m + k, r2, l2)
    ensures m + k <= |Seen(r0, l0)| && Seen(r2, l2) == Seen(r0, l0)[m + k..]
  {
    hide Least, Less;
    LeastLess(|r0|, l0, m);
    LessLess(l0, m, k);
    DropDrop(r0, m, k);
    SeenAfter(r0, l0, m + k, r2, l2);
  }

  lemma LessLess(l: seq<nat>, m: nat, k: nat)
    ensures Less(Less(l, m), k) == Less(l, m + k)
  {
  }

  lemma DropDrop(s: seq<Byte>, m: nat, k: nat)
    requires m + k <= |s|
    ensures s[m..][k..] == s[m + k..]
  {
  }

  lemma EmptyLess(m: nat)
    ensures Less([], m) == []
  {
  }

  lemma InnerDropped(l0: seq<nat>, n: nat, m: nat)
    requires m <= n
    ensures Less(l0 + [n], m)[..|l0|] == Less(l0, m) && Less(l0 + [n], m)[|l0|] == n - m
  {
  }

  lemma CapsUnfold(w: seq<Byte>, r: OpenResult)
    ensures w == [] ==> ParseCaps(w, r) == Some(r)
    ensures 1 <= |w| < 2 ==> ParseCaps(w, r) == None
    ensures |w| >= 2 ==>
              var v := w[2..];
              ParseCaps(w, r) == if |v| < w[1] as int || ((w[0] == 65 || w[0] == 1) && w[1] != 4) then None
                                 else ParseCaps(w[End(w)..], Learn(r, Cap(w[0], v[..w[1]])))
  {
    if |w| >= 2 && |w| >= End(w) {
      assert w[2..][..w[1]] == w[2..End(w)];
    }
  }

  lemma OptionsUnfold(w: seq<Byte>, r: OpenResult)
    ensures w == [] ==> ParseOptions(w, r) == Some(r)
    ensures 1 <= |w| < 2 ==> ParseOptions(w, r) == None
    ensures |w| >= 2 ==>
              var v := w[2..];
              ParseOptions(w, r) == if w[0] != 2 || |v| < w[1] as int || ParseCaps(v[..w[1]], r).None? then None
                                    else ParseOptions(w[End(w)..], ParseCaps(v[..w[1]], r).value)
  {
    if |w| >= 2 && |w| >= End(w) {
      assert w[2..][..w[1]] == w[2..End(w)];
    }
  }
}
