/** OPEN messages (internal/bgp/messages.go): the writer, the reader over nested limits, and
    the grammar of capability options that the reader accepts. */
module OpenCodec {
  import opened Net
  import opened Bytes

  datatype OpenResult = OpenResult(asn: U32, holdTime: U16, mp4: bool, mp6: bool)

  // ---------- The grammar ----------

  datatype Cap = Cap(code: Byte, data: seq<Byte>)

  type Caps = seq<Cap>

  /** The two capabilities that are understood have four octets of data. */
  predicate CapOk(c: Cap) {
    |c.data| < 0x100 && (c.code == 65 || c.code == 1 ==> |c.data| == 4)
  }

  function PrintCap(c: Cap): seq<Byte>
    requires CapOk(c)
  {
    [c.code, |c.data|] + c.data
  }

  predicate CapsOk(cs: Caps) {
    forall i :: 0 <= i < |cs| ==> CapOk(cs[i])
  }

  function PrintCaps(cs: Caps): seq<Byte>
    requires CapsOk(cs)
  {
    if cs == [] then [] else PrintCap(cs[0]) + PrintCaps(cs[1..])
  }

  /** One optional parameter of type 2 holds a list of capabilities. */
  predicate OptionsOk(os: seq<Caps>) {
    forall i :: 0 <= i < |os| ==> CapsOk(os[i]) && |PrintCaps(os[i])| < 0x100
  }

  function PrintOption(cs: Caps): seq<Byte>
    requires CapsOk(cs) && |PrintCaps(cs)| < 0x100
  {
    [2, |PrintCaps(cs)|] + PrintCaps(cs)
  }

  function PrintOptions(os: seq<Caps>): seq<Byte>
    requires OptionsOk(os)
  {
    if os == [] then [] else PrintOption(os[0]) + PrintOptions(os[1..])
  }

  /** What a capability says about the peer. */
  function Learn(r: OpenResult, c: Cap): OpenResult
    requires CapOk(c)
  {
    if c.code == 65 then r.(asn := Un32(c.data))
    else if c.code == 1 && c.data == [0, 1, 0, 1] then r.(mp4 := true)
    else if c.code == 1 && c.data == [0, 2, 0, 1] then r.(mp6 := true)
    else r
  }

  function LearnCaps(r: OpenResult, cs: Caps): OpenResult
    requires CapsOk(cs)
    decreases cs
  {
    if cs == [] then r else LearnCaps(Learn(r, cs[0]), cs[1..])
  }

  function LearnAll(r: OpenResult, os: seq<Caps>): OpenResult
    requires OptionsOk(os)
    decreases os
  {
    if os == [] then r else LearnAll(LearnCaps(r, os[0]), os[1..])
  }

  // ---------- Parsing a window of octets ----------

  /** The end of the type-length-value field that starts the window. */
  function End(w: seq<Byte>): int
    requires |w| >= 2
  {
    2 + w[1] as int
  }

  function ParseCaps(w: seq<Byte>, r: OpenResult): Option<OpenResult> {
    if w == [] then Some(r)
    else if |w| < 2 || |w| < End(w) || ((w[0] == 65 || w[0] == 1) && w[1] != 4) then None
    else ParseCaps(w[End(w)..], Learn(r, Cap(w[0], w[2..End(w)])))
  }

  function ParseOptions(w: seq<Byte>, r: OpenResult): Option<OpenResult> {
    if w == [] then Some(r)
    else if |w| < 2 || w[0] != 2 || |w| < End(w) then None
    else match ParseCaps(w[2..End(w)], r)
      case None => None
      case Some(r') => ParseOptions(w[End(w)..], r')
  }

  lemma {:induction false} CapsAccepted(cs: Caps, r: OpenResult)
    requires CapsOk(cs)
    ensures ParseCaps(PrintCaps(cs), r) == Some(LearnCaps(r, cs))
  {
    hide Learn;
    if cs != [] {
      var w, c := PrintCaps(cs), cs[0];
      assert w[2..End(w)] == c.data && w[End(w)..] == PrintCaps(cs[1..]);
      assert Cap(c.code, c.data) == c;
      CapsAccepted(cs[1..], Learn(r, c));
    }
  }

  lemma {:induction false} CapsOnly(w: seq<Byte>, r: OpenResult) returns (cs: Caps)
    requires ParseCaps(w, r).Some?
    ensures CapsOk(cs) && PrintCaps(cs) == w && ParseCaps(w, r).value == LearnCaps(r, cs)
  {
    hide Learn;
    if w == [] {
      cs := [];
    } else {
      var c := Cap(w[0], w[2..End(w)]);
      var rest := CapsOnly(w[End(w)..], Learn(r, c));
      cs := [c] + rest;
      assert cs[1..] == rest;
      assert w == PrintCap(c) + w[End(w)..];
    }
  }

  lemma {:induction false} OptionsAccepted(os: seq<Caps>, r: OpenResult)
    requires OptionsOk(os)
    ensures ParseOptions(PrintOptions(os), r) == Some(LearnAll(r, os))
  {
    hide CapsOk, ParseCaps, LearnCaps, PrintCaps;
    if os != [] {
      var w, cs := PrintOptions(os), os[0];
      assert w[2..End(w)] == PrintCaps(cs) && w[End(w)..] == PrintOptions(os[1..]);
      CapsAccepted(cs, r);
      OptionsAccepted(os[1..], LearnCaps(r, cs));
    }
  }

  lemma {:induction false} OptionsOnly(w: seq<Byte>, r: OpenResult) returns (os: seq<Caps>)
    requires ParseOptions(w, r).Some?
    ensures OptionsOk(os) && PrintOptions(os) == w && ParseOptions(w, r).value == LearnAll(r, os)
  {
    hide CapsOk, ParseCaps, LearnCaps, PrintCaps;
    if w == [] {
      os := [];
    } else {
      var body := w[2..End(w)];
      var cs := CapsOnly(body, r);
      var rest := OptionsOnly(w[End(w)..], LearnCaps(r, cs));
      os := [cs] + rest;
      assert os[1..] == rest;
      assert w == PrintOption(cs) + w[End(w)..];
    }
  }

  /** The option area is accepted exactly when it is the printed form of some list of
      capability options, and the result is what those capabilities say. */
  lemma OptionsExact(w: seq<Byte>, r: OpenResult, r': OpenResult)
    ensures ParseOptions(w, r) == Some(r')
      <==> exists os :: OptionsOk(os) && PrintOptions(os) == w && LearnAll(r, os) == r'
  {
    hide OptionsOk, ParseOptions, PrintOptions, LearnAll;
    if ParseOptions(w, r) == Some(r') {
      var os := OptionsOnly(w, r);
    }
    if os :| OptionsOk(os) && PrintOptions(os) == w && LearnAll(r, os) == r' {
      OptionsAccepted(os, r);
    }
  }

  // ---------- The whole message ----------

  /** What is read from a stream that starts with the octets s and then ends. A stream cut
      short between two options reads as if the message ended there. */
  function ParseOpen(s: seq<Byte>): Option<OpenResult> {
    if |s| < 19 || s[..16] != MARKER || s[18] != 1 then None
    else
      var len := Un16(s[16..18]);
      if len < 37 then None else ParseBody(s[19..Consumed(s)])
  }

  function ParseBody(body: seq<Byte>): Option<OpenResult> {
    if |body| < 10 || body[0] != 4 then None
    else
      var hold := Un16(body[3..5]);
      if hold != 0 && hold < 3 then None
      else ParseOptions(body[10..], OpenResult(Un16(body[1..3]), hold, false, false))
  }

  /** How much of the stream an accepted message takes: its length, unless the stream ends. */
  function Consumed(s: seq<Byte>): (n: nat)
    requires |s| >= 19 && Un16(s[16..18]) >= 37
    ensures 19 <= n <= |s|
  {
    if Un16(s[16..18]) <= |s| then Un16(s[16..18]) else |s|
  }

  function OpenBytes(asn: U32, routerId: U32, hold: U16): seq<Byte> {
    MARKER + Be16(49) + OpenTail(asn, if asn > 65535 then 23456 else asn, routerId, hold)
  }

  /** Everything after the length field. */
  function OpenTail(asn: U32, asn16: U16, routerId: U32, hold: U16): (r: seq<Byte>)
    ensures |r| == 11 + |OurOption(asn)|
  {
    [1, 4] + Be16(asn16) + Be16(hold) + Be32(routerId) + [20] + OurOption(asn)
  }

  function OurOption(asn: U32): seq<Byte> {
    OurCapsOk(asn);
    PrintOption(OurCaps(asn))
  }

  /** Multiprotocol IPv4 and IPv6 unicast, and four-octet AS numbers. */
  function OurCaps(asn: U32): Caps {
    [Cap(1, [0, 1, 0, 1]), Cap(1, [0, 2, 0, 1]), Cap(65, Be32(asn))]
  }

  lemma OurCapsOk(asn: U32)
    ensures CapsOk(OurCaps(asn))
    ensures PrintCaps(OurCaps(asn)) == [1, 4, 0, 1, 0, 1, 1, 4, 0, 2, 0, 1, 65, 4] + Be32(asn)
  {
    var c0, c1, c2 := Cap(1, [0, 1, 0, 1]), Cap(1, [0, 2, 0, 1]), Cap(65, Be32(asn));
    assert [c2][1..] == [] && [c1, c2][1..] == [c2] && [c0, c1, c2][1..] == [c1, c2];
    assert PrintCaps([c2]) == PrintCap(c2);
    assert PrintCaps([c1, c2]) == PrintCap(c1) + PrintCap(c2);
    assert PrintCaps([c0, c1, c2]) == PrintCap(c0) + (PrintCap(c1) + PrintCap(c2));
  }

  /** The message spelled out, with its fixed offsets. */
  lemma OpenLayout(asn: U32, routerId: U32, hold: U16, rest: seq<Byte>)
    ensures var s := OpenBytes(asn, routerId, hold) + rest;
            && |s| == 49 + |rest| && s[..16] == MARKER && s[16..18] == Be16(49) && s[18] == 1 && s[19] == 4
            && s[20..22] == Be16(if asn > 65535 then 23456 else asn) && s[22..24] == Be16(hold)
            && s[24..28] == Be32(routerId) && s[28] == 20 && s[29..49] == OurOption(asn)
            && s[49..] == rest
  {
    OurCapsOk(asn);
  }

  lemma OurOptionsRead(asn: U32, r: OpenResult)
    ensures ParseOptions(OurOption(asn), r) == Some(OpenResult(asn, r.holdTime, true, true))
  {
    OurCapsOk(asn);
    var cs := OurCaps(asn);
    var os := [cs];
    assert OptionsOk(os);
    assert PrintOptions(os) == PrintOption(cs) by { assert os[1..] == []; }
    OptionsAccepted(os, r);
    assert LearnAll(r, os) == LearnCaps(r, cs) by { assert os[1..] == []; }
    var c0, c1, c2 := cs[0], cs[1], cs[2];
    assert cs[1..] == [c1, c2] && [c1, c2][1..] == [c2] && [c2][1..] == [];
    var r1 := Learn(r, c0);
    var r2 := Learn(r1, c1);
    assert LearnCaps(r, cs) == Learn(r2, c2) by {
      assert LearnCaps(r, cs) == LearnCaps(r1, [c1, c2]);
      assert LearnCaps(r1, [c1, c2]) == LearnCaps(r2, [c2]);
      assert LearnCaps(r2, [c2]) == LearnCaps(Learn(r2, c2), []);
    }
    RoundTrip32(asn);
  }

  /** Whatever follows on the stream, the reader recovers the AS number (also above 65535)
      and the hold time the writer sent, if and only if the hold time is 0 or at least 3. */
  lemma OpenRoundTrip(asn: U32, routerId: U32, hold: U16, rest: seq<Byte>)
    ensures var s := OpenBytes(asn, routerId, hold) + rest;
            ParseOpen(s) == (if hold == 0 || hold >= 3 then Some(OpenResult(asn, hold, true, true)) else None)
            && Un16(s[16..18]) == 49 && Consumed(s) == 49
  {
    hide OpenBytes, ParseOptions, OurOption;
    var s := OpenBytes(asn, routerId, hold) + rest;
    OpenLayout(asn, routerId, hold, rest);
    RoundTrip16(49);
    RoundTrip16(hold);
    var body := s[19..49];
    assert body[3..5] == s[22..24] && body[1..3] == s[20..22] && body[10..] == s[29..49];
    OurOptionsRead(asn, OpenResult(Un16(body[1..3]), hold, false, false));
  }
}
