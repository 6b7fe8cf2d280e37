/** Where `readOpen` (internal/bgp/messages.go) and section 4.2 of RFC 4271 part ways. */
module OpenValidity {
  import opened Net
  import opened Bytes
  import opened OpenCodec
  import S = SessionSpec

  function Hold(s: seq<Byte>): U16
    requires |s| >= 24
  {
    Un16(s[22..24])
  }

  /** The stream starts with a whole OPEN message as section 4.2 of RFC 4271 and section 4 of
      RFC 5492 have it: the fixed part, then capability options that fill the given length. The
      BGP identifier may be anything, zero too: `readOpen` does not look at it. */
  ghost predicate ValidOpen(s: seq<Byte>) {
    && |s| >= 29 && s[..16] == MARKER && s[18] == 1 && s[19] == 4
    && (Hold(s) == 0 || Hold(s) >= 3)
    && 29 <= Un16(s[16..18]) <= |s|
    && s[28] as int == Un16(s[16..18]) - 29
    && exists os :: OptionsOk(os) && PrintOptions(os) == s[29..Un16(s[16..18])]
  }

  lemma GrammarExact(w: seq<Byte>, r: OpenResult)
    ensures ParseOptions(w, r).Some? <==> exists os :: OptionsOk(os) && PrintOptions(os) == w
  {
    hide OptionsOk, ParseOptions, PrintOptions, LearnAll;
    if ParseOptions(w, r).Some? {
      OptionsExact(w, r, ParseOptions(w, r).value);
    }
    if os :| OptionsOk(os) && PrintOptions(os) == w {
      OptionsExact(w, r, LearnAll(r, os));
    }
  }

  /** The reader on a stream with the fixed part, field by field. */
  lemma ParseOpenFields(s: seq<Byte>)
    requires |s| >= 29 && s[..16] == MARKER && s[18] == 1 && Un16(s[16..18]) >= 37
    ensures ParseOpen(s) ==
      if s[19] != 4 || (Hold(s) != 0 && Hold(s) < 3) then None
      else ParseOptions(s[29..Consumed(s)], OpenResult(Un16(s[20..22]), Hold(s), false, false))
  {
    hide ParseOptions, Un16;
    var body := s[19..Consumed(s)];
    assert body[0] == s[19] && body[3..5] == s[22..24] && body[1..3] == s[20..22] && body[10..] == s[29..Consumed(s)];
  }

  /** A valid message is refused exactly when it is shorter than 37 octets. */
  lemma RefusedExact(s: seq<Byte>)
    requires ValidOpen(s)
    ensures ParseOpen(s).None? <==> Un16(s[16..18]) < 37
  {
    hide ParseOptions, OptionsOk, PrintOptions, Un16;
    if Un16(s[16..18]) >= 37 {
      ParseOpenFields(s);
      GrammarExact(s[29..Consumed(s)], OpenResult(Un16(s[20..22]), Hold(s), false, false));
    }
  }

  /** An accepted message is invalid exactly when the stream ends before its length, or the
      optional parameters length disagrees with it. */
  lemma AcceptedExact(s: seq<Byte>)
    requires ParseOpen(s).Some?
    ensures |s| >= 29
    ensures ValidOpen(s) <==> Un16(s[16..18]) <= |s| && s[28] as int == Un16(s[16..18]) - 29
  {
    hide ParseOptions, OptionsOk, PrintOptions, Un16;
    assert |s[19..Consumed(s)]| >= 10;
    ParseOpenFields(s);
    GrammarExact(s[29..Consumed(s)], OpenResult(Un16(s[20..22]), Hold(s), false, false));
  }

  /** The program's own OPEN, whatever follows on the stream: valid if and only if the hold time
      is legal, with the two-octet AS number or AS_TRANS, the hold time, the identifier and the
      capabilities in their places. */
  lemma OwnOpenExact(asn: U32, routerId: U32, hold: U16, rest: seq<Byte>)
    ensures var s := OpenBytes(asn, routerId, hold) + rest;
      && |s| == 49 + |rest| && (ValidOpen(s) <==> hold == 0 || hold >= 3)
      && Un16(s[16..18]) == 49 && Un16(s[20..22]) == (if asn > 65535 then 23456 else asn) && Un16(s[22..24]) == hold
      && Un32(s[24..28]) == routerId && s[28] == 20
      && s[29..49] == [2, 18, 1, 4, 0, 1, 0, 1, 1, 4, 0, 2, 0, 1, 65, 4] + Be32(asn)
  {
    hide OptionsOk, PrintOptions, ParseOpen, OpenBytes, OurOption, Un16, Un32, Be16, Be32;
    var s := OpenBytes(asn, routerId, hold) + rest;
    OpenLayout(asn, routerId, hold, rest);
    OpenRoundTrip(asn, routerId, hold, rest);
    RoundTrip16(if asn > 65535 then 23456 else asn);
    RoundTrip16(hold);
    RoundTrip32(routerId);
    OwnOption(asn);
    if hold == 0 || hold >= 3 {
      AcceptedExact(s);
    }
  }

  lemma OwnOption(asn: U32)
    ensures OurOption(asn) == [2, 18, 1, 4, 0, 1, 0, 1, 1, 4, 0, 2, 0, 1, 65, 4] + Be32(asn)
  {
    hide Be32, PrintCaps;
    OurCapsOk(asn);
  }

  // ---------- Inputs ----------

  function Fixed(len: U16, asn: U16, routerId: U32, hold: U16, optsLen: Byte): (s: seq<Byte>)
    ensures |s| == 29
  {
    MARKER + Be16(len) + [1, 4] + Be16(asn) + Be16(hold) + Be32(routerId) + [optsLen]
  }

  lemma FixedFields(len: U16, asn: U16, routerId: U32, hold: U16, optsLen: Byte, rest: seq<Byte>)
    ensures var s := Fixed(len, asn, routerId, hold, optsLen) + rest;
      && |s| == 29 + |rest| && s[..16] == MARKER && Un16(s[16..18]) == len && s[18] == 1 && s[19] == 4
      && Un16(s[20..22]) == asn && Hold(s) == hold && s[28] == optsLen && s[29..] == rest
  {
    hide Be16, Be32, Un16;
    var s := Fixed(len, asn, routerId, hold, optsLen) + rest;
    assert s[16..18] == Be16(len) && s[20..22] == Be16(asn) && s[22..24] == Be16(hold);
    RoundTrip16(len);
    RoundTrip16(asn);
    RoundTrip16(hold);
  }

  lemma NoOptions(r: OpenResult)
    ensures OptionsOk([]) && PrintOptions([]) == [] && ParseOptions([], r) == Some(r)
  {
  }

  /** Every valid OPEN without options is refused. */
  lemma ShortOpenRefused(asn: U16, routerId: U32, hold: U16)
    requires hold == 0 || hold >= 3
    ensures var s := Fixed(29, asn, routerId, hold, 0); ValidOpen(s) && ParseOpen(s).None?
  {
    hide OptionsOk, PrintOptions, ParseOptions, Fixed, Un16;
    var s := Fixed(29, asn, routerId, hold, 0);
    assert s + [] == s;
    FixedFields(29, asn, routerId, hold, 0, []);
    NoOptions(OpenResult(asn, hold, false, false));
    assert s[29..29] == [];
    RefusedExact(s);
  }

  /** An OPEN of 37 octets that announces no capability but multiprotocol IPv4, with whatever
      it says of the length of its options. */
  function PlainOpen(asn: U16, routerId: U32, hold: U16, optsLen: Byte): seq<Byte> {
    Fixed(37, asn, routerId, hold, optsLen) + PLAIN_OPTIONS
  }

  const PLAIN_OPTIONS: seq<Byte> := [2, 6, 1, 4, 0, 1, 0, 1]

  const PLAIN_CAPS: Caps := [Cap(1, [0, 1, 0, 1])]

  lemma PlainOptions(r: OpenResult)
    ensures OptionsOk([PLAIN_CAPS]) && PrintOptions([PLAIN_CAPS]) == PLAIN_OPTIONS
    ensures ParseOptions(PLAIN_OPTIONS, r) == Some(r.(mp4 := true))
  {
    var c := Cap(1, [0, 1, 0, 1]);
    assert PLAIN_CAPS[1..] == [] && [PLAIN_CAPS][1..] == [];
    assert PrintCaps(PLAIN_CAPS) == PrintCap(c) + [];
    assert PrintOptions([PLAIN_CAPS]) == PrintOption(PLAIN_CAPS) + [];
    assert LearnCaps(r, PLAIN_CAPS) == LearnCaps(Learn(r, c), []);
    assert LearnAll(r, [PLAIN_CAPS]) == LearnAll(LearnCaps(r, PLAIN_CAPS), []);
    OptionsAccepted([PLAIN_CAPS], r);
  }

  /** It is accepted whatever the field says, and valid only if the field is right. */
  lemma WrongOptionsLengthAccepted(asn: U16, routerId: U32, hold: U16, optsLen: Byte)
    requires hold == 0 || hold >= 3
    ensures var s := PlainOpen(asn, routerId, hold, optsLen);
      ParseOpen(s) == Some(OpenResult(asn, hold, true, false)) && (ValidOpen(s) <==> optsLen == 8)
  {
    hide OptionsOk, PrintOptions, ParseOptions, Fixed, Un16;
    var s := PlainOpen(asn, routerId, hold, optsLen);
    FixedFields(37, asn, routerId, hold, optsLen, PLAIN_OPTIONS);
    ParseOpenFields(s);
    assert s[29..37] == s[29..];
    PlainOptions(OpenResult(asn, hold, false, false));
    AcceptedExact(s);
  }

  /** Our own OPEN, cut off before its options, is taken for a whole message of a peer whose
      AS number is the two-octet field. */
  lemma CutOpenAccepted(asn: U32, routerId: U32, hold: U16)
    requires hold == 0 || hold >= 3
    ensures var s := OpenBytes(asn, routerId, hold)[..29];
      && ParseOpen(s) == Some(OpenResult(if asn > 65535 then 23456 else asn, hold, false, false))
      && !ValidOpen(s)
  {
    hide OptionsOk, PrintOptions, ParseOptions, OpenBytes, OurOption, Un16, Be16;
    var whole := OpenBytes(asn, routerId, hold) + [];
    OpenLayout(asn, routerId, hold, []);
    assert whole == OpenBytes(asn, routerId, hold);
    var s := whole[..29];
    var asn16: U16 := if asn > 65535 then 23456 else asn;
    assert s[..16] == whole[..16] && s[16..18] == whole[16..18] && s[20..22] == whole[20..22]
      && s[22..24] == whole[22..24];
    RoundTrip16(49);
    RoundTrip16(asn16);
    RoundTrip16(hold);
    ParseOpenFields(s);
    assert s[29..29] == [];
    NoOptions(OpenResult(asn16, hold, false, false));
    AcceptedExact(s);
  }

  /** A peer that does not read four-octet AS numbers is connected to like any other: its valid
      OPEN lacks capability 65, is accepted, and the connection is installed. */
  lemma NarrowPeerAdmitted(p: S.Params, routerId: U32, hold: U16, address: U32)
    requires p.peerAsn < 0x1_0000 && (hold == 0 || hold >= 3)
    ensures (forall c :: c in PLAIN_CAPS ==> c.code != 65) && OptionsOk([PLAIN_CAPS])
      && PrintOptions([PLAIN_CAPS]) == PLAIN_OPTIONS
    ensures var s := PlainOpen(p.peerAsn, routerId, hold, 8);
      && ValidOpen(s) && ParseOpen(s).Some?
      && S.Step(p, S.NEW, S.Connect(S.Answered(address, ParseOpen(s).value, true, true))).conn == Some(0)
  {
    hide PlainOpen, ParseOpen, ValidOpen, OptionsOk, PrintOptions;
    WrongOptionsLengthAccepted(p.peerAsn, routerId, hold, 8);
    PlainOptions(OpenResult(p.peerAsn, hold, false, false));
  }
}
