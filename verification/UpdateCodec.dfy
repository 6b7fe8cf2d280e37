/** UPDATE messages (internal/bgp/messages.go): what is put on the wire, and a decoder
    written from section 4.3 of RFC 4271, RFC 6793 and RFC 1997 that reads it back. */
module UpdateCodec {
  import opened Net
  import opened Bytes
  import opened Routes

  // ---------- The wire format, printed ----------

  datatype Attr = Attr(flags: Byte, code: Byte, value: seq<Byte>)

  /** Without the extended-length flag a value has at most 255 octets. */
  predicate AttrOk(a: Attr) {
    |a.value| < 0x100 && (a.flags / 16) % 2 == 0
  }

  predicate AttrsOk(attrs: seq<Attr>) {
    forall i :: 0 <= i < |attrs| ==> AttrOk(attrs[i])
  }

  function PrintAttr(a: Attr): seq<Byte>
    requires AttrOk(a)
  {
    [a.flags, a.code, |a.value|] + a.value
  }

  function PrintAttrs(attrs: seq<Attr>): seq<Byte>
    requires AttrsOk(attrs)
  {
    if attrs == [] then [] else PrintAttr(attrs[0]) + PrintAttrs(attrs[1..])
  }

  function Flat(ns: seq<U32>): (r: seq<Byte>)
    ensures |r| == 4 * |ns|
  {
    if ns == [] then [] else Flat(ns[..|ns| - 1]) + Be32(ns[|ns| - 1])
  }

  function AttrsOf(sp: Speaker, a: Adv): (attrs: seq<Attr>)
    requires Sendable(a) && WellFormedAdv(a)
    ensures AttrsOk(attrs)
  {
    [Attr(0x40, 1, [2]), Attr(0x40, 2, if sp.ibgp then [] else [2, 1] + Be32(sp.asn)), Attr(0x40, 3, Be32(HopOf(sp, a)))]
    + (if sp.ibgp then [Attr(0x40, 5, Be32(a.localPref))] else [])
    + (if a.communities != [] then [Attr(0xc0, 8, Flat(a.communities))] else [])
  }

  /** Rounds up to whole octets: ((n + 7) &^ 7) / 8, the mask clearing the three low bits. */
  function BytesForBits(n: nat): (k: nat)
    ensures 8 * k >= n && (k > 0 ==> 8 * (k - 1) < n)
  {
    ((n + 7) - (n + 7) % 8) / 8
  }

  predicate V4Prefix(c: Cidr) {
    ValidCidr(c) && c.fam == V4
  }

  predicate V4Prefixes(cs: seq<Cidr>) {
    forall i :: 0 <= i < |cs| ==> V4Prefix(cs[i])
  }

  function Octets(n: nat): (r: seq<Byte>)
    requires n < Pow2(32)
    ensures |r| == 4
  {
    Pow2Constants();
    Be32(n)
  }

  function PrintPrefix(c: Cidr): (r: seq<Byte>)
    requires V4Prefix(c)
    ensures 1 <= |r| <= 5
  {
    [c.len] + Octets(c.base)[..BytesForBits(c.len)]
  }

  function PrintPrefixes(cs: seq<Cidr>): seq<Byte>
    requires V4Prefixes(cs)
  {
    if cs == [] then [] else PrintPrefixes(cs[..|cs| - 1]) + PrintPrefix(cs[|cs| - 1])
  }

  /** The message around its two variable parts; both lengths are 16-bit truncations. */
  function Frame(withdrawn: seq<Byte>, attrs: seq<Byte>, nlri: seq<Byte>): seq<Byte> {
    var len := 23 + |withdrawn| + |attrs| + |nlri|;
    MARKER + Be16(len % 0x1_0000) + [2]
    + (Be16(|withdrawn| % 0x1_0000) + withdrawn)
    + (Be16(|attrs| % 0x1_0000) + attrs)
    + nlri
  }

  function UpdateBytes(sp: Speaker, a: Adv): seq<Byte>
    requires Sendable(a) && WellFormedAdv(a)
  {
    Frame([], PrintAttrs(AttrsOf(sp, a)), PrintPrefix(a.prefix))
  }

  function WithdrawBytes(cs: seq<Cidr>): seq<Byte>
    requires V4Prefixes(cs)
  {
    Frame(PrintPrefixes(cs), [], [])
  }

  // ---------- The decoder ----------

  function DecodePrefixes(b: seq<Byte>): Option<seq<Cidr>> {
    if b == [] then Some([])
    else
      var k := BytesForBits(b[0]);
      if b[0] > 32 || |b| < 1 + k then None
      else match DecodePrefixes(b[1 + k..])
        case None => None
        case Some(cs) => Some([DecodePrefix(b[0], b[1..1 + k])] + cs)
  }

  /** Octets that are missing, and bits beyond the length, are irrelevant. */
  function DecodePrefix(len: nat, octets: seq<Byte>): Cidr
    requires |octets| <= 4
  {
    Canon(Cidr(V4, Un32(octets + Zeros(4 - |octets|)), len))
  }

  function Zeros(n: nat): (r: seq<Byte>)
    ensures |r| == n
  {
    if n == 0 then [] else [0] + Zeros(n - 1)
  }

  function DecodeAttrs(b: seq<Byte>): Option<seq<Attr>> {
    if b == [] then Some([])
    else if |b| < 3 then None
    else
      var extended := (b[0] / 16) % 2 == 1;
      if extended && |b| < 4 then None else
        var at := if extended then 4 else 3;
        var n := if extended then Un16(b[2..4]) else b[2];
        if |b| < at + n then None
        else match DecodeAttrs(b[at + n..])
          case None => None
          case Some(attrs) => Some([Attr(b[0], b[1], b[at..at + n])] + attrs)
  }

  function Find(attrs: seq<Attr>, code: Byte): Option<seq<Byte>> {
    if attrs == [] then None else if attrs[0].code == code then Some(attrs[0].value) else Find(attrs[1..], code)
  }

  /** AS_PATH segments, all of them AS_SEQUENCE. An AS number has two octets, as section 4.3 of
      RFC 4271 has it, or four if both ends said so when they opened (RFC 6793). */
  function DecodePath(wide: bool, b: seq<Byte>): Option<seq<U32>> {
    if b == [] then Some([])
    else if |b| < 2 || b[0] != 2 then None
    else
      var end := 2 + (if wide then 4 else 2) * (b[1] as int);
      if |b| < end then None
      else match DecodePath(wide, b[end..])
        case None => None
        case Some(path) => Some((if wide then Words(b[2..end]) else Halves(b[2..end])) + path)
  }

  function Halves(b: seq<Byte>): seq<U32>
    requires |b| % 2 == 0
  {
    if b == [] then [] else Halves(b[..|b| - 2]) + [Un16(b[|b| - 2..])]
  }

  function Words(b: seq<Byte>): seq<U32>
    requires |b| % 4 == 0
  {
    if b == [] then [] else Words(b[..|b| - 4]) + [Un32(b[|b| - 4..])]
  }

  /** The optional, transitive and partial bits that section 5 of RFC 4271 and RFC 1997 allow an
      attribute: what is well known is transitive and never partial, what is not known is
      optional. The unused bits are ignored. */
  predicate FlagsOk(a: Attr) {
    match a.code
    case 1 | 2 | 3 | 5 | 6 => a.flags / 32 == 2
    case 4 => a.flags / 32 == 4
    case 7 | 8 => a.flags / 64 == 3
    case _ => a.flags / 128 == 1
  }

  /** Section 6.3 of RFC 4271: proper flags, and no attribute twice. */
  predicate ListOk(attrs: seq<Attr>) {
    && (forall i :: 0 <= i < |attrs| ==> FlagsOk(attrs[i]))
    && (forall i, j :: 0 <= i < j < |attrs| ==> attrs[i].code != attrs[j].code)
  }

  /** The mandatory attributes must be there and every attribute must have its proper flags and
      size. */
  function DecodeRoute(wide: bool, attrs: seq<Attr>): Option<Route> {
    var origin, path, hop := Find(attrs, 1), Find(attrs, 2), Find(attrs, 3);
    var pref, comms := Find(attrs, 5), Find(attrs, 8);
    if !ListOk(attrs) || origin.None? || path.None? || hop.None? then None
    else if |origin.value| != 1 || origin.value[0] > 2 || |hop.value| != 4 then None
    else if pref.Some? && |pref.value| != 4 then None
    else if comms.Some? && |comms.value| % 4 != 0 then None
    else match DecodePath(wide, path.value)
      case None => None
      case Some(asPath) =>
        Some(Route(origin.value[0], asPath, Un32(hop.value),
                   if pref.Some? then Some(Un32(pref.value)) else None,
                   if comms.Some? then Words(comms.value) else []))
  }

  /** A decoded message: prefixes withdrawn, and prefixes announced with one route. */
  datatype Update = Update(withdrawn: seq<Cidr>, announced: seq<Cidr>, route: Option<Route>)

  function DecodeUpdate(wide: bool, m: seq<Byte>): Option<Update> {
    if |m| < 23 || |m| > 4096 || m[..16] != MARKER || Un16(m[16..18]) != |m| || m[18] != 2 then None
    else
      var w := 21 + Un16(m[19..21]);
      if |m| < w + 2 then None else
        var a := w + 2 + Un16(m[w..w + 2]);
        if |m| < a then None else DecodeParts(wide, m[21..w], m[w + 2..a], m[a..])
  }

  function DecodeParts(wide: bool, withdrawn: seq<Byte>, attrs: seq<Byte>, nlri: seq<Byte>): Option<Update> {
    var ws, ps, as_ := DecodePrefixes(withdrawn), DecodePrefixes(nlri), DecodeAttrs(attrs);
    if ws.None? || ps.None? || as_.None? then None
    else if ps.value == [] then Some(Update(ws.value, [], None))
    else match DecodeRoute(wide, as_.value)
      case None => None
      case Some(r) => Some(Update(ws.value, ps.value, Some(r)))
  }
}
