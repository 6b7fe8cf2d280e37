/** Advertisements as the session holds them, and routes as a peer sees them. */
module Routes {
  import opened Net
  import opened Bytes

  datatype Adv = Adv(prefix: Cidr, nextHop: Option<Ip>, localPref: U32, communities: seq<U32>)

  /** What `Session.Set` checks of an advertisement. */
  predicate Sendable(a: Adv) {
    && a.prefix.fam == V4
    && (a.nextHop.Some? ==> a.nextHop.value.fam == V4)
    && |a.communities| <= 63
  }

  /** `net.IPNet` and `net.IP` values hold four octets and a mask of at most 32 bits. */
  predicate WellFormedAdv(a: Adv) {
    ValidCidr(a.prefix) && (a.nextHop.Some? ==> ValidIp(a.nextHop.value))
  }

  datatype Route = Route(origin: Byte, asPath: seq<U32>, nextHop: U32, localPref: Option<U32>, communities: seq<U32>)

  /** ORIGIN is INCOMPLETE: the route was learned by some other means. */
  const INCOMPLETE: Byte := 2

  /** How a session announces: its AS number, whether the peer shares it, its own address. */
  datatype Speaker = Speaker(asn: U32, ibgp: bool, address: U32)

  function HopOf(sp: Speaker, a: Adv): U32
    requires Sendable(a) && WellFormedAdv(a)
  {
    Pow2Constants();
    if a.nextHop.Some? then a.nextHop.value.n else sp.address
  }

  /** The route a peer should learn from an advertisement. */
  function RouteOf(sp: Speaker, a: Adv): Route
    requires Sendable(a) && WellFormedAdv(a)
  {
    Route(INCOMPLETE, if sp.ibgp then [] else [sp.asn], HopOf(sp, a),
          if sp.ibgp then Some(a.localPref) else None, a.communities)
  }

  /** `Advertisement.Equal`. The program also tells a missing list of communities from an empty
      one; both are the same route, so the difference costs at most a repeated announcement. */
  predicate Equal(a: Adv, b: Adv) {
    && a.prefix == b.prefix
    && a.nextHop == b.nextHop
    && a.localPref == b.localPref
    && a.communities == b.communities
  }
}
