/** What a successful call of the speaker's `SetBalancer` brings about, from the service, the
    configuration and the handler's answer alone. */
module FrontCalls {
  import opened Net
  import opened Config
  import opened Ledgers
  import opened Advertising
  import opened SpeakerSpec
  import opened SpeakerRuns
  import opened FrontSpec
  import opened FrontRuns
  import A = AllocatorSpec

  /** The service is to be announced from this pool with this address: it is a load balancer
      with one address, which parses and lies in the pool, and the pool's protocol has a handler,
      which does not refuse. */
  ghost predicate CallsFor(layer2: bool, config: Option<PoolMap>, svc: Option<Svc>, refusal: string, n: string,
                           ip: Ip) {
    && refusal == "" && svc.Some? && svc.value.loadBalancer && svc.value.ingress == [Some(ip)]
    && config.Some? && n in config.value && Spans(config.value[n], ip)
    && (config.value[n].protocol == "bgp" || (layer2 && config.value[n].protocol == "layer2"))
  }

  ghost predicate Wanted(layer2: bool, config: Option<PoolMap>, svc: Option<Svc>, refusal: string) {
    exists n, ip :: CallsFor(layer2, config, svc, refusal, n, ip)
  }

  /** Nothing changes but for the service, and the configuration not at all. */
  ghost predicate Confined(f: Front, f': Front, name: string) {
    && f'.config == f.config
    && f'.announced - {name} == f.announced - {name}
    && f'.bgp.svcAds - {name} == f.bgp.svcAds - {name}
  }

  // ---------- The stages ----------

  lemma WithdrawnConfined(m: Matcher, f: Front, name: string, l2ok: bool, order: seq<string>)
    requires Fine(m, f) && Sound(f.bgp)
    ensures Confined(f, Withdrawn(m, f, name, l2ok, order), name)
    ensures Matching(f) && name !in Withdrawn(m, f, name, l2ok, order).announced ==>
      name !in Withdrawn(m, f, name, l2ok, order).bgp.svcAds
  {
    hide Good, Step, A.Enumerates;
    if name !in f.bgp.svcAds {
      NothingToDelete(m, f.bgp, name, order);
    } else if A.Enumerates(order, f.bgp.svcAds.Keys - {name}) {
      DeleteEffect(m, f.bgp, name, order);
    }
    assert (f.announced - {name}) - {name} == f.announced - {name};
    assert (f.bgp.svcAds - {name}) - {name} == f.bgp.svcAds - {name};
  }

  /** The service is announced through the pool's protocol, and the BGP controller has the
      advertisements that the pool makes of the address. */
  ghost predicate InPlace(f: Front, name: string, ip: Ip, pool: Pool) {
    && name in f.announced && f.announced[name] == pool.protocol
    && (pool.protocol == "bgp" ==> name in f.bgp.svcAds && AdsFor(ip, pool, f.bgp.svcAds[name]))
  }

  lemma AnnouncedConfined(m: Matcher, layer2: bool, f: Front, name: string, ip: Ip, pool: Pool, luck: Luck)
    requires Fine(m, f) && Sound(f.bgp)
    ensures Confined(f, Announced(m, layer2, f, name, ip, pool, luck), name)
  {
    hide Good, Step, Withdrawn, Apt, Sound, Takes;
    WithdrawnConfined(m, f, name, luck.l2ok, luck.o2);
    if pool.protocol == "bgp" && Apt(f.bgp, name, ip, pool, luck) {
      BalancerEffect(m, f.bgp, name, ip, pool, luck);
      assert f.bgp.svcAds[name := luck.ads] - {name} == f.bgp.svcAds - {name};
    }
    assert f.announced[name := pool.protocol] - {name} == f.announced - {name};
  }

  lemma AnnouncedExact(m: Matcher, layer2: bool, f: Front, name: string, ip: Ip, pool: Pool, luck: Luck)
    requires Fine(m, f) && Sound(f.bgp) && !Moves(f, name, pool.protocol)
    requires AnnouncedOk(m, layer2, f, name, ip, pool, luck)
    ensures var f' := Announced(m, layer2, f, name, ip, pool, luck);
      if Handled(layer2, pool.protocol) && luck.refusal == "" then InPlace(f', name, ip, pool) else name !in f'.announced
  {
    hide Good, Step, Withdrawn, Apt, Sound, Takes, AdsFor;
    if pool.protocol == "bgp" && Apt(f.bgp, name, ip, pool, luck) {
      BalancerEffect(m, f.bgp, name, ip, pool, luck);
      AptAds(f.bgp, name, ip, pool, luck);
    }
  }

  lemma PlacedConfined(m: Matcher, layer2: bool, f: Front, name: string, ip: Ip, pool: Pool, luck: Luck)
    requires Fine(m, f) && Sound(f.bgp)
    ensures Confined(f, Placed(m, layer2, f, name, ip, pool, luck), name)
  {
    hide Fine, Withdrawn, Announced, Sound;
    if Moves(f, name, pool.protocol) {
      var f' := Withdrawn(m, f, name, luck.moved, luck.o1);
      WithdrawnKeeps(m, f, name, luck.moved, luck.o1);
      WithdrawnConfined(m, f, name, luck.moved, luck.o1);
      if name !in f'.announced && Sound(f'.bgp) {
        AnnouncedConfined(m, layer2, f', name, ip, pool, luck);
      }
    } else {
      AnnouncedConfined(m, layer2, f, name, ip, pool, luck);
    }
  }

  lemma PlacedExact(m: Matcher, layer2: bool, f: Front, name: string, ip: Ip, pool: Pool, luck: Luck)
    requires Fine(m, f) && Sound(f.bgp) && PlacedOk(m, layer2, f, name, ip, pool, luck)
    ensures var f' := Placed(m, layer2, f, name, ip, pool, luck);
      if Handled(layer2, pool.protocol) && luck.refusal == "" then InPlace(f', name, ip, pool) else name !in f'.announced
  {
    hide Fine, Withdrawn, Announced, AnnouncedOk, Sound, InPlace;
    if Moves(f, name, pool.protocol) {
      var f' := Withdrawn(m, f, name, luck.moved, luck.o1);
      WithdrawnKeeps(m, f, name, luck.moved, luck.o1);
      AnnouncedExact(m, layer2, f', name, ip, pool, luck);
    } else {
      AnnouncedExact(m, layer2, f, name, ip, pool, luck);
    }
  }

  // ---------- A whole call ----------

  lemma CallsHandled(layer2: bool, config: Option<PoolMap>, svc: Option<Svc>, refusal: string, pool: string)
    requires config.Some? && GoodPools(config.value) && HasAddress(svc)
    requires Resolves(config.value, svc.value.ingress[0].value, pool)
    ensures Wanted(layer2, config, svc, refusal) <==>
      pool != "" && Handled(layer2, config.value[pool].protocol) && refusal == ""
    ensures forall n, ip :: CallsFor(layer2, config, svc, refusal, n, ip) ==>
      n == pool && ip == svc.value.ingress[0].value
  {
    hide GoodPools, Spans;
    var ip := svc.value.ingress[0].value;
    assert svc.value.ingress == [Some(ip)];
    forall n, ip' | CallsFor(layer2, config, svc, refusal, n, ip')
      ensures n == pool && ip' == ip
    {
      NamedPools(config.value, n);
      OneResolution(config.value, ip, n, pool);
    }
    if pool != "" && Handled(layer2, config.value[pool].protocol) && refusal == "" {
      assert CallsFor(layer2, config, svc, refusal, pool, ip);
    }
  }

  lemma NotAsked(layer2: bool, config: Option<PoolMap>, svc: Option<Svc>, refusal: string)
    requires !HasAddress(svc)
    ensures !Wanted(layer2, config, svc, refusal)
  {
    hide Spans;
  }

  /** A call concerns nobody but its service. After a successful one that is not ignored, the
      service is announced if and only if it is to be, then through its pool's protocol and, for
      BGP, with the advertisements that the pool makes of its address. */
  lemma CallExact(m: Matcher, layer2: bool, f: Front, name: string, svc: Option<Svc>, pool: string, luck: Luck)
    requires Fine(m, f) && Sound(f.bgp) && (f.config.Some? ==> GoodPools(f.config.value))
    ensures Confined(f, Next(m, layer2, f, FvService(name, svc, pool, luck)), name)
    ensures var f' := Next(m, layer2, f, FvService(name, svc, pool, luck));
      ServiceOk(m, layer2, f, name, svc, pool, luck) && !Ignored(f, svc) ==>
        && (name in f'.announced <==> Wanted(layer2, f.config, svc, luck.refusal))
        && forall n, ip :: CallsFor(layer2, f.config, svc, luck.refusal, n, ip) ==>
          InPlace(f', name, ip, f.config.value[n])
  {
    hide Fine, GoodPools, Withdrawn, Placed, PlacedOk, Spans, Sound, Wanted, CallsFor, InPlace;
    if Ignored(f, svc) {
    } else if !HasAddress(svc) {
      WithdrawnConfined(m, f, name, luck.l2ok, luck.o2);
      NotAsked(layer2, f.config, svc, luck.refusal);
      NoneAsked(layer2, f.config, svc, luck.refusal);
    } else if Resolves(f.config.value, svc.value.ingress[0].value, pool) {
      var ip := svc.value.ingress[0].value;
      CallsHandled(layer2, f.config, svc, luck.refusal, pool);
      if pool == "" {
        WithdrawnConfined(m, f, name, luck.l2ok, luck.o2);
        NoneAsked(layer2, f.config, svc, luck.refusal);
      } else {
        PlacedConfined(m, layer2, f, name, ip, f.config.value[pool], luck);
        if PlacedOk(m, layer2, f, name, ip, f.config.value[pool], luck) {
          PlacedExact(m, layer2, f, name, ip, f.config.value[pool], luck);
          if !Wanted(layer2, f.config, svc, luck.refusal) {
            NoneAsked(layer2, f.config, svc, luck.refusal);
          } else {
            ThereInPlace(Next(m, layer2, f, FvService(name, svc, pool, luck)), name, ip, f.config.value[pool]);
          }
        }
      }
    }
  }

  lemma NoneAsked(layer2: bool, config: Option<PoolMap>, svc: Option<Svc>, refusal: string)
    requires !Wanted(layer2, config, svc, refusal)
    ensures forall n, ip :: !CallsFor(layer2, config, svc, refusal, n, ip)
  {
    hide CallsFor;
  }

  lemma ThereInPlace(f: Front, name: string, ip: Ip, pool: Pool)
    requires InPlace(f, name, ip, pool)
    ensures name in f.announced
  {
  }
}
