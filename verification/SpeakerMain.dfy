/** `controller` of the speaker (speaker/main.go), proved against FrontSpec. */
module SpeakerMain {
  import opened Net
  import opened Config
  import opened Ledgers
  import opened Routes
  import opened Advertising
  import opened SpeakerSpec
  import opened SpeakerRuns
  import opened SpeakerBgp
  import opened FrontSpec
  import opened FrontRuns
  import opened FrontCalls
  import A = AllocatorSpec

  class Speaker {
    const bgp: BgpController
    const layer2: bool
    var config: Option<PoolMap>
    var announced: map<string, string>
    var svcIp: map<string, Ip>

    ghost function View(): Front
      reads this, bgp
    {
      Front(config, announced, svcIp, bgp.View())
    }

    ghost predicate Valid()
      reads this, bgp
    {
      Ready() && (config.Some? ==> GoodPools(config.value))
    }

    ghost predicate Ready()
      reads this, bgp
    {
      Fine(bgp.matches, View())
    }

    constructor (matches: Matcher, layer2: bool)
      ensures Valid() && fresh(bgp) && View() == IDLE && bgp.matches == matches && this.layer2 == layer2
    {
      var b := new BgpController(matches);
      bgp, this.layer2 := b, layer2;
      config, announced, svcIp := None, map[], map[];
      new;
      IdleFine(matches);
    }

    /** `deleteBalancer`. */
    method DeleteBalancer(name: string) returns (ok: bool, ghost l2ok: bool, ghost order: seq<string>)
      requires Ready()
      modifies this`announced, this`svcIp, bgp
      ensures Ready() && Sound(old(View()).bgp)
      ensures View() == Withdrawn(bgp.matches, old(View()), name, l2ok, order)
      ensures ok <==> name !in announced
      ensures name in old(announced) && old(announced[name]) == "bgp" ==>
        A.Enumerates(order, old(bgp.svcAds).Keys - {name})
    {
      hide Fine, GoodPools, Step;
      ghost var f := View();
      FineSound(bgp.matches, f);
      if name !in announced {
        return true, true, [];
      }
      l2ok, order := true, [];
      var done: bool;
      if announced[name] == "bgp" {
        done, order := RemoveFromBgp(name);
      } else {
        done := *;
        l2ok := done;
      }
      if done {
        announced := announced - {name};
        svcIp := svcIp - {name};
      }
      ok := done;
      WithdrawnKeeps(bgp.matches, f, name, l2ok, order);
    }

    method RemoveFromBgp(name: string) returns (ok: bool, ghost order: seq<string>)
      requires Ready()
      modifies bgp
      ensures Sound(old(bgp.View())) && bgp.View() == Step(bgp.matches, old(bgp.View()), EvDelete(name, order))
      ensures A.Enumerates(order, old(bgp.svcAds).Keys - {name})
      ensures ok <==> name !in old(bgp.svcAds) || Takes(bgp.View())
    {
      hide GoodPools, Step, AllSendable, SomeRun;
      assert Good(bgp.matches, bgp.View()) by { FineGood(bgp.matches, View()); }
      ok, order := bgp.DeleteBalancer(name);
      assert bgp.svcAds.Keys == old(bgp.svcAds).Keys - {name};
    }

    /** `SetBalancer`; refusal is what the protocol's `ShouldAnnounce` answers. */
    method SetBalancer(name: string, svc: Option<Svc>, refusal: string)
      returns (ok: bool, ghost pool: string, ghost luck: Luck)
      requires Valid()
      requires svc.Some? ==> forall i :: 0 <= i < |svc.value.ingress| && svc.value.ingress[i].Some? ==>
        ValidIp(svc.value.ingress[i].value)
      modifies this`announced, this`svcIp, bgp
      ensures Valid() && Sound(old(View()).bgp) && luck.refusal == refusal
      ensures View() == Next(bgp.matches, layer2, old(View()), FvService(name, svc, pool, luck))
      ensures !Ignored(old(View()), svc) && HasAddress(svc) ==> Resolves(config.value, svc.value.ingress[0].value, pool)
      ensures ok <==> ServiceOk(bgp.matches, layer2, old(View()), name, svc, pool, luck)
      ensures ok && !Ignored(old(View()), svc) ==>
        && (name in announced <==> Wanted(layer2, config, svc, refusal))
        && forall n, ip :: CallsFor(layer2, config, svc, refusal, n, ip) ==> InPlace(View(), name, ip, config.value[n])
    {
      hide Fine, GoodPools, Wanted, CallsFor, InPlace;
      ghost var f := View();
      FineSound(bgp.matches, f);
      ok, pool, luck := Dispatch(name, svc, refusal);
      CallExact(bgp.matches, layer2, f, name, svc, pool, luck);
    }

    /** Its branches. */
    method Dispatch(name: string, svc: Option<Svc>, refusal: string)
      returns (ok: bool, ghost pool: string, ghost luck: Luck)
      requires Valid()
      requires svc.Some? ==> forall i :: 0 <= i < |svc.value.ingress| && svc.value.ingress[i].Some? ==>
        ValidIp(svc.value.ingress[i].value)
      modifies this`announced, this`svcIp, bgp
      ensures Valid() && Sound(old(View()).bgp) && luck.refusal == refusal
      ensures View() == Next(bgp.matches, layer2, old(View()), FvService(name, svc, pool, luck))
      ensures !Ignored(old(View()), svc) && HasAddress(svc) ==> Resolves(config.value, svc.value.ingress[0].value, pool)
      ensures ok <==> ServiceOk(bgp.matches, layer2, old(View()), name, svc, pool, luck)
    {
      hide Fine, GoodPools, Withdrawn, Placed, PlacedOk, Spans;
      FineSound(bgp.matches, View());
      pool, luck := "", Luck(true, true, [], [], [], refusal);
      if svc.None? || !svc.value.loadBalancer {
        ok, luck := Drop(name, refusal);
        return;
      }
      if config.None? {
        return true, pool, luck;
      }
      if |svc.value.ingress| != 1 || svc.value.ingress[0].None? {
        ok, luck := Drop(name, refusal);
        return;
      }
      var lbIp := svc.value.ingress[0].value;
      var poolName := PoolOfAddress(config.value, lbIp);
      pool := poolName;
      if poolName == "" {
        ok, luck := Drop(name, refusal);
        return;
      }
      ok, luck := Place(name, lbIp, poolName, refusal);
    }

    method Drop(name: string, refusal: string) returns (ok: bool, ghost luck: Luck)
      requires Ready()
      modifies this`announced, this`svcIp, bgp
      ensures Ready() && Sound(old(View()).bgp) && luck.refusal == refusal
      ensures View() == Withdrawn(bgp.matches, old(View()), name, luck.l2ok, luck.o2)
      ensures ok <==> name !in announced
    {
      ghost var l2ok, order;
      ok, l2ok, order := DeleteBalancer(name);
      luck := Luck(true, l2ok, [], order, [], refusal);
    }

    /** From the pool to the handler: a service that changes protocol is withdrawn first. */
    method Place(name: string, lbIp: Ip, poolName: string, refusal: string) returns (ok: bool, ghost luck: Luck)
      requires Ready() && ValidIp(lbIp) && config.Some? && poolName in config.value
        && Spans(config.value[poolName], lbIp)
      modifies this`announced, this`svcIp, bgp
      ensures Ready() && Sound(old(View()).bgp) && luck.refusal == refusal
      ensures View() == Placed(bgp.matches, layer2, old(View()), name, lbIp, config.value[poolName], luck)
      ensures ok <==> PlacedOk(bgp.matches, layer2, old(View()), name, lbIp, config.value[poolName], luck)
    {
      hide Fine, GoodPools, Withdrawn, Announced, AnnouncedOk, Spans;
      FineSound(bgp.matches, View());
      var pool := config.value[poolName];
      ghost var moved, order := true, [];
      if name in announced && announced[name] != pool.protocol {
        ok, moved, order := DeleteBalancer(name);
        if !ok {
          luck := Luck(moved, true, order, [], [], refusal);
          return;
        }
        FineSound(bgp.matches, View());
      }
      ok, luck := Announce(name, lbIp, poolName, refusal);
      luck := luck.(moved := moved, o1 := order);
    }

    method Announce(name: string, lbIp: Ip, poolName: string, refusal: string) returns (ok: bool, ghost luck: Luck)
      requires Ready() && ValidIp(lbIp) && config.Some? && poolName in config.value
        && Spans(config.value[poolName], lbIp)
      requires name in announced ==> announced[name] == config.value[poolName].protocol
      modifies this`announced, this`svcIp, bgp
      ensures Ready() && Sound(old(View()).bgp) && luck.refusal == refusal
      ensures forall moved, o1 ::
        var luck' := luck.(moved := moved, o1 := o1);
        && Announced(bgp.matches, layer2, old(View()), name, lbIp, config.value[poolName], luck') == View()
        && (ok <==> AnnouncedOk(bgp.matches, layer2, old(View()), name, lbIp, config.value[poolName], luck'))
    {
      hide Fine, GoodPools, Spans, Withdrawn, Step, Takes, Apt, Sound;
      ghost var f := View();
      FineSound(bgp.matches, f);
      var pool := config.value[poolName];
      if !Handled(layer2, pool.protocol) || refusal != "" {
        ok, luck := Drop(name, refusal);
        return;
      }
      luck := Luck(true, true, [], [], [], refusal);
      if pool.protocol == "bgp" {
        ghost var ads, order;
        ok, ads, order := AddToBgp(name, lbIp, pool);
        luck := luck.(ads := ads, o2 := order);
        assert Apt(f.bgp, name, lbIp, pool, luck) by { SameApt(f.bgp, name, lbIp, pool, luck); }
        AptElsewhere(f.bgp, name, lbIp, pool, luck);
      } else {
        ok := *;
        luck := luck.(l2ok := ok);
      }
      if ok && name !in announced {
        announced := announced[name := pool.protocol];
        svcIp := svcIp[name := lbIp];
      }
      AnnouncedKeeps(bgp.matches, layer2, f, name, lbIp, poolName, luck);
    }

    method AddToBgp(name: string, lbIp: Ip, pool: Pool)
      returns (ok: bool, ghost ads: seq<Adv>, ghost order: seq<string>)
      requires Ready() && ValidIp(lbIp)
      modifies bgp
      ensures Sound(old(bgp.View()))
        && bgp.View() == Step(bgp.matches, old(bgp.View()), EvBalancer(name, lbIp, pool, ads, order))
      ensures AdsFor(lbIp, pool, ads) && A.Enumerates(order, old(bgp.svcAds).Keys + {name})
      ensures ok <==> Takes(bgp.View())
    {
      hide GoodPools, Step, AllSendable, SomeRun, AdsFor;
      assert Good(bgp.matches, bgp.View()) by { FineGood(bgp.matches, View()); }
      ok, ads, order := bgp.SetBalancer(name, lbIp, pool);
      assert bgp.svcAds.Keys == old(bgp.svcAds).Keys + {name};
    }

    /** `SetConfig`: refused as a whole if some announced address would be outside. The
        handlers are called in any order, up to the first error. */
    method SetConfig(pools: Option<PoolMap>, cfgs: seq<PeerCfg>)
      returns (ok: bool, ghost reached: bool, ghost oks: seq<bool>, ghost order: seq<string>)
      requires Valid() && (pools.Some? ==> GoodPools(pools.value))
      modifies this`config, bgp
      ensures Valid() && Sound(old(View()).bgp)
      ensures pools.None? ==> !ok && View() == old(View())
      ensures pools.Some? ==>
        View() == Next(bgp.matches, layer2, old(View()), FvConfig(pools.value, cfgs, reached, ok, oks, order))
      ensures pools.Some? && !AllSpanned(svcIp, pools.value) ==> !ok && View() == old(View())
      ensures ok ==> reached && config == pools
      ensures !ok ==> config == old(config)
    {
      hide Fine, GoodPools, Step, Spans;
      ghost var f := View();
      FineSound(bgp.matches, f);
      oks, order, reached := [], [], false;
      if pools.None? {
        return false, reached, oks, order;
      }
      var todo := svcIp.Keys;
      while todo != {}
        invariant todo <= svcIp.Keys && View() == f
        invariant forall s :: s in svcIp && s !in todo ==>
          exists n :: n in pools.value && Spans(pools.value[n], svcIp[s])
        decreases todo
        modifies {}
      {
        var s :| s in todo;
        todo := todo - {s};
        var name := PoolOfAddress(pools.value, svcIp[s]);
        if name == "" {
          assert !AllSpanned(svcIp, pools.value);
          return false, reached, oks, order;
        }
      }
      var bgpFirst: bool, l2ok: bool := *, *;
      ok := true;
      if layer2 && !bgpFirst {
        ok := l2ok;
      }
      if ok {
        ok, oks, order := ConfigureBgp(cfgs);
        reached := true;
        if layer2 && bgpFirst && ok {
          ok := l2ok;
        }
      }
      if ok {
        config := pools;
      }
      NextKeeps(bgp.matches, layer2, f, FvConfig(pools.value, cfgs, reached, ok, oks, order));
    }

    method ConfigureBgp(cfgs: seq<PeerCfg>) returns (ok: bool, ghost oks: seq<bool>, ghost order: seq<string>)
      requires Ready()
      modifies bgp
      ensures Sound(old(bgp.View())) && bgp.View() == Step(bgp.matches, old(bgp.View()), EvConfig(cfgs, oks, order))
    {
      hide GoodPools, Step;
      assert Good(bgp.matches, bgp.View()) by { FineGood(bgp.matches, View()); }
      ok, oks, order := bgp.SetConfig(cfgs);
    }
  }

  lemma SameApt(c: Ctl, name: string, ip: Ip, pool: Pool, luck: Luck)
    requires ValidIp(ip) && AdsFor(ip, pool, luck.ads) && A.Enumerates(luck.o2, c.svcAds.Keys + {name})
    ensures Apt(c, name, ip, pool, luck)
  {
  }

  lemma AptElsewhere(c: Ctl, name: string, ip: Ip, pool: Pool, luck: Luck)
    requires Apt(c, name, ip, pool, luck)
    ensures forall moved, o1 :: Apt(c, name, ip, pool, luck.(moved := moved, o1 := o1))
  {
  }
}
