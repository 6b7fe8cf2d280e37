/** The allocator's five derived maps and the updates that `assign` and `Unassign` make to
    them. They are coherent when each holds exactly what the allocations imply. */
module Indexes {
  import opened Net
  import opened Ledgers

  datatype Index = Index(
    sharingKeyForIp: map<Ip, Key>,
    portsInUse: map<Ip, map<Port, string>>,
    servicesOnIp: map<Ip, set<string>>,
    poolIpsInUse: map<string, map<Ip, int>>,
    poolServices: map<string, int>)

  const EMPTY := Index(map[], map[], map[], map[], map[])

  /** A Go map lookup: an absent key reads as the zero value. */
  function Get<K, V>(m: map<K, V>, k: K, zero: V): V {
    if k in m then m[k] else zero
  }

  // ---------- The updates ----------

  function AddPorts(m: map<Port, string>, ports: seq<Port>, svc: string): map<Port, string> {
    if ports == [] then m else AddPorts(m, ports[..|ports| - 1], svc)[ports[|ports| - 1] := svc]
  }

  /** The loop of `Unassign`; None is its "incoherent state" panic. */
  function RemovePorts(m: map<Port, string>, ports: seq<Port>, svc: string): Option<map<Port, string>> {
    if ports == [] then Some(m)
    else
      var r := RemovePorts(m, ports[..|ports| - 1], svc);
      var p := ports[|ports| - 1];
      if r.None? || Get(r.value, p, "") != svc then None else Some(r.value - {p})
  }

  /** The part of `assign` that follows its call of `Unassign`. */
  function Add(ix: Index, svc: string, a: Alloc): Index {
    Index(
      ix.sharingKeyForIp[a.ip := a.key],
      ix.portsInUse[a.ip := AddPorts(Get(ix.portsInUse, a.ip, map[]), a.ports, svc)],
      ix.servicesOnIp[a.ip := Get(ix.servicesOnIp, a.ip, {}) + {svc}],
      BumpIp(ix.poolIpsInUse, a.pool, a.ip),
      ix.poolServices[a.pool := Get(ix.poolServices, a.pool, 0) + 1])
  }

  function BumpIp(m: map<string, map<Ip, int>>, pool: string, ip: Ip): map<string, map<Ip, int>> {
    var ips := Get(m, pool, map[]);
    m[pool := ips[ip := Get(ips, ip, 0) + 1]]
  }

  /** A counter that reaches zero is deleted. */
  function DropIp(m: map<string, map<Ip, int>>, pool: string, ip: Ip): map<string, map<Ip, int>> {
    var ips := Get(m, pool, map[]);
    var n := Get(ips, ip, 0) - 1;
    m[pool := if n == 0 then ips - {ip} else ips[ip := n]]
  }

  /** `Unassign` of svc, whose allocation is a; None is a panic (also the run-time one for
      writing to a counter map that was never made). */
  function Remove(ix: Index, svc: string, a: Alloc): Option<Index> {
    var ports := RemovePorts(Get(ix.portsInUse, a.ip, map[]), a.ports, svc);
    if ports.None? || a.pool !in ix.poolIpsInUse then None
    else Some(Index(
      if ports.value == map[] then ix.sharingKeyForIp - {a.ip} else ix.sharingKeyForIp,
      if ports.value == map[] then ix.portsInUse - {a.ip} else ix.portsInUse[a.ip := ports.value],
      if a.ip in ix.servicesOnIp then ix.servicesOnIp[a.ip := ix.servicesOnIp[a.ip] - {svc}] else ix.servicesOnIp,
      DropIp(ix.poolIpsInUse, a.pool, a.ip),
      ix.poolServices[a.pool := Get(ix.poolServices, a.pool, 0) - 1]))
  }

  // ---------- Coherence ----------

  ghost function On(al: Allocations, ip: Ip): set<string> {
    set s | s in al && al[s].ip == ip
  }

  ghost function InPoolOn(al: Allocations, pool: string, ip: Ip): set<string> {
    set s | s in al && al[s].pool == pool && al[s].ip == ip
  }

  ghost function OfPool(al: Allocations, pool: string): set<string> {
    set s | s in al && al[s].pool == pool
  }

  /** The recorded key of an address is the key of every service on it. */
  ghost predicate KeysCoherent(al: Allocations, m: map<Ip, Key>) {
    && (forall s :: s in al ==> al[s].ip in m && m[al[s].ip] == al[s].key)
    && (forall ip :: ip in m ==> exists s :: s in al && al[s].ip == ip)
  }

  ghost predicate Owns(al: Allocations, s: string, ip: Ip, p: Port) {
    s in al && al[s].ip == ip && p in al[s].ports
  }

  /** A port of an address is recorded as used by s just when s is there and uses it. */
  ghost predicate PortsCoherent(al: Allocations, m: map<Ip, map<Port, string>>) {
    && (forall s :: s in al ==> al[s].ip in m)
    && (forall ip :: ip in m ==> exists s :: s in al && al[s].ip == ip)
    && (forall ip, p, s :: ip in m && p in m[ip] && m[ip][p] == s ==> Owns(al, s, ip, p))
    && (forall ip, p, s :: Owns(al, s, ip, p) ==> ip in m && p in m[ip] && m[ip][p] == s)
  }

  ghost predicate ServicesCoherent(al: Allocations, m: map<Ip, set<string>>) {
    forall ip :: Get(m, ip, {}) == On(al, ip)
  }

  /** The counters count users, and an address is listed just when it has some. */
  ghost predicate PoolIpsCoherent(al: Allocations, m: map<string, map<Ip, int>>) {
    forall pool, ip :: PoolIpCoherent(al, m, pool, ip)
  }

  ghost predicate PoolIpCoherent(al: Allocations, m: map<string, map<Ip, int>>, pool: string, ip: Ip) {
    var ips := Get(m, pool, map[]);
    Get(ips, ip, 0) == |InPoolOn(al, pool, ip)| && (ip in ips <==> InPoolOn(al, pool, ip) != {})
  }

  ghost predicate PoolServicesCoherent(al: Allocations, m: map<string, int>) {
    forall pool :: Get(m, pool, 0) == |OfPool(al, pool)|
  }

  ghost predicate Coherent(al: Allocations, ix: Index) {
    && KeysCoherent(al, ix.sharingKeyForIp)
    && PortsCoherent(al, ix.portsInUse)
    && ServicesCoherent(al, ix.servicesOnIp)
    && PoolIpsCoherent(al, ix.poolIpsInUse)
    && PoolServicesCoherent(al, ix.poolServices)
  }

  // ---------- Port maps ----------

  lemma {:induction false} AddPortsExact(m: map<Port, string>, ports: seq<Port>, svc: string)
    ensures AddPorts(m, ports, svc) == map p | p in m.Keys + (set q | q in ports) :: if p in ports then svc else m[p]
  {
    if ports != [] {
      AddPortsExact(m, ports[..|ports| - 1], svc);
      assert ports == ports[..|ports| - 1] + [ports[|ports| - 1]];
    }
  }

  /** Distinct ports that are recorded as svc's are freed, all of them and no others. */
  lemma {:induction false} RemovePortsExact(m: map<Port, string>, ports: seq<Port>, svc: string)
    requires forall i, j :: 0 <= i < j < |ports| ==> ports[i] != ports[j]
    requires forall p :: p in ports ==> p in m && m[p] == svc
    ensures RemovePorts(m, ports, svc) == Some(m - (set p | p in ports))
  {
    if ports == [] {
      assert m - (set p | p in ports) == m;
    } else {
      var init, last := ports[..|ports| - 1], ports[|ports| - 1];
      assert ports == init + [last];
      RemovePortsExact(m, init, svc);
      assert last !in init;
      var rest := m - (set p | p in init);
      assert rest[last] == svc;
      assert rest - {last} == m - (set p | p in ports);
    }
  }

  // ---------- assign keeps every index coherent ----------

  lemma AddKeys(al: Allocations, m: map<Ip, Key>, svc: string, a: Alloc)
    requires svc !in al && KeysCoherent(al, m) && Compatible(al, svc, a.ip, Asks(a))
    ensures KeysCoherent(al[svc := a], m[a.ip := a.key])
  {
    var al' := al[svc := a];
    forall s | s in al'
      ensures m[a.ip := a.key][al'[s].ip] == al'[s].key
    {
      if s != svc && al[s].ip == a.ip {
        assert Shares(al[s], Asks(a));
      }
    }
    var m' := m[a.ip := a.key];
    forall ip | ip in m'
      ensures exists s :: s in al' && al'[s].ip == ip
    {
      if ip == a.ip {
        assert al'[svc].ip == ip;
      } else {
        var s :| s in al && al[s].ip == ip;
        assert al'[s].ip == ip;
      }
    }
  }

  lemma AddPortIndex(al: Allocations, m: map<Ip, map<Port, string>>, svc: string, a: Alloc)
    requires svc !in al && PortsCoherent(al, m) && Compatible(al, svc, a.ip, Asks(a))
    ensures PortsCoherent(al[svc := a], m[a.ip := AddPorts(Get(m, a.ip, map[]), a.ports, svc)])
  {
    var al', was := al[svc := a], Get(m, a.ip, map[]);
    var m' := m[a.ip := AddPorts(was, a.ports, svc)];
    AddPortsExact(was, a.ports, svc);
    forall ip | ip in m'
      ensures exists s :: s in al' && al'[s].ip == ip
    {
      if ip == a.ip {
        assert al'[svc].ip == ip;
      } else {
        var s :| s in al && al[s].ip == ip;
        assert al'[s].ip == ip;
      }
    }
    forall ip, p, s | Owns(al', s, ip, p)
      ensures ip in m' && p in m'[ip] && m'[ip][p] == s
    {
      if s != svc {
        assert Owns(al, s, ip, p);
        if ip == a.ip {
          assert Shares(al[s], Asks(a));
        }
      }
    }
    forall ip, p, s | ip in m' && p in m'[ip] && m'[ip][p] == s
      ensures Owns(al', s, ip, p)
    {
      if ip != a.ip || p !in a.ports {
        assert Owns(al, s, ip, p);
      }
    }
  }

  lemma AddServices(al: Allocations, m: map<Ip, set<string>>, svc: string, a: Alloc)
    requires svc !in al && ServicesCoherent(al, m)
    ensures ServicesCoherent(al[svc := a], m[a.ip := Get(m, a.ip, {}) + {svc}])
  {
    var m' := m[a.ip := Get(m, a.ip, {}) + {svc}];
    forall ip
      ensures Get(m', ip, {}) == On(al[svc := a], ip)
    {
      assert Get(m, ip, {}) == On(al, ip);
      assert On(al[svc := a], ip) == if ip == a.ip then On(al, ip) + {svc} else On(al, ip);
    }
  }

  lemma AddPoolIps(al: Allocations, m: map<string, map<Ip, int>>, svc: string, a: Alloc)
    requires svc !in al && PoolIpsCoherent(al, m)
    ensures PoolIpsCoherent(al[svc := a], BumpIp(m, a.pool, a.ip))
  {
    var al', m' := al[svc := a], BumpIp(m, a.pool, a.ip);
    forall pool, ip
      ensures PoolIpCoherent(al', m', pool, ip)
    {
      assert PoolIpCoherent(al, m, pool, ip);
      InPoolOnAdded(al, svc, a, pool, ip);
    }
  }

  lemma InPoolOnAdded(al: Allocations, svc: string, a: Alloc, pool: string, ip: Ip)
    requires svc !in al
    ensures InPoolOn(al[svc := a], pool, ip)
         == if pool == a.pool && ip == a.ip then InPoolOn(al, pool, ip) + {svc} else InPoolOn(al, pool, ip)
    ensures svc !in InPoolOn(al, pool, ip)
  {
  }

  lemma AddPoolServices(al: Allocations, m: map<string, int>, svc: string, a: Alloc)
    requires svc !in al && PoolServicesCoherent(al, m)
    ensures PoolServicesCoherent(al[svc := a], m[a.pool := Get(m, a.pool, 0) + 1])
  {
    var al', m' := al[svc := a], m[a.pool := Get(m, a.pool, 0) + 1];
    forall pool
      ensures Get(m', pool, 0) == |OfPool(al', pool)|
    {
      assert Get(m, pool, 0) == |OfPool(al, pool)|;
      OfPoolAdded(al, svc, a, pool);
    }
  }

  lemma OfPoolAdded(al: Allocations, svc: string, a: Alloc, pool: string)
    requires svc !in al
    ensures svc !in OfPool(al, pool)
    ensures OfPool(al[svc := a], pool) == if pool == a.pool then OfPool(al, pool) + {svc} else OfPool(al, pool)
  {
  }

  /** Recording a compatible allocation keeps all five maps exact. */
  lemma AddCoherent(al: Allocations, ix: Index, svc: string, a: Alloc)
    requires svc !in al && Coherent(al, ix) && Compatible(al, svc, a.ip, Asks(a))
    ensures Coherent(al[svc := a], Add(ix, svc, a))
  {
    hide KeysCoherent, PortsCoherent, ServicesCoherent, PoolIpsCoherent, PoolServicesCoherent, Compatible, AddPorts,
         BumpIp;
    AddKeys(al, ix.sharingKeyForIp, svc, a);
    AddPortIndex(al, ix.portsInUse, svc, a);
    AddServices(al, ix.servicesOnIp, svc, a);
    AddPoolIps(al, ix.poolIpsInUse, svc, a);
    AddPoolServices(al, ix.poolServices, svc, a);
  }

  // ---------- Unassign keeps every index coherent ----------

  lemma PortsFreed(al: Allocations, m: map<Ip, map<Port, string>>, svc: string)
    requires svc in al && PortsCoherent(al, m) && GoodPorts(al[svc].ports)
    ensures RemovePorts(m[al[svc].ip], al[svc].ports, svc) == Some(m[al[svc].ip] - (set p | p in al[svc].ports))
  {
    var a := al[svc];
    forall p | p in a.ports
      ensures p in m[a.ip] && m[a.ip][p] == svc
    {
      assert Owns(al, svc, a.ip, p);
    }
    RemovePortsExact(m[a.ip], a.ports, svc);
  }

  /** No port is left on the address just when no service is. */
  lemma PortsLeft(al: Allocations, m: map<Ip, map<Port, string>>, svc: string, left: map<Port, string>)
    requires svc in al && PortsCoherent(al, m) && PortsGood(al)
    requires left == m[al[svc].ip] - (set p | p in al[svc].ports)
    ensures left == map[] <==> On(al - {svc}, al[svc].ip) == {}
  {
    var a := al[svc];
    if p :| p in left {
      assert Owns(al, m[a.ip][p], a.ip, p);
      assert left[p] in On(al - {svc}, a.ip);
    }
    if s :| s in On(al - {svc}, a.ip) {
      var p := al[s].ports[0];
      assert Owns(al, s, a.ip, p);
      assert p in a.ports ==> Owns(al, svc, a.ip, p);
      assert p in left;
    }
  }

  lemma RemovePortIndex(al: Allocations, m: map<Ip, map<Port, string>>, svc: string, left: map<Port, string>)
    requires svc in al && PortsCoherent(al, m)
    requires left == m[al[svc].ip] - (set p | p in al[svc].ports)
    requires left == map[] <==> On(al - {svc}, al[svc].ip) == {}
    ensures PortsCoherent(al - {svc}, if left == map[] then m - {al[svc].ip} else m[al[svc].ip := left])
  {
    var a, al' := al[svc], al - {svc};
    var m' := if left == map[] then m - {a.ip} else m[a.ip := left];
    forall s | s in al'
      ensures al'[s].ip in m'
    {
      assert al'[s].ip == a.ip ==> s in On(al', a.ip);
    }
    forall ip | ip in m'
      ensures exists s :: s in al' && al'[s].ip == ip
    {
      if ip == a.ip {
        var s :| s in On(al', a.ip);
        assert al'[s].ip == ip;
      } else {
        var s :| s in al && al[s].ip == ip;
        assert al'[s].ip == ip;
      }
    }
    forall ip, p, s | ip in m' && p in m'[ip] && m'[ip][p] == s
      ensures Owns(al', s, ip, p)
    {
      assert Owns(al, s, ip, p);
    }
    forall ip, p, s | Owns(al', s, ip, p)
      ensures ip in m' && p in m'[ip] && m'[ip][p] == s
    {
      assert Owns(al, s, ip, p);
      if ip == a.ip {
        assert s in On(al', a.ip);
        assert p in a.ports ==> Owns(al, svc, ip, p);
      }
    }
  }

  lemma RemoveKeys(al: Allocations, m: map<Ip, Key>, svc: string)
    requires svc in al && KeysCoherent(al, m)
    ensures KeysCoherent(al - {svc}, if On(al - {svc}, al[svc].ip) == {} then m - {al[svc].ip} else m)
  {
    var a, al' := al[svc], al - {svc};
    var m' := if On(al', a.ip) == {} then m - {a.ip} else m;
    forall s | s in al'
      ensures al'[s].ip in m' && m'[al'[s].ip] == al'[s].key
    {
      assert al'[s].ip == a.ip ==> s in On(al', a.ip);
    }
    forall ip | ip in m'
      ensures exists s :: s in al' && al'[s].ip == ip
    {
      if ip == a.ip {
        var s :| s in On(al', a.ip);
        assert al'[s].ip == ip;
      } else {
        var s :| s in al && al[s].ip == ip;
        assert al'[s].ip == ip;
      }
    }
  }

  lemma RemoveServices(al: Allocations, m: map<Ip, set<string>>, svc: string)
    requires svc in al && ServicesCoherent(al, m)
    ensures al[svc].ip in m
    ensures ServicesCoherent(al - {svc}, m[al[svc].ip := m[al[svc].ip] - {svc}])
  {
    var a := al[svc];
    assert svc in On(al, a.ip);
    assert Get(m, a.ip, {}) == On(al, a.ip);
    var m' := m[a.ip := m[a.ip] - {svc}];
    forall ip
      ensures Get(m', ip, {}) == On(al - {svc}, ip)
    {
      assert Get(m, ip, {}) == On(al, ip);
      assert On(al - {svc}, ip) == if ip == a.ip then On(al, ip) - {svc} else On(al, ip);
    }
  }

  lemma InPoolOnRemoved(al: Allocations, svc: string, pool: string, ip: Ip)
    requires svc in al
    ensures InPoolOn(al - {svc}, pool, ip)
         == if pool == al[svc].pool && ip == al[svc].ip then InPoolOn(al, pool, ip) - {svc} else InPoolOn(al, pool, ip)
    ensures pool == al[svc].pool && ip == al[svc].ip ==> svc in InPoolOn(al, pool, ip)
  {
  }

  lemma RemovePoolIps(al: Allocations, m: map<string, map<Ip, int>>, svc: string)
    requires svc in al && PoolIpsCoherent(al, m)
    ensures al[svc].pool in m
    ensures PoolIpsCoherent(al - {svc}, DropIp(m, al[svc].pool, al[svc].ip))
  {
    var a, al' := al[svc], al - {svc};
    var m' := DropIp(m, a.pool, a.ip);
    assert PoolIpCoherent(al, m, a.pool, a.ip);
    InPoolOnRemoved(al, svc, a.pool, a.ip);
    forall pool, ip
      ensures PoolIpCoherent(al', m', pool, ip)
    {
      assert PoolIpCoherent(al, m, pool, ip);
      InPoolOnRemoved(al, svc, pool, ip);
    }
  }

  lemma RemovePoolServices(al: Allocations, m: map<string, int>, svc: string)
    requires svc in al && PoolServicesCoherent(al, m)
    ensures PoolServicesCoherent(al - {svc}, m[al[svc].pool := Get(m, al[svc].pool, 0) - 1])
  {
    var a := al[svc];
    var m' := m[a.pool := Get(m, a.pool, 0) - 1];
    forall pool
      ensures Get(m', pool, 0) == |OfPool(al - {svc}, pool)|
    {
      assert Get(m, pool, 0) == |OfPool(al, pool)|;
      assert pool == a.pool ==> svc in OfPool(al, pool);
      assert OfPool(al - {svc}, pool) == if pool == a.pool then OfPool(al, pool) - {svc} else OfPool(al, pool);
    }
  }

  /** Taking an allocation back never panics, and the two maps cleared together stay exact. */
  lemma RemoveKeysAndPorts(al: Allocations, ix: Index, svc: string)
    requires svc in al && PortsGood(al)
    requires KeysCoherent(al, ix.sharingKeyForIp) && PortsCoherent(al, ix.portsInUse) && al[svc].pool in ix.poolIpsInUse
    ensures Remove(ix, svc, al[svc]).Some?
    ensures KeysCoherent(al - {svc}, Remove(ix, svc, al[svc]).value.sharingKeyForIp)
    ensures PortsCoherent(al - {svc}, Remove(ix, svc, al[svc]).value.portsInUse)
  {
    hide KeysCoherent, RemovePorts, Owns, DropIp;
    PortsFreed(al, ix.portsInUse, svc);
    var left := ix.portsInUse[al[svc].ip] - (set p | p in al[svc].ports);
    PortsLeft(al, ix.portsInUse, svc, left);
    RemovePortIndex(al, ix.portsInUse, svc, left);
    RemoveKeys(al, ix.sharingKeyForIp, svc);
  }

  /** Taking an allocation back never panics and keeps all five maps exact. */
  lemma RemoveCoherent(al: Allocations, ix: Index, svc: string)
    requires svc in al && Coherent(al, ix) && PortsGood(al)
    ensures Remove(ix, svc, al[svc]).Some?
    ensures Coherent(al - {svc}, Remove(ix, svc, al[svc]).value)
  {
    hide KeysCoherent, PortsCoherent, ServicesCoherent, PoolIpsCoherent, PoolServicesCoherent, PortsGood, RemovePorts,
         DropIp;
    RemovePoolIps(al, ix.poolIpsInUse, svc);
    RemoveServices(al, ix.servicesOnIp, svc);
    RemovePoolServices(al, ix.poolServices, svc);
    RemoveKeysAndPorts(al, ix, svc);
  }
}
