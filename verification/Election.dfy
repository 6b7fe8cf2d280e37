/** Which node announces a service: the layer 2 election (speaker/layer2_controller.go) and the
    local-endpoint rule of BGP (speaker/bgp_controller.go). */
module Election {
  import opened Net
  import opened Bytes

  datatype Address = Address(node: Option<string>, ip: string)

  datatype Subset = Subset(ready: seq<Address>, unready: seq<Address>)

  type Endpoints = seq<Subset>

  ghost predicate ReadyAt(eps: Endpoints, k: nat, node: string) {
    k < |eps| && exists a :: a in eps[k].ready && a.node == Some(node)
  }

  ghost predicate UnreadyAt(eps: Endpoints, k: nat, node: string) {
    k < |eps| && exists a :: a in eps[k].unready && a.node == Some(node)
  }

  /** At least one ready address and no unready one, in whatever subsets they are. */
  ghost predicate Usable(eps: Endpoints, node: string) {
    (exists k :: ReadyAt(eps, k, node)) && (forall k :: !UnreadyAt(eps, k, node))
  }

  // ---------- usableNodes ----------

  /** What the map says after some subsets: nothing, or whether no unready address was seen. */
  ghost predicate Recorded(usable: map<string, bool>, ready: set<string>, unready: set<string>) {
    forall n :: (n in usable <==> n in ready || n in unready) && (n in usable ==> usable[n] == (n !in unready))
  }

  ghost function Nodes(addrs: seq<Address>): (r: set<string>)
    ensures forall n :: n in r <==> exists a :: a in addrs && a.node == Some(n)
  {
    if addrs == [] then {}
    else
      var rest, a := Nodes(addrs[..|addrs| - 1]), addrs[|addrs| - 1];
      assert addrs == addrs[..|addrs| - 1] + [a];
      if a.node.Some? then rest + {a.node.value} else rest
  }

  ghost function ReadyNodes(eps: Endpoints): set<string> {
    if eps == [] then {} else ReadyNodes(eps[..|eps| - 1]) + Nodes(eps[|eps| - 1].ready)
  }

  ghost function UnreadyNodes(eps: Endpoints): set<string> {
    if eps == [] then {} else UnreadyNodes(eps[..|eps| - 1]) + Nodes(eps[|eps| - 1].unready)
  }

  lemma {:induction false} NodesExact(eps: Endpoints, n: string)
    ensures n in ReadyNodes(eps) <==> exists k :: ReadyAt(eps, k, n)
    ensures n in UnreadyNodes(eps) <==> exists k :: UnreadyAt(eps, k, n)
  {
    if eps != [] {
      var init := eps[..|eps| - 1];
      NodesExact(init, n);
      assert forall k: nat :: k < |init| ==> init[k] == eps[k];
      assert forall k: nat :: k < |init| ==>
        (ReadyAt(eps, k, n) <==> ReadyAt(init, k, n)) && (UnreadyAt(eps, k, n) <==> UnreadyAt(init, k, n));
      assert forall k: nat :: k == |init| ==>
        (ReadyAt(eps, k, n) <==> n in Nodes(eps[k].ready)) && (UnreadyAt(eps, k, n) <==> n in Nodes(eps[k].unready));
    }
  }

  method NoteReady(usable: map<string, bool>, addrs: seq<Address>, ghost ready: set<string>, ghost unready: set<string>)
    returns (r: map<string, bool>)
    requires Recorded(usable, ready, unready)
    ensures Recorded(r, ready + Nodes(addrs), unready)
  {
    r := usable;
    for i := 0 to |addrs|
      invariant Recorded(r, ready + Nodes(addrs[..i]), unready)
    {
      assert addrs[..i + 1][..i] == addrs[..i];
      var a := addrs[i];
      if a.node.None? {
        continue;
      }
      if a.node.value !in r {
        r := r[a.node.value := true];
      }
    }
    assert addrs[..|addrs|] == addrs;
  }

  method NoteUnready(usable: map<string, bool>, addrs: seq<Address>, ghost ready: set<string>,
                     ghost unready: set<string>)
    returns (r: map<string, bool>)
    requires Recorded(usable, ready, unready)
    ensures Recorded(r, ready, unready + Nodes(addrs))
  {
    r := usable;
    for i := 0 to |addrs|
      invariant Recorded(r, ready, unready + Nodes(addrs[..i]))
    {
      assert addrs[..i + 1][..i] == addrs[..i];
      var a := addrs[i];
      if a.node.None? {
        continue;
      }
      r := r[a.node.value := false];
    }
    assert addrs[..|addrs|] == addrs;
  }

  predicate Distinct(nodes: seq<string>) {
    forall i, j :: 0 <= i < j < |nodes| ==> nodes[i] != nodes[j]
  }

  /** The usable nodes, each once, in any order. */
  ghost predicate Lists(nodes: seq<string>, eps: Endpoints) {
    Distinct(nodes) && forall n :: n in nodes <==> Usable(eps, n)
  }

  method UsableNodes(eps: Endpoints) returns (nodes: seq<string>)
    ensures Lists(nodes, eps)
    ensures forall n :: n in nodes <==>
      && (exists k, a :: 0 <= k < |eps| && a in eps[k].ready && a.node == Some(n))
      && (forall k, a :: 0 <= k < |eps| && a in eps[k].unready ==> a.node != Some(n))
  {
    hide Usable;
    var usable: map<string, bool> := map[];
    for k := 0 to |eps|
      invariant Recorded(usable, ReadyNodes(eps[..k]), UnreadyNodes(eps[..k]))
    {
      assert eps[..k + 1][..k] == eps[..k];
      usable := NoteReady(usable, eps[k].ready, ReadyNodes(eps[..k]), UnreadyNodes(eps[..k]));
      usable := NoteUnready(usable, eps[k].unready, ReadyNodes(eps[..k + 1]), UnreadyNodes(eps[..k]));
    }
    assert eps[..|eps|] == eps;
    nodes := TrueKeys(usable);
    forall n
      ensures n in nodes <==> Usable(eps, n)
      ensures Usable(eps, n) <==>
        && (exists k, a :: 0 <= k < |eps| && a in eps[k].ready && a.node == Some(n))
        && (forall k, a :: 0 <= k < |eps| && a in eps[k].unready ==> a.node != Some(n))
    {
      UsableExact(eps, n);
      UsableMeans(eps, n);
    }
  }

  lemma UsableMeans(eps: Endpoints, n: string)
    ensures Usable(eps, n) <==>
      && (exists k, a :: 0 <= k < |eps| && a in eps[k].ready && a.node == Some(n))
      && (forall k, a :: 0 <= k < |eps| && a in eps[k].unready ==> a.node != Some(n))
  {
    if k, a :| 0 <= k < |eps| && a in eps[k].ready && a.node == Some(n) {
      assert ReadyAt(eps, k, n);
    }
    if k, a :| 0 <= k < |eps| && a in eps[k].unready && a.node == Some(n) {
      assert UnreadyAt(eps, k, n);
    }
  }

  lemma UsableExact(eps: Endpoints, n: string)
    ensures Usable(eps, n) <==> n in ReadyNodes(eps) && n !in UnreadyNodes(eps)
  {
    hide ReadyAt, UnreadyAt;
    NodesExact(eps, n);
  }

  /** The loop over a Go map: any order. */
  method TrueKeys(usable: map<string, bool>) returns (nodes: seq<string>)
    ensures Distinct(nodes) && forall n :: n in nodes <==> n in usable && usable[n]
  {
    nodes := [];
    var todo := usable.Keys;
    while todo != {}
      invariant todo <= usable.Keys && Distinct(nodes)
      invariant forall n :: n in nodes <==> n in usable && n !in todo && usable[n]
      decreases todo
    {
      var n :| n in todo;
      todo := todo - {n};
      if usable[n] {
        nodes := nodes + [n];
      }
    }
  }

  // ---------- Hashes ----------

  type Digest = seq<Byte>

  /** The hash of a text: SHA-256 in the program, any function here. */
  type Hash = string -> Digest

  /** `bytes.Compare(a, b) < 0`. */
  predicate Less(a: Digest, b: Digest) {
    b != [] && (a == [] || a[0] < b[0] || (a[0] == b[0] && Less(a[1..], b[1..])))
  }

  /** Lexicographic order: at the first difference the octet is smaller, or there is none left. */
  lemma {:induction false} LessExact(a: Digest, b: Digest)
    ensures Less(a, b) <==>
      exists i :: 0 <= i <= |a| && i < |b| && a[..i] == b[..i] && (i < |a| ==> a[i] < b[i])
  {
    if a != [] && b != [] {
      LessExact(a[1..], b[1..]);
      if Less(a[1..], b[1..]) && a[0] == b[0] {
        var i :| 0 <= i <= |a[1..]| && i < |b[1..]| && a[1..][..i] == b[1..][..i] && (i < |a[1..]| ==> a[1..][i] < b[1..][i]);
        assert a[..i + 1] == [a[0]] + a[1..][..i] && b[..i + 1] == [b[0]] + b[1..][..i];
      }
      if i :| 0 <= i <= |a| && i < |b| && a[..i] == b[..i] && (i < |a| ==> a[i] < b[i]) {
        if i > 0 {
          assert a[0] == a[..i][0] && b[0] == b[..i][0];
          assert a[1..][..i - 1] == a[..i][1..] && b[1..][..i - 1] == b[..i][1..];
        }
      }
    }
    if Less(a, b) && (a == [] || a[0] < b[0]) {
      assert a[..0] == b[..0];
    }
  }

  lemma {:induction false} LessTransitive(a: Digest, b: Digest, c: Digest)
    requires !Less(b, a) && !Less(c, b)
    ensures !Less(c, a)
  {
    if a != [] && b != [] && c != [] {
      if c[0] == a[0] {
        LessTransitive(a[1..], b[1..], c[1..]);
      }
    }
  }

  lemma {:induction false} LessTotal(a: Digest, b: Digest)
    ensures Less(a, b) || Less(b, a) || a == b
    ensures !(Less(a, b) && Less(b, a))
  {
    if a != [] && b != [] {
      LessTotal(a[1..], b[1..]);
      assert a == [a[0]] + a[1..] && b == [b[0]] + b[1..];
    }
  }

  function KeyOf(hash: Hash, name: string, node: string): Digest {
    hash(node + "#" + name)
  }

  predicate NoLater(hash: Hash, name: string, a: string, b: string) {
    !Less(KeyOf(hash, name, b), KeyOf(hash, name, a))
  }

  ghost predicate Sorted(hash: Hash, name: string, nodes: seq<string>) {
    forall i, j :: 0 <= i < j < |nodes| ==> NoLater(hash, name, nodes[i], nodes[j])
  }

  lemma NoLaterTransitive(hash: Hash, name: string, a: string, b: string, c: string)
    requires NoLater(hash, name, a, b) && NoLater(hash, name, b, c)
    ensures NoLater(hash, name, a, c)
  {
    LessTransitive(KeyOf(hash, name, a), KeyOf(hash, name, b), KeyOf(hash, name, c));
  }

  lemma NoLaterTotal(hash: Hash, name: string, a: string, b: string)
    ensures NoLater(hash, name, a, b) || NoLater(hash, name, b, a)
    ensures NoLater(hash, name, a, b) && NoLater(hash, name, b, a) ==> KeyOf(hash, name, a) == KeyOf(hash, name, b)
  {
    LessTotal(KeyOf(hash, name, a), KeyOf(hash, name, b));
  }

  /** The same nodes, each once. */
  ghost predicate Rearranged(a: seq<string>, b: seq<string>) {
    |a| == |b| && Distinct(b) && forall n :: n in a <==> n in b
  }

  /** The sort, in place. Nothing is promised about the order of nodes with equal hashes. */
  method SortByHash(nodes: array<string>, hash: Hash, name: string)
    requires Distinct(nodes[..])
    modifies nodes
    ensures Sorted(hash, name, nodes[..]) && Rearranged(old(nodes[..]), nodes[..])
  {
    hide NoLater;
    for n := 0 to nodes.Length
      invariant Sorted(hash, name, nodes[..n]) && Rearranged(old(nodes[..]), nodes[..])
    {
      SinkLast(nodes, n, hash, name);
    }
    assert nodes[..nodes.Length] == nodes[..];
  }

  /** Moves element n down to its place among the first n. */
  method SinkLast(nodes: array<string>, n: nat, hash: Hash, name: string)
    requires n < nodes.Length && Distinct(nodes[..]) && Sorted(hash, name, nodes[..n])
    modifies nodes
    ensures Sorted(hash, name, nodes[..n + 1]) && Rearranged(old(nodes[..]), nodes[..])
  {
    hide NoLater;
    var k := n;
    while k > 0 && !NoLater(hash, name, nodes[k - 1], nodes[k])
      invariant 0 <= k <= n && Rearranged(old(nodes[..]), nodes[..])
      invariant Sunk(hash, name, nodes[..n + 1], k)
      decreases k
    {
      ghost var before := nodes[..];
      NoLaterTotal(hash, name, nodes[k - 1], nodes[k]);
      nodes[k - 1], nodes[k] := nodes[k], nodes[k - 1];
      assert nodes[..] == before[k - 1 := before[k]][k := before[k - 1]];
      SwapRearranges(before, k);
      SwapSinks(hash, name, before[..n + 1], nodes[..n + 1], k);
      k := k - 1;
    }
    SunkSorted(hash, name, nodes[..n + 1], k);
  }

  /** Sorted but for element k, which is no later than those behind it. */
  ghost predicate Sunk(hash: Hash, name: string, s: seq<string>, k: nat) {
    k < |s| && (forall i, j :: 0 <= i < j < |s| && j != k ==> NoLater(hash, name, s[i], s[j]))
  }

  lemma SwapRearranges(s: seq<string>, k: nat)
    requires 0 < k < |s| && Distinct(s)
    ensures Rearranged(s, s[k - 1 := s[k]][k := s[k - 1]])
  {
    var t := s[k - 1 := s[k]][k := s[k - 1]];
    forall n
      ensures n in s <==> n in t
    {
      if n in s {
        var i :| 0 <= i < |s| && s[i] == n;
        assert t[if i == k then k - 1 else if i == k - 1 then k else i] == n;
      }
    }
  }

  lemma SwapSinks(hash: Hash, name: string, s: seq<string>, t: seq<string>, k: nat)
    requires 0 < k < |s| && Sunk(hash, name, s, k) && NoLater(hash, name, s[k], s[k - 1])
    requires t == s[k - 1 := s[k]][k := s[k - 1]]
    ensures Sunk(hash, name, t, k - 1)
  {
    hide NoLater;
  }

  lemma SunkSorted(hash: Hash, name: string, s: seq<string>, k: nat)
    requires Sunk(hash, name, s, k) && (k > 0 ==> NoLater(hash, name, s[k - 1], s[k]))
    ensures Sorted(hash, name, s)
  {
    hide NoLater;
    forall i, j | 0 <= i < j < |s|
      ensures NoLater(hash, name, s[i], s[j])
    {
      if j == k && i < k - 1 {
        NoLaterTransitive(hash, name, s[i], s[k - 1], s[k]);
      }
    }
  }

  // ---------- ShouldAnnounce ----------

  /** A usable node that no usable node comes before. */
  ghost predicate First(hash: Hash, name: string, eps: Endpoints, node: string) {
    Usable(eps, node) && forall n :: Usable(eps, n) ==> NoLater(hash, name, node, n)
  }

  /** What a node may answer: some sorted list of the usable nodes has it in front, or not. */
  ghost predicate MayAnswer(hash: Hash, name: string, eps: Endpoints, node: string, announce: bool) {
    exists nodes :: Lists(nodes, eps) && Sorted(hash, name, nodes) && announce == (nodes != [] && nodes[0] == node)
  }

  method ShouldAnnounce(myNode: string, hash: Hash, name: string, eps: Endpoints) returns (reason: string)
    ensures reason == "" || reason == "notOwner"
    ensures MayAnswer(hash, name, eps, myNode, reason == "")
  {
    hide Usable, NoLater;
    var list := UsableNodes(eps);
    var nodes := new string[|list|](i requires 0 <= i < |list| => list[i]);
    assert nodes[..] == list;
    SortByHash(nodes, hash, name);
    assert Lists(nodes[..], eps);
    if nodes.Length > 0 && nodes[0] == myNode {
      assert nodes[..][0] == myNode;
      return "";
    }
    assert nodes.Length > 0 ==> nodes[..][0] == nodes[0];
    return "notOwner";
  }

  /** A node may announce exactly when it is a first one. */
  lemma AnnounceExact(hash: Hash, name: string, eps: Endpoints, all: seq<string>, node: string)
    requires Lists(all, eps)
    ensures MayAnswer(hash, name, eps, node, true) <==>
      Usable(eps, node) && forall n :: Usable(eps, n) ==> !Less(hash(n + "#" + name), hash(node + "#" + name))
  {
    hide Usable, Less;
    if nodes :| Lists(nodes, eps) && Sorted(hash, name, nodes) && nodes != [] && nodes[0] == node {
      FrontIsFirst(hash, name, eps, nodes);
    }
    if First(hash, name, eps, node) {
      var nodes := FrontList(hash, name, eps, all, node);
    }
  }

  lemma FrontIsFirst(hash: Hash, name: string, eps: Endpoints, nodes: seq<string>)
    requires Lists(nodes, eps) && Sorted(hash, name, nodes) && nodes != []
    ensures First(hash, name, eps, nodes[0])
  {
    hide Usable, NoLater;
    assert nodes[0] in nodes;
    forall n | Usable(eps, n)
      ensures NoLater(hash, name, nodes[0], n)
    {
      var i :| 0 <= i < |nodes| && nodes[i] == n;
      if i == 0 {
        NoLaterTotal(hash, name, n, n);
      }
    }
  }

  /** A sorted list of the usable nodes with a given first node in front. */
  lemma FrontList(hash: Hash, name: string, eps: Endpoints, all: seq<string>, node: string) returns (nodes: seq<string>)
    requires Lists(all, eps) && First(hash, name, eps, node)
    ensures Lists(nodes, eps) && Sorted(hash, name, nodes) && nodes != [] && nodes[0] == node
  {
    hide Usable, NoLater;
    var i :| 0 <= i < |all| && all[i] == node;
    var rest := all[..i] + all[i + 1..];
    assert forall n :: n in rest <==> n in all && n != node by {
      assert all == all[..i] + [node] + all[i + 1..];
    }
    var tail := SortedCopy(hash, name, rest);
    nodes := [node] + tail;
  }

  lemma {:induction false} SortedCopy(hash: Hash, name: string, s: seq<string>) returns (t: seq<string>)
    requires Distinct(s)
    ensures Sorted(hash, name, t) && Rearranged(s, t)
  {
    hide NoLater;
    if s == [] {
      t := [];
    } else {
      var last := s[|s| - 1];
      var u := SortedCopy(hash, name, s[..|s| - 1]);
      assert s == s[..|s| - 1] + [last];
      t := Inserted(hash, name, u, last);
    }
  }

  lemma {:induction false} Inserted(hash: Hash, name: string, u: seq<string>, x: string) returns (t: seq<string>)
    requires Distinct(u) && Sorted(hash, name, u) && x !in u
    ensures Sorted(hash, name, t) && Rearranged(u + [x], t)
    decreases |u|
  {
    hide NoLater;
    if u == [] || NoLater(hash, name, u[|u| - 1], x) {
      t := u + [x];
      forall i | 0 <= i < |u|
        ensures NoLater(hash, name, u[i], x)
      {
        if i < |u| - 1 {
          NoLaterTransitive(hash, name, u[i], u[|u| - 1], x);
        }
      }
    } else {
      var init, last := u[..|u| - 1], u[|u| - 1];
      NoLaterTotal(hash, name, last, x);
      assert u == init + [last];
      var v := Inserted(hash, name, init, x);
      t := v + [last];
      assert forall i :: 0 <= i < |v| ==> v[i] in init + [x];
      assert forall i :: 0 <= i < |init| ==> NoLater(hash, name, init[i], last);
    }
  }

  // ---------- The whole cluster ----------

  /** Answers that the nodes may give for one service, all looking at the same endpoints. */
  ghost predicate Round(hash: Hash, name: string, eps: Endpoints, says: string -> bool) {
    forall n :: MayAnswer(hash, name, eps, n, says(n))
  }

  ghost predicate ExactlyOne(says: string -> bool) {
    exists n :: says(n) && forall k :: says(k) ==> k == n
  }

  ghost predicate LoneFirst(hash: Hash, name: string, eps: Endpoints) {
    forall a, b :: First(hash, name, eps, a) && First(hash, name, eps, b) ==> a == b
  }

  /** No node that is not usable announces; with no usable node, nobody does. */
  lemma OnlyUsableAnnounce(hash: Hash, name: string, eps: Endpoints, says: string -> bool, n: string)
    requires Round(hash, name, eps, says) && says(n)
    ensures Usable(eps, n) && First(hash, name, eps, n)
  {
    hide Usable, NoLater;
    var nodes :| Lists(nodes, eps) && Sorted(hash, name, nodes) && says(n) == (nodes != [] && nodes[0] == n);
    FrontIsFirst(hash, name, eps, nodes);
  }

  lemma SomeFirst(hash: Hash, name: string, eps: Endpoints, all: seq<string>, n: string) returns (w: string)
    requires Lists(all, eps) && Usable(eps, n)
    ensures First(hash, name, eps, w)
  {
    hide Usable, NoLater;
    var t := SortedCopy(hash, name, all);
    assert n in t;
    FrontIsFirst(hash, name, eps, t);
    w := t[0];
  }

  /** The only first node cannot but announce. */
  lemma LoneFirstAnnounces(hash: Hash, name: string, eps: Endpoints, w: string, announce: bool)
    requires First(hash, name, eps, w) && LoneFirst(hash, name, eps) && MayAnswer(hash, name, eps, w, announce)
    ensures announce
  {
    hide Usable, NoLater;
    var nodes :| Lists(nodes, eps) && Sorted(hash, name, nodes) && announce == (nodes != [] && nodes[0] == w);
    assert w in nodes;
    FrontIsFirst(hash, name, eps, nodes);
  }

  /** Exactly one node announces in every round exactly when no two first nodes share a hash. */
  lemma ElectionExact(hash: Hash, name: string, eps: Endpoints, all: seq<string>)
    requires Lists(all, eps) && all != []
    ensures LoneFirst(hash, name, eps) <==> forall says :: Round(hash, name, eps, says) ==> ExactlyOne(says)
  {
    hide Usable, NoLater, First, MayAnswer;
    assert all[0] in all;
    var w := SomeFirst(hash, name, eps, all, all[0]);
    if LoneFirst(hash, name, eps) {
      forall says | Round(hash, name, eps, says)
        ensures ExactlyOne(says)
      {
        LoneFirstAnnounces(hash, name, eps, w, says(w));
        forall k | says(k)
          ensures k == w
        {
          OnlyUsableAnnounce(hash, name, eps, says, k);
        }
      }
    } else {
      var a, b :| First(hash, name, eps, a) && First(hash, name, eps, b) && a != b;
      BothAnnounce(hash, name, eps, all, a, b);
    }
  }

  lemma BothAnnounce(hash: Hash, name: string, eps: Endpoints, all: seq<string>, a: string, b: string)
    requires Lists(all, eps) && First(hash, name, eps, a) && First(hash, name, eps, b) && a != b
    ensures exists says :: Round(hash, name, eps, says) && !ExactlyOne(says)
  {
    hide Usable, NoLater, First;
    var says := n => n == a || n == b;
    var front := FrontList(hash, name, eps, all, a);
    var behind := FrontList(hash, name, eps, all, b);
    forall n
      ensures MayAnswer(hash, name, eps, n, says(n))
    {
      if n == b {
        assert says(n) == (behind != [] && behind[0] == n);
      } else {
        assert says(n) == (front != [] && front[0] == n);
      }
    }
    assert Round(hash, name, eps, says);
    assert says(a) && says(b);
    assert !ExactlyOne(says);
  }

  /** Without hash collisions between usable nodes there is one first node at most. */
  lemma NoCollisionsLoneFirst(hash: Hash, name: string, eps: Endpoints)
    requires forall a, b :: Usable(eps, a) && Usable(eps, b) && KeyOf(hash, name, a) == KeyOf(hash, name, b) ==> a == b
    ensures LoneFirst(hash, name, eps)
  {
    hide Usable;
    forall a, b | First(hash, name, eps, a) && First(hash, name, eps, b)
      ensures a == b
    {
      NoLaterTotal(hash, name, a, b);
    }
  }

  /** Removing nodes other than the winner leaves the winner. */
  lemma LosersDoNotMatter(hash: Hash, name: string, eps: Endpoints, eps': Endpoints, w: string, announce: bool)
    requires First(hash, name, eps, w) && LoneFirst(hash, name, eps)
    requires Usable(eps', w) && forall n :: Usable(eps', n) ==> Usable(eps, n)
    requires MayAnswer(hash, name, eps', w, announce)
    ensures announce && First(hash, name, eps', w) && LoneFirst(hash, name, eps')
  {
    hide Usable, NoLater;
    forall a | First(hash, name, eps', a)
      ensures a == w
    {
      TiedFirst(hash, name, eps, w, a);
    }
    LoneFirstAnnounces(hash, name, eps', w, announce);
  }

  lemma TiedFirst(hash: Hash, name: string, eps: Endpoints, w: string, a: string)
    requires First(hash, name, eps, w) && Usable(eps, a) && NoLater(hash, name, a, w)
    ensures First(hash, name, eps, a)
  {
    hide Usable, NoLater;
    forall n | Usable(eps, n)
      ensures NoLater(hash, name, a, n)
    {
      NoLaterTransitive(hash, name, a, w, n);
    }
  }

  // ---------- nodeHasHealthyEndpoint ----------

  ghost predicate ReadyHere(eps: Endpoints, node: string, ip: string) {
    exists k, a :: 0 <= k < |eps| && a in eps[k].ready && a.node == Some(node) && a.ip == ip
  }

  ghost predicate UnreadyAnywhere(eps: Endpoints, ip: string) {
    exists k, a :: 0 <= k < |eps| && a in eps[k].unready && a.ip == ip
  }

  ghost predicate Seen(ready: map<string, bool>, eps: Endpoints, node: string) {
    forall ip ::
      && (ip in ready <==> ReadyHere(eps, node, ip) || UnreadyAnywhere(eps, ip))
      && (ip in ready ==> ready[ip] == !UnreadyAnywhere(eps, ip))
  }

  lemma MoreReady(init: Endpoints, s: Subset, node: string, ip: string)
    ensures ReadyHere(init + [s], node, ip)
      <==> ReadyHere(init, node, ip) || exists a :: a in s.ready && a.node == Some(node) && a.ip == ip
    ensures UnreadyAnywhere(init + [s], ip) <==> UnreadyAnywhere(init, ip) || exists a :: a in s.unready && a.ip == ip
  {
    var eps := init + [s];
    assert eps[|init|] == s;
    assert forall k :: 0 <= k < |init| ==> eps[k] == init[k];
  }

  /** An address is healthy here if it is ready on this node and nowhere unready. */
  method NodeHasHealthyEndpoint(eps: Endpoints, node: string) returns (healthy: bool)
    ensures healthy <==> exists ip :: ReadyHere(eps, node, ip) && !UnreadyAnywhere(eps, ip)
  {
    hide ReadyHere, UnreadyAnywhere;
    var ready: map<string, bool> := map[];
    NothingSeen(node);
    for k := 0 to |eps|
      invariant Seen(ready, eps[..k], node)
    {
      assert eps[..k + 1] == eps[..k] + [eps[k]];
      ready := NoteSubset(ready, eps[..k], eps[k], node);
    }
    assert eps[..|eps|] == eps;
    var todo := ready.Keys;
    while todo != {}
      invariant todo <= ready.Keys && forall ip :: ip in ready && ip !in todo ==> !ready[ip]
      decreases todo
    {
      var ip :| ip in todo;
      todo := todo - {ip};
      if ready[ip] {
        return true;
      }
    }
    return false;
  }

  /** `ShouldAnnounce` of the BGP handler; local is the traffic policy "Local". */
  method ShouldAnnounceHere(myNode: string, local: bool, eps: Endpoints) returns (reason: string)
    ensures reason == "" || reason == "noLocalEndpoints"
    ensures reason == "" <==> !local || exists ip :: ReadyHere(eps, myNode, ip) && !UnreadyAnywhere(eps, ip)
  {
    hide ReadyHere, UnreadyAnywhere;
    if local {
      var healthy := NodeHasHealthyEndpoint(eps, myNode);
      if !healthy {
        return "noLocalEndpoints";
      }
    }
    return "";
  }

  lemma NothingSeen(node: string)
    ensures Seen(map[], [], node)
  {
  }

  method NoteSubset(ready: map<string, bool>, ghost before: Endpoints, s: Subset, node: string)
    returns (r: map<string, bool>)
    requires Seen(ready, before, node)
    ensures Seen(r, before + [s], node)
  {
    hide ReadyHere, UnreadyAnywhere;
    r := ready;
    for i := 0 to |s.ready|
      invariant forall ip :: ip in r <==>
        ip in ready || exists a :: a in s.ready[..i] && a.node == Some(node) && a.ip == ip
      invariant forall ip :: ip in r ==> r[ip] == !UnreadyAnywhere(before, ip)
    {
      var ep := s.ready[i];
      assert s.ready[..i + 1] == s.ready[..i] + [ep];
      if ep.node.None? || ep.node.value != node {
        continue;
      }
      if ep.ip !in r {
        r := r[ep.ip := true];
      }
    }
    assert s.ready[..|s.ready|] == s.ready;
    ghost var mid := r;
    for i := 0 to |s.unready|
      invariant forall ip :: ip in r <==> ip in mid || exists a :: a in s.unready[..i] && a.ip == ip
      invariant forall ip :: ip in r ==>
        r[ip] == (!UnreadyAnywhere(before, ip) && !exists a :: a in s.unready[..i] && a.ip == ip)
    {
      assert s.unready[..i + 1] == s.unready[..i] + [s.unready[i]];
      r := r[s.unready[i].ip := false];
    }
    assert s.unready[..|s.unready|] == s.unready;
    forall ip
      ensures ip in r <==> ReadyHere(before + [s], node, ip) || UnreadyAnywhere(before + [s], ip)
      ensures ip in r ==> r[ip] == !UnreadyAnywhere(before + [s], ip)
    {
      MoreReady(before, s, node, ip);
    }
  }
}
