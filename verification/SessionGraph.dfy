/** Nodes and edges of the session graph: the second half of _emit_sessions in
  automation/jobs/graph-data.py. */
module SessionGraph {
  import opened Options
  import opened Sequences
  import opened SessionClosure
  import opened Naming
  import opened TextOrder

  datatype Kind = JcodeSession | Swarm | Other
  datatype Node = Node(id: string, kind: Kind)
  datatype Rel = Spawns | Coordinates | Hosts | WorksOn
  datatype Edge = Edge(src: string, dst: string, rel: Rel)

  const KERNEL: string := "kernel"

  function SessionId(sid: string): string { "jcode:" + sid }
  function HubId(sid: string): string { "swarm:" + sid }

  predicate OfSessions(id: string) { "jcode:" <= id || "swarm:" <= id }

  function IdsOf(nodes: seq<Node>): set<string> {
    if nodes == [] then {} else IdsOf(nodes[..|nodes| - 1]) + {nodes[|nodes| - 1].id}
  }

  /** No node from index `n` on repeats an earlier id. */
  predicate NewIds(n: nat, nodes: seq<Node>) {
    |nodes| > n ==> NewIds(n, nodes[..|nodes| - 1]) && nodes[|nodes| - 1].id !in IdsOf(nodes[..|nodes| - 1])
  }

  lemma {:induction false} IdsOfIsIds(nodes: seq<Node>, id: string)
    ensures id in IdsOf(nodes) <==> exists i :: 0 <= i < |nodes| && nodes[i].id == id
  {
    if nodes != [] {
      var front := nodes[..|nodes| - 1];
      IdsOfIsIds(front, id);
      if i :| 0 <= i < |nodes| && nodes[i].id == id {
        assert i < |front| ==> front[i].id == id;
      }
      if i :| 0 <= i < |front| && front[i].id == id {
        assert nodes[i].id == id;
      }
    }
  }

  /** New node ids differ from each other and from all earlier ones. */
  lemma {:induction false} NewIdsArePairwise(n: nat, nodes: seq<Node>)
    ensures NewIds(n, nodes) <==> forall i, j :: 0 <= i < j < |nodes| && n <= j ==> nodes[i].id != nodes[j].id
  {
    if |nodes| > n {
      var last := |nodes| - 1;
      var front := nodes[..last];
      NewIdsArePairwise(n, front);
      IdsOfIsIds(front, nodes[last].id);
      assert forall i :: 0 <= i < last ==> nodes[i] == front[i];
    }
  }

  lemma NothingNew(nodes: seq<Node>)
    ensures NewIds(|nodes|, nodes)
  {
  }

  /** What was added first is new, and what was added then. */
  lemma {:induction false} NewIdsChain(n: nat, a: seq<Node>, b: seq<Node>)
    requires n <= |a| && a <= b && NewIds(n, a) && NewIds(|a|, b)
    ensures NewIds(n, b)
    decreases |b|
  {
    if |a| < |b| {
      NewIdsChain(n, a, b[..|b| - 1]);
    } else {
      assert a == b;
    }
  }

  function CountKind(nodes: seq<Node>, k: Kind): nat {
    if nodes == [] then 0
    else CountKind(nodes[..|nodes| - 1], k) + (if nodes[|nodes| - 1].kind == k then 1 else 0)
  }

  lemma SessionIdInjective(a: string, b: string)
    ensures SessionId(a) == SessionId(b) ==> a == b
    ensures HubId(a) == HubId(b) ==> a == b
    ensures SessionId(a) != HubId(b)
    ensures OfSessions(SessionId(a)) && OfSessions(HubId(a)) && !OfSessions(KERNEL)
  {
    assert SessionId(a)[6..] == a && SessionId(b)[6..] == b;
    assert HubId(a)[6..] == a && HubId(b)[6..] == b;
    assert SessionId(a)[0] == 'j' && HubId(b)[0] == 's';
  }

  /** Adding one node with a new id. */
  lemma AddNode(nodes: seq<Node>, n: Node)
    requires n.id !in IdsOf(nodes)
    ensures forall k :: NewIds(k, nodes) ==> NewIds(k, nodes + [n])
    ensures IdsOf(nodes + [n]) == IdsOf(nodes) + {n.id}
    ensures forall k :: CountKind(nodes + [n], k) == CountKind(nodes, k) + if n.kind == k then 1 else 0
  {
    assert (nodes + [n])[..|nodes|] == nodes;
  }

  // ---------------------------------------------------------------- sessions and hubs

  /** A graph without session ids does not hold a session's id yet. */
  lemma NothingOfSessions(nodes: seq<Node>)
    requires forall id :: id in IdsOf(nodes) ==> !OfSessions(id)
    ensures forall s :: SessionId(s) !in IdsOf(nodes)
  {
    forall s ensures SessionId(s) !in IdsOf(nodes) {
      SessionIdInjective(s, s);
    }
  }

  /** From index `n` on there are session nodes, and swarm nodes under hub ids. */
  ghost predicate Drawn(n: nat, nodes: seq<Node>) {
    forall i :: n <= i < |nodes| ==> nodes[i].kind == JcodeSession || exists p :: nodes[i] == Node(HubId(p), Swarm)
  }

  method SessionNodes(nodes0: seq<Node>, emitted: set<string>) returns (nodes: seq<Node>)
    requires forall id :: id in IdsOf(nodes0) ==> !OfSessions(id)
    ensures NewIds(|nodes0|, nodes) && nodes0 <= nodes && Drawn(|nodes0|, nodes)
    ensures forall id :: id in IdsOf(nodes) <==> id in IdsOf(nodes0) || exists s :: s in emitted && id == SessionId(s)
    ensures forall s <- emitted :: Node("jcode:" + s, JcodeSession) in nodes
    ensures CountKind(nodes, JcodeSession) == CountKind(nodes0, JcodeSession) + |emitted|
  {
    NothingNew(nodes0);
    hide IdsOf;
    hide NewIds;
    hide CountKind;
    hide OfSessions;
    NothingOfSessions(nodes0);
    nodes := nodes0;
    var order := Listing(emitted);
    for i := 0 to |order|
      invariant NewIds(|nodes0|, nodes) && nodes0 <= nodes && Drawn(|nodes0|, nodes)
      invariant forall id :: id in IdsOf(nodes) <==>
                  id in IdsOf(nodes0) || exists k :: 0 <= k < i && id == SessionId(order[k])
      invariant forall k :: 0 <= k < i ==> Node("jcode:" + order[k], JcodeSession) in nodes
      invariant CountKind(nodes, JcodeSession) == CountKind(nodes0, JcodeSession) + i
    {
      forall k | 0 <= k < i ensures SessionId(order[k]) != SessionId(order[i]) {
        SessionIdInjective(order[k], order[i]);
      }
      AddNode(nodes, Node(SessionId(order[i]), JcodeSession));
      nodes := nodes + [Node(SessionId(order[i]), JcodeSession)];
    }
  }

  /** The emitted sessions that coordinate at least one emitted session. */
  function Coordinators(raw: map<string, Session>, emitted: set<string>): set<string>
    requires emitted <= raw.Keys
  {
    set s | s in emitted && raw[s].parent.Some? && raw[s].parent.value in emitted :: raw[s].parent.value
  }

  predicate IsSpawn(raw: map<string, Session>, emitted: set<string>, s: string, e: Edge)
    requires emitted <= raw.Keys
  {
    && s in emitted && raw[s].parent.Some? && raw[s].parent.value in emitted && raw[s].parent.value != s
    && e == Edge(SessionId(raw[s].parent.value), SessionId(s), Spawns)
  }

  predicate IsHost(raw: map<string, Session>, emitted: set<string>, s: string, e: Edge)
    requires emitted <= raw.Keys
  {
    && s in emitted && raw[s].parent.Some? && raw[s].parent.value in emitted
    && e == Edge(HubId(raw[s].parent.value), SessionId(s), Hosts)
  }

  predicate IsHub(raw: map<string, Session>, emitted: set<string>, p: string, e: Edge)
    requires emitted <= raw.Keys
  {
    p in Coordinators(raw, emitted) && e == Edge(HubId(p), SessionId(p), Coordinates)
  }

  predicate IsWork(raw: map<string, Session>, emitted: set<string>, s: string, e: Edge)
    requires emitted <= raw.Keys
  {
    s in emitted && raw[s].inRepo && e == Edge(SessionId(s), KERNEL, WorksOn)
  }

  /** The edges of a session graph: one spawns edge per distinct parent link, one hub per coordinator that
      hosts each of its emitted children, and works-on edges into the kernel; nothing else. */
  ghost predicate IsEdge(raw: map<string, Session>, emitted: set<string>, e: Edge)
    requires emitted <= raw.Keys
  {
    exists s :: IsSpawn(raw, emitted, s, e) || IsHost(raw, emitted, s, e) || IsHub(raw, emitted, s, e)
        || IsWork(raw, emitted, s, e)
  }

  lemma IdsTellApart()
    ensures forall x, y :: SessionId(x) == SessionId(y) ==> x == y
    ensures forall x, y :: HubId(x) == HubId(y) ==> x == y
  {
    forall x, y ensures SessionId(x) == SessionId(y) ==> x == y ensures HubId(x) == HubId(y) ==> x == y {
      SessionIdInjective(x, y);
    }
  }

  /** Exactly from an emitted parent to another emitted child of its. */
  lemma SpawnsIff(raw: map<string, Session>, emitted: set<string>, a: string, b: string)
    requires emitted <= raw.Keys
    ensures IsEdge(raw, emitted, Edge("jcode:" + a, "jcode:" + b, Spawns)) <==>
            a in emitted && b in emitted && a != b && raw[b].parent == Some(a)
  {
    IdsTellApart();
    var e := Edge(SessionId(a), SessionId(b), Spawns);
    assert e == Edge("jcode:" + a, "jcode:" + b, Spawns);
    hide SessionId;
    hide HubId;
    if a in emitted && b in emitted && a != b && raw[b].parent == Some(a) {
      assert IsSpawn(raw, emitted, b, e);
    }
  }

  /** Exactly from the hub of an emitted parent to an emitted child. */
  lemma HostsIff(raw: map<string, Session>, emitted: set<string>, a: string, b: string)
    requires emitted <= raw.Keys
    ensures IsEdge(raw, emitted, Edge("swarm:" + a, "jcode:" + b, Hosts)) <==>
            a in emitted && b in emitted && raw[b].parent == Some(a)
  {
    IdsTellApart();
    var e := Edge(HubId(a), SessionId(b), Hosts);
    assert e == Edge("swarm:" + a, "jcode:" + b, Hosts);
    hide SessionId;
    hide HubId;
    if a in emitted && b in emitted && raw[b].parent == Some(a) {
      assert IsHost(raw, emitted, b, e);
    }
  }

  /** Exactly from the hub of an emitted session with an emitted child to that session. */
  lemma CoordinatesIff(raw: map<string, Session>, emitted: set<string>, a: string, b: string)
    requires emitted <= raw.Keys
    ensures IsEdge(raw, emitted, Edge("swarm:" + a, "jcode:" + b, Coordinates)) <==>
            a == b && a in emitted && exists c :: c in emitted && raw[c].parent == Some(a)
  {
    IdsTellApart();
    var e := Edge(HubId(a), SessionId(b), Coordinates);
    assert e == Edge("swarm:" + a, "jcode:" + b, Coordinates);
    hide SessionId;
    hide HubId;
    if a == b && a in emitted && exists c :: c in emitted && raw[c].parent == Some(a) {
      assert IsHub(raw, emitted, a, e);
    }
  }

  /** Exactly from an emitted session inside the repository to the kernel. */
  lemma WorksOnIff(raw: map<string, Session>, emitted: set<string>, a: string)
    requires emitted <= raw.Keys
    ensures IsEdge(raw, emitted, Edge("jcode:" + a, "kernel", WorksOn)) <==> a in emitted && raw[a].inRepo
  {
    IdsTellApart();
    var e := Edge(SessionId(a), KERNEL, WorksOn);
    assert e == Edge("jcode:" + a, "kernel", WorksOn);
    hide SessionId;
    hide HubId;
    if a in emitted && raw[a].inRepo {
      assert IsWork(raw, emitted, a, e);
    }
  }

  /** Every edge joins nodes of these forms. */
  lemma EdgeForms(raw: map<string, Session>, emitted: set<string>, e: Edge)
    requires emitted <= raw.Keys && IsEdge(raw, emitted, e)
    ensures match e.rel
            case Spawns => "jcode:" <= e.src && "jcode:" <= e.dst
            case Hosts => "swarm:" <= e.src && "jcode:" <= e.dst
            case Coordinates => "swarm:" <= e.src && "jcode:" <= e.dst
            case WorksOn => "jcode:" <= e.src && e.dst == "kernel"
  {
  }

  lemma NewSessionId(order: seq<string>, i: nat)
    requires Distinct(order) && i < |order|
    ensures forall k :: 0 <= k < i ==> SessionId(order[k]) != SessionId(order[i])
  {
    forall k | 0 <= k < i ensures SessionId(order[k]) != SessionId(order[i]) {
      SessionIdInjective(order[k], order[i]);
    }
  }

  method SpawnEdges(raw: map<string, Session>, emitted: set<string>) returns (edges: seq<Edge>)
    requires emitted <= raw.Keys
    ensures forall e :: e in edges <==> exists s :: IsSpawn(raw, emitted, s, e)
    ensures Distinct(edges)
  {
    edges := [];
    var order := Listing(emitted);
    for i := 0 to |order|
      invariant forall e :: e in edges <==> exists k :: 0 <= k < i && IsSpawn(raw, emitted, order[k], e)
      invariant Distinct(edges)
    {
      NewSessionId(order, i);
      var pid := raw[order[i]].parent;
      if pid.Some? && pid.value in emitted && pid.value != order[i] {
        var e := Edge(SessionId(pid.value), SessionId(order[i]), Spawns);
        assert forall k :: 0 <= k < i ==> !IsSpawn(raw, emitted, order[k], e);
        DistinctSnoc(edges, e);
        edges := edges + [e];
      }
    }
    forall e, s | IsSpawn(raw, emitted, s, e) ensures e in edges {
      var k :| 0 <= k < |order| && order[k] == s;
    }
  }

  method WorkEdges(raw: map<string, Session>, emitted: set<string>) returns (edges: seq<Edge>)
    requires emitted <= raw.Keys
    ensures forall e :: e in edges <==> exists s :: IsWork(raw, emitted, s, e)
    ensures Distinct(edges)
  {
    edges := [];
    var order := Listing(emitted);
    for i := 0 to |order|
      invariant forall e :: e in edges <==> exists k :: 0 <= k < i && IsWork(raw, emitted, order[k], e)
      invariant Distinct(edges)
    {
      NewSessionId(order, i);
      if raw[order[i]].inRepo {
        var e := Edge(SessionId(order[i]), KERNEL, WorksOn);
        assert forall k :: 0 <= k < i ==> !IsWork(raw, emitted, order[k], e);
        DistinctSnoc(edges, e);
        edges := edges + [e];
      }
    }
    forall e, s | IsWork(raw, emitted, s, e) ensures e in edges {
      var k :| 0 <= k < |order| && order[k] == s;
    }
  }

  /** The hosts edges of one hub. */
  method HostEdges(raw: map<string, Session>, emitted: set<string>, pid: string) returns (edges: seq<Edge>)
    requires emitted <= raw.Keys && pid in emitted
    ensures forall e :: e in edges <==> exists s :: IsHost(raw, emitted, s, e) && raw[s].parent == Some(pid)
    ensures Distinct(edges)
  {
    edges := [];
    var subs := Listing(set s | s in emitted && raw[s].parent == Some(pid));
    for i := 0 to |subs|
      invariant forall e :: e in edges <==> exists k :: 0 <= k < i && IsHost(raw, emitted, subs[k], e)
      invariant Distinct(edges)
    {
      NewSessionId(subs, i);
      assert subs[i] in subs;
      var e := Edge(HubId(pid), SessionId(subs[i]), Hosts);
      assert forall k :: 0 <= k < i ==> !IsHost(raw, emitted, subs[k], e);
      DistinctSnoc(edges, e);
      edges := edges + [e];
    }
    assert forall k :: 0 <= k < |subs| ==> subs[k] in subs;
    forall e, s | IsHost(raw, emitted, s, e) && raw[s].parent == Some(pid) ensures e in edges {
      assert s in subs;
      var k :| 0 <= k < |subs| && subs[k] == s;
    }
  }

  /** One hub node per listed coordinator. */
  method HubNodes(nodes0: seq<Node>, pids: seq<string>) returns (nodes: seq<Node>)
    requires forall p :: p in pids ==> HubId(p) !in IdsOf(nodes0)
    requires forall i, j :: 0 <= i < j < |pids| ==> pids[i] != pids[j]
    ensures NewIds(|nodes0|, nodes) && nodes0 <= nodes && Drawn(|nodes0|, nodes)
    ensures forall id :: id in IdsOf(nodes) <==>
              id in IdsOf(nodes0) || exists k :: 0 <= k < |pids| && id == HubId(pids[k])
    ensures forall p <- pids :: Node("swarm:" + p, Swarm) in nodes
    ensures CountKind(nodes, JcodeSession) == CountKind(nodes0, JcodeSession)
  {
    NothingNew(nodes0);
    hide IdsOf;
    hide NewIds;
    hide CountKind;
    nodes := nodes0;
    for i := 0 to |pids|
      invariant NewIds(|nodes0|, nodes) && nodes0 <= nodes && Drawn(|nodes0|, nodes)
      invariant forall id :: id in IdsOf(nodes) <==>
                  id in IdsOf(nodes0) || exists k :: 0 <= k < i && id == HubId(pids[k])
      invariant forall k :: 0 <= k < i ==> Node("swarm:" + pids[k], Swarm) in nodes
      invariant CountKind(nodes, JcodeSession) == CountKind(nodes0, JcodeSession)
    {
      assert pids[i] in pids;
      forall k | 0 <= k < i ensures HubId(pids[k]) != HubId(pids[i]) {
        SessionIdInjective(pids[k], pids[i]);
      }
      AddNode(nodes, Node(HubId(pids[i]), Swarm));
      nodes := nodes + [Node(HubId(pids[i]), Swarm)];
    }
  }

  /** Each listed hub is linked to its coordinator and to each of its emitted children. */
  method HubEdges(raw: map<string, Session>, emitted: set<string>, pids: seq<string>) returns (edges: seq<Edge>)
    requires emitted <= raw.Keys && forall p :: p in pids <==> p in Coordinators(raw, emitted)
    requires Distinct(pids)
    ensures forall e :: e in edges <==> exists s :: IsHub(raw, emitted, s, e) || IsHost(raw, emitted, s, e)
    ensures Distinct(edges)
  {
    edges := [];
    for i := 0 to |pids|
      invariant forall e :: e in edges <==> OfHubs(raw, emitted, pids[..i], e)
      invariant Distinct(edges)
    {
      assert pids[i] in pids;
      var hosts := HostEdges(raw, emitted, pids[i]);
      HubIsNew(raw, emitted, pids, i, edges, hosts);
      HubGrows(raw, emitted, pids, i, edges, hosts);
      edges := edges + [Edge(HubId(pids[i]), SessionId(pids[i]), Coordinates)] + hosts;
    }
    assert pids[..|pids|] == pids;
  }

  /** An edge of one of the listed hubs. */
  ghost predicate OfHubs(raw: map<string, Session>, emitted: set<string>, pids: seq<string>, e: Edge)
    requires emitted <= raw.Keys
  {
    exists s :: (IsHub(raw, emitted, s, e) && s in pids) || (IsHost(raw, emitted, s, e) && raw[s].parent.value in pids)
  }

  /** A hub's edges all start at the hub, so those of another hub are others. */
  lemma HubIsNew(raw: map<string, Session>, emitted: set<string>, pids: seq<string>, i: nat, before: seq<Edge>,
                 hosts: seq<Edge>)
    requires emitted <= raw.Keys && i < |pids| && Distinct(pids) && Distinct(before) && Distinct(hosts)
    requires forall e :: e in before <==> OfHubs(raw, emitted, pids[..i], e)
    requires forall e :: e in hosts <==> exists s :: IsHost(raw, emitted, s, e) && raw[s].parent == Some(pids[i])
    ensures Distinct(before + [Edge(HubId(pids[i]), SessionId(pids[i]), Coordinates)] + hosts)
  {
    forall e | e in before ensures e.src != HubId(pids[i]) {
      var s :| (IsHub(raw, emitted, s, e) && s in pids[..i])
          || (IsHost(raw, emitted, s, e) && raw[s].parent.value in pids[..i]);
      var k :| 0 <= k < i && e.src == HubId(pids[..i][k]);
      SessionIdInjective(pids[k], pids[i]);
    }
    assert forall e :: e in hosts ==> e.src == HubId(pids[i]) && e.rel == Hosts;
    var hub := Edge(HubId(pids[i]), SessionId(pids[i]), Coordinates);
    DistinctSnoc(before, hub);
    forall e <- before + [hub] ensures e !in hosts {
      assert e in before || e == hub;
    }
    DistinctSum(before + [hub], hosts);
  }

  lemma HubGrows(raw: map<string, Session>, emitted: set<string>, pids: seq<string>, i: nat, before: seq<Edge>,
                 hosts: seq<Edge>)
    requires emitted <= raw.Keys && i < |pids| && pids[i] in Coordinators(raw, emitted)
    requires forall e :: e in before <==> OfHubs(raw, emitted, pids[..i], e)
    requires forall e :: e in hosts <==> exists s :: IsHost(raw, emitted, s, e) && raw[s].parent == Some(pids[i])
    ensures var after := before + [Edge(HubId(pids[i]), SessionId(pids[i]), Coordinates)] + hosts;
            forall e :: e in after <==> OfHubs(raw, emitted, pids[..i + 1], e)
  {
    var hub := Edge(HubId(pids[i]), SessionId(pids[i]), Coordinates);
    var after := before + [hub] + hosts;
    assert pids[..i + 1] == pids[..i] + [pids[i]];
    forall e ensures e in after <==> OfHubs(raw, emitted, pids[..i + 1], e) {
      assert e in after <==> e in before || e == hub || e in hosts;
      if e == hub {
        assert IsHub(raw, emitted, pids[i], e);
      }
    }
  }

  // ---------------------------------------------------------------- shadowed and malformed files

  /** The first free one of jcode:<stem>, jcode:<stem>#2, jcode:<stem>#3, ... */
  predicate ShadowName(taken: set<string>, stem: string, id: string) {
    if SessionId(stem) !in taken then id == SessionId(stem)
    else exists k: nat :: 2 <= k <= 2 + |taken| && id == Numbered(SessionId(stem) + "#", k) && id !in taken
           && forall j :: 2 <= j < k ==> Numbered(SessionId(stem) + "#", j) in taken
  }

  /** The first free one of jcode:<stem>, -malformed, -malformed2, -malformed3, ... */
  predicate MalformedName(taken: set<string>, stem: string, id: string) {
    if SessionId(stem) !in taken then id == SessionId(stem)
    else if SessionId(stem) + "-malformed" !in taken then id == SessionId(stem) + "-malformed"
    else exists k: nat :: 2 <= k <= 2 + |taken| && id == Numbered(SessionId(stem) + "-malformed", k) && id !in taken
           && forall j :: 2 <= j < k ==> Numbered(SessionId(stem) + "-malformed", j) in taken
  }

  /** A shadow's name is free: its stem's own, or the first free one of those numbered from two on. */
  lemma ShadowNameMeans(taken: set<string>, stem: string, id: string)
    requires ShadowName(taken, stem, id)
    ensures id !in taken
    ensures if "jcode:" + stem !in taken then id == "jcode:" + stem
            else exists k: nat :: k >= 2 && id == "jcode:" + stem + "#" + Decimal(k)
                   && forall j :: 2 <= j < k ==> "jcode:" + stem + "#" + Decimal(j) in taken
  {
    hide Decimal;
    assert SessionId(stem) == "jcode:" + stem;
    if "jcode:" + stem in taken {
      var k: nat :| 2 <= k && id == Numbered(SessionId(stem) + "#", k) && id !in taken
          && forall j :: 2 <= j < k ==> Numbered(SessionId(stem) + "#", j) in taken;
      forall j | 2 <= j < k ensures "jcode:" + stem + "#" + Decimal(j) in taken {
        assert Numbered(SessionId(stem) + "#", j) in taken;
      }
    }
  }

  /** A malformed file's name is free: its stem's own, that with -malformed, or the first free one numbered from two
      on. */
  lemma MalformedNameMeans(taken: set<string>, stem: string, id: string)
    requires MalformedName(taken, stem, id)
    ensures id !in taken
    ensures if "jcode:" + stem !in taken then id == "jcode:" + stem
            else if "jcode:" + stem + "-malformed" !in taken then id == "jcode:" + stem + "-malformed"
            else exists k: nat :: k >= 2 && id == "jcode:" + stem + "-malformed" + Decimal(k)
                   && forall j :: 2 <= j < k ==> "jcode:" + stem + "-malformed" + Decimal(j) in taken
  {
    hide Decimal;
    assert SessionId(stem) == "jcode:" + stem;
    if "jcode:" + stem in taken && "jcode:" + stem + "-malformed" in taken {
      var k: nat :| 2 <= k && id == Numbered(SessionId(stem) + "-malformed", k) && id !in taken
          && forall j :: 2 <= j < k ==> Numbered(SessionId(stem) + "-malformed", j) in taken;
      forall j | 2 <= j < k ensures "jcode:" + stem + "-malformed" + Decimal(j) in taken {
        assert Numbered(SessionId(stem) + "-malformed", j) in taken;
      }
    }
  }

  /** One session node per shadowed file, each with the first free name when its turn comes. */
  ghost predicate ShadowsNamed(nodes0: seq<Node>, nodes: seq<Node>, shadowed: seq<Shadow>) {
    if shadowed == [] then nodes == nodes0
    else
      nodes != [] && ShadowsNamed(nodes0, nodes[..|nodes| - 1], shadowed[..|shadowed| - 1])
      && nodes[|nodes| - 1].kind == JcodeSession
      && ShadowName(IdsOf(nodes[..|nodes| - 1]), shadowed[|shadowed| - 1].stem, nodes[|nodes| - 1].id)
  }

  ghost predicate MalformedNamed(nodes0: seq<Node>, nodes: seq<Node>, malformed: seq<string>) {
    if malformed == [] then nodes == nodes0
    else
      nodes != [] && MalformedNamed(nodes0, nodes[..|nodes| - 1], malformed[..|malformed| - 1])
      && nodes[|nodes| - 1].kind == JcodeSession
      && MalformedName(IdsOf(nodes[..|nodes| - 1]), malformed[|malformed| - 1], nodes[|nodes| - 1].id)
  }

  method FreshShadowName(stem: string, seen: set<string>) returns (nid: string)
    ensures ShadowName(seen, stem, nid) && nid !in seen
  {
    nid := SessionId(stem);
    if nid in seen {
      var k := FreeNumber(nid + "#", 2, seen);
      nid := Numbered(nid + "#", k);
    }
  }

  method FreshMalformedName(stem: string, seen: set<string>) returns (nid: string)
    ensures MalformedName(seen, stem, nid) && nid !in seen
  {
    nid := SessionId(stem);
    if nid in seen {
      nid := nid + "-malformed";
      if nid in seen {
        var k := FreeNumber(nid, 2, seen);
        nid := Numbered(nid, k);
      }
    }
  }

  method ShadowNodes(nodes0: seq<Node>, shadowed: seq<Shadow>) returns (nodes: seq<Node>)
    ensures NewIds(|nodes0|, nodes) && nodes0 <= nodes && ShadowsNamed(nodes0, nodes, shadowed)
    ensures CountKind(nodes, JcodeSession) == CountKind(nodes0, JcodeSession) + |shadowed|
  {
    NothingNew(nodes0);
    hide IdsOf;
    hide NewIds;
    hide CountKind;
    hide ShadowName;
    nodes := nodes0;
    for i := 0 to |shadowed|
      invariant NewIds(|nodes0|, nodes) && nodes0 <= nodes && ShadowsNamed(nodes0, nodes, shadowed[..i])
      invariant CountKind(nodes, JcodeSession) == CountKind(nodes0, JcodeSession) + i
    {
      var nid := FreshShadowName(shadowed[i].stem, IdsOf(nodes));
      ghost var before := nodes;
      AddNode(nodes, Node(nid, JcodeSession));
      nodes := nodes + [Node(nid, JcodeSession)];
      assert nodes[..|nodes| - 1] == before && shadowed[..i + 1][..i] == shadowed[..i];
    }
    assert shadowed[..|shadowed|] == shadowed;
  }

  method MalformedNodes(nodes0: seq<Node>, malformed: seq<string>) returns (nodes: seq<Node>)
    ensures NewIds(|nodes0|, nodes) && nodes0 <= nodes && MalformedNamed(nodes0, nodes, malformed)
    ensures CountKind(nodes, JcodeSession) == CountKind(nodes0, JcodeSession) + |malformed|
  {
    NothingNew(nodes0);
    hide IdsOf;
    hide NewIds;
    hide CountKind;
    hide MalformedName;
    nodes := nodes0;
    for i := 0 to |malformed|
      invariant NewIds(|nodes0|, nodes) && nodes0 <= nodes && MalformedNamed(nodes0, nodes, malformed[..i])
      invariant CountKind(nodes, JcodeSession) == CountKind(nodes0, JcodeSession) + i
    {
      var nid := FreshMalformedName(malformed[i], IdsOf(nodes));
      ghost var before := nodes;
      AddNode(nodes, Node(nid, JcodeSession));
      nodes := nodes + [Node(nid, JcodeSession)];
      assert nodes[..|nodes| - 1] == before && malformed[..i + 1][..i] == malformed[..i];
    }
    assert malformed[..|malformed|] == malformed;
  }

  // ---------------------------------------------------------------- the whole emission

  /** Python's order of (stem, id) pairs. */
  const SHADOW_ORDER: (Shadow, Shadow) -> bool :=
    (x: Shadow, y: Shadow) => if x.stem == y.stem then Leq(x.id, y.id) else Leq(x.stem, y.stem)

  lemma ShadowOrderIsTotal()
    ensures TotalOrder(SHADOW_ORDER)
  {
    forall x, y ensures SHADOW_ORDER(x, y) || SHADOW_ORDER(y, x) {
      LeqTotal(x.stem, y.stem);
      LeqTotal(x.id, y.id);
    }
    forall x, y, z | SHADOW_ORDER(x, y) && SHADOW_ORDER(y, z) ensures SHADOW_ORDER(x, z) {
      LeqTotal(x.stem, y.stem);
      if x.stem == y.stem == z.stem {
        LeqTransitive(x.id, y.id, z.id);
      } else if x.stem != y.stem && y.stem != z.stem {
        LeqTransitive(x.stem, y.stem, z.stem);
      }
    }
  }

  /** The files drawn under names of their own, in the order in which they are named. */
  function ShadowsInTurn(r: Reading): seq<Shadow> { SortBy(r.shadowed, SHADOW_ORDER) }

  function MalformedInTurn(r: Reading): seq<string> { SortBy(r.malformed, TEXT_ORDER) }

  lemma TurnsPermute(r: Reading)
    ensures Ordered(ShadowsInTurn(r), SHADOW_ORDER) && multiset(ShadowsInTurn(r)) == multiset(r.shadowed)
    ensures Ordered(MalformedInTurn(r), TEXT_ORDER) && multiset(MalformedInTurn(r)) == multiset(r.malformed)
    ensures |ShadowsInTurn(r)| == |r.shadowed| && |MalformedInTurn(r)| == |r.malformed|
  {
    hide TotalOrder;
    ShadowOrderIsTotal();
    TextOrderIsTotal();
    SortByOrders(r.shadowed, SHADOW_ORDER);
    SortByOrders(r.malformed, TEXT_ORDER);
    assert |multiset(ShadowsInTurn(r))| == |multiset(r.shadowed)|;
    assert |multiset(MalformedInTurn(r))| == |multiset(r.malformed)|;
  }

  lemma StillIn(a: seq<Node>, b: seq<Node>)
    requires a <= b
    ensures forall n <- a :: n in b
  {
    forall n <- a ensures n in b {
      var i :| 0 <= i < |a| && a[i] == n;
      assert b[i] == n;
    }
  }

  /** The nodes of the emitted sessions and of their hubs. */
  method LiveNodes(nodes0: seq<Node>, raw: map<string, Session>, emitted: set<string>)
    returns (nodes: seq<Node>, pids: seq<string>)
    requires forall id :: id in IdsOf(nodes0) ==> !OfSessions(id)
    requires emitted <= raw.Keys
    ensures NewIds(|nodes0|, nodes) && nodes0 <= nodes && Drawn(|nodes0|, nodes)
    ensures (forall p :: p in pids <==> p in Coordinators(raw, emitted)) && Distinct(pids)
    ensures forall s :: s in emitted ==> SessionId(s) in IdsOf(nodes)
    ensures forall p :: p in Coordinators(raw, emitted) ==> HubId(p) in IdsOf(nodes)
    ensures forall s <- emitted :: Node("jcode:" + s, JcodeSession) in nodes
    ensures forall p <- Coordinators(raw, emitted) :: Node("swarm:" + p, Swarm) in nodes
    ensures CountKind(nodes, JcodeSession) == CountKind(nodes0, JcodeSession) + |emitted|
  {
    nodes := SessionNodes(nodes0, emitted);
    pids := Listing(Coordinators(raw, emitted));
    forall p | p in pids ensures HubId(p) !in IdsOf(nodes) {
      SessionIdInjective(p, p);
      forall s | s in emitted ensures SessionId(s) != HubId(p) {
        SessionIdInjective(s, p);
      }
    }
    var sessions := nodes;
    nodes := HubNodes(sessions, pids);
    StillIn(sessions, nodes);
    NewIdsChain(|nodes0|, sessions, nodes);
  }

  method LiveEdges(raw: map<string, Session>, emitted: set<string>, pids: seq<string>) returns (edges: seq<Edge>)
    requires emitted <= raw.Keys && forall p :: p in pids <==> p in Coordinators(raw, emitted)
    requires Distinct(pids)
    ensures forall e :: e in edges <==> IsEdge(raw, emitted, e)
    ensures Distinct(edges)
  {
    var spawns := SpawnEdges(raw, emitted);
    var hubs := HubEdges(raw, emitted, pids);
    var works := WorkEdges(raw, emitted);
    edges := spawns + hubs + works;
    assert forall e :: e in spawns ==> e.rel == Spawns;
    assert forall e :: e in hubs ==> e.rel == Coordinates || e.rel == Hosts;
    assert forall e :: e in works ==> e.rel == WorksOn;
    DistinctSum(spawns, hubs);
    assert forall e :: e in spawns + hubs ==> e in spawns || e in hubs;
    DistinctSum(spawns + hubs, works);
    assert forall e :: e in edges <==> e in spawns || e in hubs || e in works;
  }

  /** `nodes` is what was there, then the live nodes, then the shadows' and then the malformed files' nodes. */
  ghost predicate Emitted(nodes0: seq<Node>, live: seq<Node>, named: seq<Node>, nodes: seq<Node>, reading: Reading,
                          emitted: set<string>) {
    && nodes0 <= live && Drawn(|nodes0|, live) && (forall s :: s in emitted ==> SessionId(s) in IdsOf(live))
    && live <= named && ShadowsNamed(live, named, ShadowsInTurn(reading))
    && named <= nodes && MalformedNamed(named, nodes, MalformedInTurn(reading))
  }

  /** _emit_sessions: `nodes0` is the graph built so far. */
  method EmitSessions(nodes0: seq<Node>, reading: Reading, allSessions: bool)
    returns (nodes: seq<Node>, edges: seq<Edge>, emitted: set<string>)
    requires forall id :: id in IdsOf(nodes0) ==> !OfSessions(id)
    ensures emitted <= reading.raw.Keys
    ensures allSessions ==> emitted == reading.raw.Keys
    ensures !allSessions ==> Holds(reading.raw, emitted) && forall s :: Holds(reading.raw, s) ==> emitted <= s
    ensures NewIds(|nodes0|, nodes) && nodes0 <= nodes
    ensures exists live, named :: Emitted(nodes0, live, named, nodes, reading, emitted)
    ensures forall s :: s in emitted ==> SessionId(s) in IdsOf(nodes)
    ensures forall p :: p in Coordinators(reading.raw, emitted) ==> HubId(p) in IdsOf(nodes)
    ensures forall s <- emitted :: Node("jcode:" + s, JcodeSession) in nodes
    ensures forall p <- Coordinators(reading.raw, emitted) :: Node("swarm:" + p, Swarm) in nodes
    ensures CountKind(nodes, JcodeSession) ==
            CountKind(nodes0, JcodeSession) + |emitted| + |reading.shadowed| + |reading.malformed|
    ensures (forall e :: e in edges <==> IsEdge(reading.raw, emitted, e)) && Distinct(edges)
  {
    hide OfSessions;
    hide NewIds;
    hide CountKind;
    hide IdsOf;
    hide ShadowsNamed;
    hide MalformedNamed;
    hide Drawn;
    if allSessions {
      emitted := reading.raw.Keys;
    } else {
      emitted := EmittedByDefault(reading.raw);
    }
    var live, pids := LiveNodes(nodes0, reading.raw, emitted);
    edges := LiveEdges(reading.raw, emitted, pids);
    TurnsPermute(reading);
    hide ShadowsInTurn;
    hide MalformedInTurn;
    hide Ordered;
    var named := ShadowNodes(live, ShadowsInTurn(reading));
    nodes := MalformedNodes(named, MalformedInTurn(reading));
    IdsGrow(live, nodes);
    StillIn(live, nodes);
    hide Coordinators;
    NewIdsChain(|nodes0|, live, named);
    NewIdsChain(|nodes0|, named, nodes);
    assert Emitted(nodes0, live, named, nodes, reading, emitted);
  }

  lemma {:induction false} IdsGrow(a: seq<Node>, b: seq<Node>)
    requires a <= b
    ensures IdsOf(a) <= IdsOf(b)
    decreases |b|
  {
    if |a| < |b| {
      IdsGrow(a, b[..|b| - 1]);
    } else {
      assert a == b;
    }
  }

  /** Every edge has both endpoints among the emitted nodes, and no session spawns itself. */
  lemma EdgesAreAnchored(raw: map<string, Session>, emitted: set<string>, ids: set<string>, e: Edge)
    requires emitted <= raw.Keys && IsEdge(raw, emitted, e) && KERNEL in ids
    requires forall s :: s in emitted ==> SessionId(s) in ids
    requires forall p :: p in Coordinators(raw, emitted) ==> HubId(p) in ids
    ensures e.src in ids && e.dst in ids && (e.rel == Spawns ==> e.src != e.dst)
  {
    var s :| IsSpawn(raw, emitted, s, e) || IsHost(raw, emitted, s, e) || IsHub(raw, emitted, s, e)
        || IsWork(raw, emitted, s, e);
    if raw[s].parent.Some? {
      SessionIdInjective(raw[s].parent.value, s);
    }
  }

  /** With the default filter no swarm group is half drawn: every loaded child of an emitted coordinator is
      emitted and hosted by its hub. */
  lemma EveryChildIsHosted(raw: map<string, Session>, emitted: set<string>, p: string, c: string)
    requires emitted <= raw.Keys && LinkClosed(raw, emitted)
    requires p in emitted && c in raw && raw[c].parent == Some(p)
    ensures c in emitted && IsEdge(raw, emitted, Edge(HubId(p), SessionId(c), Hosts))
    ensures IsEdge(raw, emitted, Edge(HubId(p), SessionId(p), Coordinates))
  {
    assert IsHost(raw, emitted, c, Edge(HubId(p), SessionId(c), Hosts));
    assert IsHub(raw, emitted, p, Edge(HubId(p), SessionId(p), Coordinates));
  }

  /** The index of the last node with an id. */
  function LastIndex(nodes: seq<Node>, id: string): (i: nat)
    requires id in IdsOf(nodes)
    ensures i < |nodes| && nodes[i].id == id
  {
    if nodes[|nodes| - 1].id == id then |nodes| - 1 else LastIndex(nodes[..|nodes| - 1], id)
  }

  /** The turns of the shadowed and of the malformed files. */
  datatype Turns = Turns(shadows: seq<nat>, malformed: seq<nat>)

  ghost predicate TurnsOf(r: Reading, turns: Turns) {
    Places(r.shadowed, ShadowsInTurn(r), turns.shadows) && Places(r.malformed, MalformedInTurn(r), turns.malformed)
  }

  function TurnAt(turns: seq<nat>, k: nat): nat { if k < |turns| then turns[k] else 0 }

  /** The node that stands for a file. */
  ghost function NodeOf(live: seq<Node>, named: seq<Node>, files: seq<File>, turns: Turns, i: nat): nat
    requires i < |files| && (FateOf(files, i).Holder? ==> SessionId(files[i].record.value.id) in IdsOf(live))
  {
    var k := CountFate(files, i, FateOf(files, i));
    match FateOf(files, i)
    case Holder => LastIndex(live, SessionId(files[i].record.value.id))
    case ShadowFile => |live| + TurnAt(turns.shadows, k)
    case MalformedFile => |named| + TurnAt(turns.malformed, k)
  }

  /** The node at `at` is a new session node under the id its file calls for: the id of a holder, the first free
      name for the stem of the others. */
  ghost predicate FileDrawnAt(nodes0: seq<Node>, nodes: seq<Node>, files: seq<File>, i: nat, at: nat)
    requires i < |files|
  {
    && |nodes0| <= at < |nodes| && nodes[at].kind == JcodeSession
    && match FateOf(files, i)
       case Holder => nodes[at].id == SessionId(files[i].record.value.id)
       case ShadowFile => ShadowName(IdsOf(nodes[..at]), ShadowStem(files[i]), nodes[at].id)
       case MalformedFile => MalformedName(IdsOf(nodes[..at]), files[i].stem, nodes[at].id)
  }

  lemma {:induction false} ShadowNamedAt(live: seq<Node>, named: seq<Node>, shadowed: seq<Shadow>, k: nat)
    requires ShadowsNamed(live, named, shadowed) && k < |shadowed|
    ensures |named| == |live| + |shadowed| && named[|live| + k].kind == JcodeSession
    ensures ShadowName(IdsOf(named[..|live| + k]), shadowed[k].stem, named[|live| + k].id)
    decreases |shadowed|
  {
    hide ShadowName;
    var n := |shadowed| - 1;
    if n > 0 {
      ShadowNamedAt(live, named[..|named| - 1], shadowed[..n], if k < n then k else 0);
    } else {
      assert ShadowsNamed(live, named[..|named| - 1], []);
    }
    if k < n {
      assert named[..|named| - 1][..|live| + k] == named[..|live| + k];
    }
  }

  lemma {:induction false} MalformedNamedAt(named: seq<Node>, nodes: seq<Node>, malformed: seq<string>, k: nat)
    requires MalformedNamed(named, nodes, malformed) && k < |malformed|
    ensures |nodes| == |named| + |malformed| && nodes[|named| + k].kind == JcodeSession
    ensures MalformedName(IdsOf(nodes[..|named| + k]), malformed[k], nodes[|named| + k].id)
    decreases |malformed|
  {
    hide MalformedName;
    var n := |malformed| - 1;
    if n > 0 {
      MalformedNamedAt(named, nodes[..|nodes| - 1], malformed[..n], if k < n then k else 0);
    } else {
      assert MalformedNamed(named, nodes[..|nodes| - 1], []);
    }
    if k < n {
      assert nodes[..|nodes| - 1][..|named| + k] == nodes[..|named| + k];
    }
  }

  lemma HolderIsDrawn(nodes0: seq<Node>, live: seq<Node>, id: string)
    requires nodes0 <= live && Drawn(|nodes0|, live) && SessionId(id) in IdsOf(live)
    requires forall x :: x in IdsOf(nodes0) ==> !OfSessions(x)
    ensures |nodes0| <= LastIndex(live, SessionId(id)) < |live|
    ensures live[LastIndex(live, SessionId(id))].kind == JcodeSession
  {
    hide LastIndex;
    var at := LastIndex(live, SessionId(id));
    SessionIdInjective(id, id);
    if at < |nodes0| {
      IdsOfIsIds(nodes0, SessionId(id));
    }
    if p :| live[at] == Node(HubId(p), Swarm) {
      SessionIdInjective(id, p);
    }
  }

  /** The node lies among those of its fate. */
  ghost predicate InPart(live: seq<Node>, named: seq<Node>, files: seq<File>, turns: Turns, i: nat)
    requires i < |files|
  {
    match FateOf(files, i)
    case Holder =>
      SessionId(files[i].record.value.id) in IdsOf(live) && NodeOf(live, named, files, turns, i) < |live|
    case ShadowFile => |live| <= NodeOf(live, named, files, turns, i) < |named|
    case MalformedFile => |named| <= NodeOf(live, named, files, turns, i)
  }

  lemma FileIsDrawn(nodes0: seq<Node>, live: seq<Node>, named: seq<Node>, nodes: seq<Node>, files: seq<File>,
                    turns: Turns, i: nat)
    requires i < |files| && (forall id :: id in IdsOf(nodes0) ==> !OfSessions(id))
    requires Emitted(nodes0, live, named, nodes, ReadingOf(files), ReadingOf(files).raw.Keys)
    requires TurnsOf(ReadingOf(files), turns)
    ensures FateOf(files, i).Holder? ==> SessionId(files[i].record.value.id) in IdsOf(live)
    ensures FileDrawnAt(nodes0, nodes, files, i, NodeOf(live, named, files, turns, i))
    ensures InPart(live, named, files, turns, i)
  {
    hide ReadingOf;
    hide ShadowsNamed;
    hide MalformedNamed;
    hide OfSessions;
    hide LastIndex;
    hide IdsOf;
    hide ShadowName;
    hide MalformedName;
    hide ShadowsInTurn;
    hide MalformedInTurn;
    var r := ReadingOf(files);
    EveryFileOnce(files);
    assert Placed(files, r, i);
    TurnsPermute(r);
    hide Ordered;
    var k := CountFate(files, i, FateOf(files, i));
    match FateOf(files, i)
    case Holder => HolderIsDrawn(nodes0, live, files[i].record.value.id);
    case ShadowFile =>
      var at := turns.shadows[k];
      ShadowNamedAt(live, named, ShadowsInTurn(r), at);
      assert named[..|live| + at] == nodes[..|live| + at];
    case MalformedFile =>
      MalformedNamedAt(named, nodes, MalformedInTurn(r), turns.malformed[k]);
  }

  lemma TurnsDiffer<T>(a: seq<T>, b: seq<T>, turns: seq<nat>, k: nat, l: nat)
    requires Places(a, b, turns) && k < l < |a|
    ensures TurnAt(turns, k) != TurnAt(turns, l)
  {
  }

  lemma NodesDiffer(live: seq<Node>, named: seq<Node>, files: seq<File>, turns: Turns, i: nat, j: nat)
    requires i < j < |files| && |live| <= |named| && TurnsOf(ReadingOf(files), turns)
    requires InPart(live, named, files, turns, i) && InPart(live, named, files, turns, j)
    ensures FateOf(files, i).Holder? ==> SessionId(files[i].record.value.id) in IdsOf(live)
    ensures FateOf(files, j).Holder? ==> SessionId(files[j].record.value.id) in IdsOf(live)
    ensures NodeOf(live, named, files, turns, i) != NodeOf(live, named, files, turns, j)
  {
    hide CountFate;
    hide TurnAt;
    hide ReadingOf;
    hide Places;
    hide ShadowsInTurn;
    hide MalformedInTurn;
    hide IdsOf;
    if FateOf(files, i) == FateOf(files, j) {
      if FateOf(files, i).Holder? {
        SessionIdInjective(files[i].record.value.id, files[j].record.value.id);
        assert HasId(files[i], files[i].record.value.id);
      } else {
        PlacesDiffer(files, i, j, FateOf(files, i));
        EveryFileOnce(files);
        var r, k, l := ReadingOf(files), CountFate(files, i, FateOf(files, i)), CountFate(files, j, FateOf(files, j));
        assert Placed(files, r, i) && Placed(files, r, j);
        if FateOf(files, i).ShadowFile? {
          TurnsDiffer(r.shadowed, ShadowsInTurn(r), turns.shadows, k, l);
        } else {
          TurnsDiffer(r.malformed, MalformedInTurn(r), turns.malformed, k, l);
        }
      }
    }
  }

  /** `at` gives every file a node of its own. */
  ghost predicate FilesDrawn(nodes0: seq<Node>, nodes: seq<Node>, files: seq<File>, at: seq<nat>) {
    && |at| == |files| && (forall i :: 0 <= i < |files| ==> FileDrawnAt(nodes0, nodes, files, i, at[i]))
    && forall i, j :: 0 <= i < j < |files| ==> at[i] != at[j]
  }

  lemma EmittedGrows(nodes0: seq<Node>, live: seq<Node>, named: seq<Node>, nodes: seq<Node>, r: Reading)
    requires Emitted(nodes0, live, named, nodes, r, r.raw.Keys)
    ensures |nodes0| <= |live| <= |named| <= |nodes|
  {
  }

  lemma AllFilesDrawn(nodes0: seq<Node>, live: seq<Node>, named: seq<Node>, nodes: seq<Node>, files: seq<File>)
    requires forall id :: id in IdsOf(nodes0) ==> !OfSessions(id)
    requires Emitted(nodes0, live, named, nodes, ReadingOf(files), ReadingOf(files).raw.Keys)
    ensures exists at :: FilesDrawn(nodes0, nodes, files, at)
  {
    hide Emitted;
    hide FileDrawnAt;
    hide ShadowsInTurn;
    hide MalformedInTurn;
    var r := ReadingOf(files);
    TurnsPermute(r);
    var shadows := PermutationPlaces(r.shadowed, ShadowsInTurn(r));
    var malformed := PermutationPlaces(r.malformed, MalformedInTurn(r));
    var turns := Turns(shadows, malformed);
    assert TurnsOf(r, turns);
    hide TurnsOf;
    hide Ordered;
    hide Places;
    forall i: nat | i < |files|
      ensures FateOf(files, i).Holder? ==> SessionId(files[i].record.value.id) in IdsOf(live)
      ensures FileDrawnAt(nodes0, nodes, files, i, NodeOf(live, named, files, turns, i))
    {
      FileIsDrawn(nodes0, live, named, nodes, files, turns, i);
    }
    assert |live| <= |named| by {
      EmittedGrows(nodes0, live, named, nodes, r);
    }
    hide FateOf;
    hide NodeOf;
    hide InPart;
    var at := seq(|files|, i requires 0 <= i < |files| => NodeOf(live, named, files, turns, i));
    forall i, j | 0 <= i < j < |files| ensures at[i] != at[j] {
      FileIsDrawn(nodes0, live, named, nodes, files, turns, i);
      FileIsDrawn(nodes0, live, named, nodes, files, turns, j);
      NodesDiffer(live, named, files, turns, i, j);
    }
    assert FilesDrawn(nodes0, nodes, files, at);
  }

  /** With all_sessions set, every session file has one session node of its own, and there are no others. */
  method AllSessionsDraw(nodes0: seq<Node>, files: seq<File>) returns (nodes: seq<Node>, edges: seq<Edge>)
    requires KERNEL in IdsOf(nodes0) && forall id :: id in IdsOf(nodes0) ==> !OfSessions(id)
    ensures NewIds(|nodes0|, nodes) && nodes0 <= nodes
    ensures exists at :: FilesDrawn(nodes0, nodes, files, at)
    ensures CountKind(nodes, JcodeSession) == CountKind(nodes0, JcodeSession) + |files|
    ensures forall e :: e in edges ==>
              e.src in IdsOf(nodes) && e.dst in IdsOf(nodes) && (e.rel == Spawns ==> e.src != e.dst)
  {
    hide NewIds;
    hide CountKind;
    hide IdsOf;
    hide OfSessions;
    hide Emitted;
    hide FilesDrawn;
    var reading := ReadSessions(files);
    EveryFileOnce(files);
    var emitted;
    nodes, edges, emitted := EmitSessions(nodes0, reading, true);
    ghost var live, named :| Emitted(nodes0, live, named, nodes, reading, emitted);
    AllFilesDrawn(nodes0, live, named, nodes, files);
    IdsGrow(nodes0, nodes);
    forall e | e in edges
      ensures e.src in IdsOf(nodes) && e.dst in IdsOf(nodes) && (e.rel == Spawns ==> e.src != e.dst)
    {
      EdgesAreAnchored(reading.raw, emitted, IdsOf(nodes), e);
    }
  }
}
