/** The cluster state as the program keeps it: an object whose methods update node records in place. */
module ClusterMap {
  import opened Strconv
  import opened GossipState
  import opened ClusterIndex

  // ---------- Sums over maps, whatever the order ----------

  ghost function Sum(m: map<string, int>, ks: set<string>): int
    requires ks <= m.Keys
  {
    if ks == {} then 0 else var k :| k in ks; m[k] + Sum(m, ks - {k})
  }

  lemma {:induction false} SumRemove(m: map<string, int>, ks: set<string>, k: string)
    requires ks <= m.Keys && k in ks
    ensures Sum(m, ks) == m[k] + Sum(m, ks - {k})
    decreases |ks|
  {
    var j :| j in ks && Sum(m, ks) == m[j] + Sum(m, ks - {j});
    if j != k {
      SumRemove(m, ks - {j}, k);
      SumRemove(m, ks - {k}, j);
      assert ks - {j} - {k} == ks - {k} - {j};
    }
  }

  /** The keys visited so far. */
  ghost function Seen(ks: seq<string>, i: nat): set<string>
    requires i <= |ks|
  {
    set k | k in ks[..i]
  }

  lemma SeenStep(ks: seq<string>, i: nat, s: set<string>)
    requires Enumerates(ks, s) && i < |ks|
    ensures Seen(ks, i + 1) == Seen(ks, i) + {ks[i]} && ks[i] !in Seen(ks, i) && ks[i] in s
  {
    assert ks[..i + 1] == ks[..i] + [ks[i]];
  }

  lemma SeenAll(ks: seq<string>, s: set<string>)
    requires Enumerates(ks, s)
    ensures Seen(ks, |ks|) == s
  {
    assert ks[..|ks|] == ks;
  }

  // ---------- What the reads return ----------

  /** The node would be returned for the endpoint: another node, active, with a listener. */
  predicate Qualifies(nodes: map<string, Node>, localID: string, id: string, endpointID: string) {
    && id in nodes && id != localID && nodes[id].status == Active
    && endpointID in nodes[id].endpoints && nodes[id].endpoints[endpointID] > 0
  }

  ghost function ActiveIDs(nodes: map<string, Node>): set<string> {
    set id | id in nodes && nodes[id].status == Active
  }

  ghost function Conns(nodes: map<string, Node>): map<string, int> {
    map id | id in nodes :: Sum(nodes[id].endpoints, nodes[id].endpoints.Keys)
  }

  /** Go's integer division rounds toward zero. */
  function Quotient(a: int, b: int): int
    requires b > 0
  {
    if a >= 0 then a / b else -((-a) / b)
  }

  lemma QuotientIs(a: int, b: int)
    requires b > 0
    ensures var q := Quotient(a, b);
      if a >= 0 then q * b <= a < (q + 1) * b else (q - 1) * b < a <= q * b
  {
    if a >= 0 {
      assert a == a / b * b + a % b;
    } else {
      assert -a == (-a) / b * b + (-a) % b;
    }
  }

  /** The mean number of connections over the active nodes. */
  ghost function MeanConns(nodes: map<string, Node>): int
    requires ActiveIDs(nodes) != {}
  {
    Quotient(Sum(Conns(nodes), ActiveIDs(nodes)), |ActiveIDs(nodes)|)
  }

  class ClusterMap {
    const localID: string
    var nodes: map<string, Node>

    /** The local node is always known and always active, whatever is called. */
    ghost predicate Valid()
      reads this
    {
      && localID in nodes && nodes[localID].status == Active
      && forall id :: id in nodes ==> nodes[id].id == id
    }

    constructor (local: Node)
      ensures Valid() && localID == local.id && nodes == NewIndex(local).nodes
    {
      localID := local.id;
      nodes := map[local.id := local.(status := Active)];
    }

    method AddLocalEndpoint(endpointID: string)
      requires Valid()
      modifies this
      ensures Valid()
      ensures nodes == old(nodes)[localID := AddListener(old(nodes)[localID], endpointID)]
    {
      var node := nodes[localID];
      var listeners := if endpointID in node.endpoints then node.endpoints[endpointID] else 0;
      nodes := nodes[localID := node.(endpoints := node.endpoints[endpointID := listeners + 1])];
    }

    /** Reports whether subscribers are notified: not when the endpoint has no listeners. */
    method RemoveLocalEndpoint(endpointID: string) returns (notify: bool)
      requires Valid()
      modifies this
      ensures Valid()
      ensures notify == HasListener(old(nodes)[localID], endpointID)
      ensures nodes == old(nodes)[localID := RemoveListener(old(nodes)[localID], endpointID)]
    {
      var node := nodes[localID];
      if endpointID !in node.endpoints || node.endpoints[endpointID] == 0 {
        return false;
      }
      var listeners := node.endpoints[endpointID];
      if listeners > 1 {
        nodes := nodes[localID := node.(endpoints := node.endpoints[endpointID := listeners - 1])];
      } else {
        nodes := nodes[localID := node.(endpoints := node.endpoints - {endpointID})];
      }
      return true;
    }

    method LocalEndpointListeners(endpointID: string) returns (listeners: int)
      requires Valid()
      ensures listeners == Listeners(nodes[localID], endpointID)
    {
      var node := nodes[localID];
      if endpointID in node.endpoints {
        return node.endpoints[endpointID];
      }
      return 0;
    }

    method AddNode(node: Node)
      requires Valid()
      modifies this
      ensures Valid()
      ensures nodes == if node.id == localID then old(nodes) else old(nodes)[node.id := node]
    {
      if node.id == localID {
        return;
      }
      nodes := nodes[node.id := node];
    }

    method RemoveNode(id: string) returns (removed: bool)
      requires Valid()
      modifies this
      ensures Valid() && removed == (id != localID && id in old(nodes))
      ensures nodes == if removed then old(nodes) - {id} else old(nodes)
    {
      if id == localID || id !in nodes {
        return false;
      }
      nodes := nodes - {id};
      return true;
    }

    method UpdateRemoteStatus(id: string, status: Status) returns (updated: bool)
      requires Valid()
      modifies this
      ensures Valid() && updated == (id != localID && id in old(nodes))
      ensures nodes == if updated then old(nodes)[id := old(nodes)[id].(status := status)] else old(nodes)
    {
      if id == localID || id !in nodes {
        return false;
      }
      nodes := nodes[id := nodes[id].(status := status)];
      return true;
    }

    /** Reports whether the node is a known remote, which is when subscribers are notified. */
    method UpdateRemoteEndpoint(id: string, endpointID: string, listeners: int) returns (updated: bool)
      requires Valid()
      modifies this
      ensures Valid() && updated == (id != localID && id in old(nodes))
      ensures nodes == if updated then
          old(nodes)[id := old(nodes)[id].(endpoints := old(nodes)[id].endpoints[endpointID := listeners])]
        else old(nodes)
    {
      if id == localID || id !in nodes {
        return false;
      }
      nodes := nodes[id := nodes[id].(endpoints := nodes[id].endpoints[endpointID := listeners])];
      return true;
    }

    /** Reports whether the node is a known remote, which is when subscribers are notified. */
    method RemoveRemoteEndpoint(id: string, endpointID: string) returns (updated: bool)
      requires Valid()
      modifies this
      ensures Valid() && updated == (id != localID && id in old(nodes))
      ensures nodes == if updated then
          old(nodes)[id := old(nodes)[id].(endpoints := old(nodes)[id].endpoints - {endpointID})]
        else old(nodes)
    {
      if id == localID || id !in nodes {
        return false;
      }
      nodes := nodes[id := nodes[id].(endpoints := nodes[id].endpoints - {endpointID})];
      return true;
    }

    /** Finds a qualifying node whenever there is one, in whatever order the map is visited. */
    method LookupEndpoint(endpointID: string, ord: MapOrder) returns (node: Option<Node>)
      requires Valid()
      ensures node.Some? ==> Qualifies(nodes, localID, node.value.id, endpointID) && nodes[node.value.id] == node.value
      ensures node.None? ==> forall id :: !Qualifies(nodes, localID, id, endpointID)
    {
      var ids := Range(ord, nodes.Keys);
      for i := 0 to |ids|
        invariant forall j :: 0 <= j < i ==> !Qualifies(nodes, localID, ids[j], endpointID)
      {
        var n := nodes[ids[i]];
        if n.id == localID {
          continue;
        }
        if n.status != Active {
          continue;
        }
        if endpointID in n.endpoints && n.endpoints[endpointID] > 0 {
          return Some(n);
        }
      }
      return None;
    }

    /** Never divides by zero: the local node is active. */
    method AvgConns(ord: MapOrder) returns (avg: int)
      requires Valid()
      ensures localID in ActiveIDs(nodes)
      ensures avg == MeanConns(nodes)
      ensures var total, active := Sum(Conns(nodes), ActiveIDs(nodes)), |ActiveIDs(nodes)|;
        && (total >= 0 ==> avg * active <= total < (avg + 1) * active)
        && (total < 0 ==> (avg - 1) * active < total <= avg * active)
    {
      var totalConns, active := ActiveTotals(nodes, ord);
      assert localID in ActiveIDs(nodes);
      QuotientIs(totalConns, active);
      return Quotient(totalConns, active);
    }
  }

  /** The loop over the nodes: how many are active, and their connections together. */
  method ActiveTotals(nodes: map<string, Node>, ord: MapOrder) returns (totalConns: int, active: nat)
    ensures totalConns == Sum(Conns(nodes), ActiveIDs(nodes)) && active == |ActiveIDs(nodes)|
  {
    totalConns, active := 0, 0;
    var ids := Range(ord, nodes.Keys);
    ActiveNone(nodes, ids);
    for i := 0 to |ids|
      invariant totalConns == Sum(Conns(nodes), ActiveSeen(nodes, ids, i))
      invariant active == |ActiveSeen(nodes, ids, i)|
    {
      ActiveStep(nodes, ids, i);
      var n := nodes[ids[i]];
      if n.status != Active {
        continue;
      }
      var conns := NodeConns(n.endpoints, ord);
      totalConns := totalConns + conns;
      active := active + 1;
    }
    ActiveAll(nodes, ids);
  }

  lemma ActiveAll(nodes: map<string, Node>, ids: seq<string>)
    requires Enumerates(ids, nodes.Keys)
    ensures ActiveSeen(nodes, ids, |ids|) == ActiveIDs(nodes)
  {
    SeenAll(ids, nodes.Keys);
  }

  lemma ActiveNone(nodes: map<string, Node>, ids: seq<string>)
    ensures ActiveSeen(nodes, ids, 0) == {}
  {
  }

  ghost function ActiveSeen(nodes: map<string, Node>, ids: seq<string>, i: nat): (s: set<string>)
    requires i <= |ids|
    ensures s <= Conns(nodes).Keys
  {
    ActiveIDs(nodes) * Seen(ids, i)
  }

  lemma SumAdd(m: map<string, int>, ks: set<string>, k: string)
    requires ks <= m.Keys && k in m && k !in ks
    ensures Sum(m, ks + {k}) == m[k] + Sum(m, ks) && |ks + {k}| == |ks| + 1
  {
    assert ks + {k} - {k} == ks;
    SumRemove(m, ks + {k}, k);
  }

  lemma ActiveGrows(nodes: map<string, Node>, ids: seq<string>, i: nat)
    requires Enumerates(ids, nodes.Keys) && i < |ids|
    ensures ids[i] in nodes && ids[i] !in ActiveSeen(nodes, ids, i)
    ensures ActiveSeen(nodes, ids, i + 1)
         == ActiveSeen(nodes, ids, i) + if nodes[ids[i]].status == Active then {ids[i]} else {}
  {
    SeenStep(ids, i, nodes.Keys);
  }

  lemma ActiveStep(nodes: map<string, Node>, ids: seq<string>, i: nat)
    requires Enumerates(ids, nodes.Keys) && i < |ids|
    ensures ids[i] in nodes
    ensures var old', new' := ActiveSeen(nodes, ids, i), ActiveSeen(nodes, ids, i + 1);
      if nodes[ids[i]].status == Active then
        && Sum(Conns(nodes), new') == Conns(nodes)[ids[i]] + Sum(Conns(nodes), old')
        && |new'| == |old'| + 1
      else new' == old'
  {
    ActiveGrows(nodes, ids, i);
    if nodes[ids[i]].status == Active { SumAdd(Conns(nodes), ActiveSeen(nodes, ids, i), ids[i]); }
  }

  /** The connections of one node. */
  method NodeConns(endpoints: map<string, int>, ord: MapOrder) returns (total: int)
    ensures total == Sum(endpoints, endpoints.Keys)
  {
    total := 0;
    var es := Range(ord, endpoints.Keys);
    assert Seen(es, 0) == {};
    for i := 0 to |es|
      invariant Seen(es, i) <= endpoints.Keys
      invariant total == Sum(endpoints, Seen(es, i))
    {
      SumSeen(endpoints, es, i);
      total := total + endpoints[es[i]];
    }
    SeenAll(es, endpoints.Keys);
  }

  lemma SumSeen(m: map<string, int>, ks: seq<string>, i: nat)
    requires Enumerates(ks, m.Keys) && i < |ks|
    ensures Seen(ks, i) <= Seen(ks, i + 1) <= m.Keys && ks[i] in m
    ensures Sum(m, Seen(ks, i + 1)) == m[ks[i]] + Sum(m, Seen(ks, i))
  {
    SeenStep(ks, i, m.Keys);
    forall k | k in Seen(ks, i) ensures k in m { assert k in ks; }
    SumAdd(m, Seen(ks, i), ks[i]);
  }
}
