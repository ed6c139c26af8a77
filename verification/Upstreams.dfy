/** Upstream connections of the local node: round-robin choice and the manager that registers them. */
module Upstreams {
  import opened Strconv
  import opened GossipState
  import opened ClusterIndex
  import Cluster = ClusterMap
  import Sync = Syncer

  /** `conn` is the connection's identity. */
  datatype Upstream = Upstream(endpointID: string, conn: nat)

  /** What the manager holds: the upstreams of each endpoint, in the order they connected. */
  type Registry = map<string, seq<Upstream>>

  function Without(us: seq<Upstream>, u: Upstream): (r: seq<Upstream>)
    ensures |r| == if u in us then |us| - 1 else |us|
  {
    if us == [] then [] else if us[0] == u then us[1..] else [us[0]] + Without(us[1..], u)
  }

  lemma {:induction false} WithoutAt(us: seq<Upstream>, u: Upstream, i: nat)
    requires i <= |us| && u !in us[..i] && (i < |us| ==> us[i] == u)
    ensures Without(us, u) == if i < |us| then us[..i] + us[i + 1..] else us
    decreases i
  {
    if i > 0 {
      assert us[0] in us[..i] && us[1..][..i - 1] == us[..i][1..];
      WithoutAt(us[1..], u, i - 1);
    }
  }

  function Registered(m: Registry, endpointID: string): seq<Upstream> {
    if endpointID in m then m[endpointID] else []
  }

  function Connected(m: Registry, u: Upstream): Registry {
    m[u.endpointID := Registered(m, u.endpointID) + [u]]
  }

  function Disconnected(m: Registry, u: Upstream): Registry {
    var rest := Without(Registered(m, u.endpointID), u);
    if u.endpointID !in m then m
    else if rest == [] then m - {u.endpointID}
    else m[u.endpointID := rest]
  }

  // ---------- Round robin ----------

  lemma Multiple(d: int, k: int)
    requires k > 0 && d != 0
    ensures d > 0 ==> d * k >= k
    ensures d < 0 ==> d * k <= -k
  {
    if d > 0 { assert (d - 1) * k >= 0; } else { assert (-d - 1) * k >= 0; }
  }

  lemma Unique(x: int, k: int, q: int, r: int)
    requires k > 0 && 0 <= r < k && x == q * k + r
    ensures x / k == q
  {
    var d := x / k - q;
    assert d * k == r - x % k;
    if d != 0 { Multiple(d, k); }
  }

  lemma DivStep(x: int, k: int)
    requires k > 0
    ensures (x + k) / k == x / k + 1
  {
    assert x + k == (x / k + 1) * k + x % k;
    Unique(x + k, k, x / k + 1, x % k);
  }

  lemma DivMonotone(x: int, y: int, k: int)
    requires k > 0 && x <= y
    ensures x / k <= y / k
  {
    var a, b := x / k, y / k;
    assert x == a * k + x % k && y == b * k + y % k;
    assert (a - b) * k == a * k - b * k;
    if a != b { Multiple(a - b, k); }
  }

  lemma NextWraps(i: nat, k: nat)
    requires i < k
    ensures (i + 1) % k == if i + 1 == k then 0 else i + 1
  {
  }

  /** How often position `p` comes up in `n` calls to Next over `k` upstreams, starting at `i`. */
  function Hits(i: nat, k: nat, n: nat, p: nat): nat
    requires i < k
    decreases n
  {
    if n == 0 then 0 else (if i == p then 1 else 0) + Hits((i + 1) % k, k, n - 1, p)
  }

  /** How many calls come before the first that picks `p`. */
  function Wait(i: nat, k: nat, p: nat): nat
    requires i < k && p < k
  {
    if i <= p then p - i else p - i + k
  }

  lemma {:induction false} HitsExactly(i: nat, k: nat, n: nat, p: nat)
    requires i < k && p < k
    ensures Hits(i, k, n, p) == if n <= Wait(i, k, p) then 0 else 1 + (n - Wait(i, k, p) - 1) / k
    decreases n
  {
    if n > 0 {
      NextWraps(i, k);
      HitsExactly((i + 1) % k, k, n - 1, p);
      if i == p {
        if n - 1 < k {
          Unique(n - 1, k, 0, n - 1);
        } else {
          DivStep(n - 1 - k, k);
        }
      }
    }
  }

  /** Any `n` consecutive calls over `k` unchanged upstreams pick each of them n/k times, rounded down or up. */
  lemma RoundRobinIsFair(i: nat, k: nat, n: nat, p: nat)
    requires i < k && p < k
    ensures n / k <= Hits(i, k, n, p) <= (n + k - 1) / k
  {
    var w := Wait(i, k, p);
    HitsExactly(i, k, n, p);
    DivStep(n - 1, k);
    if n <= w {
      Unique(n, k, 0, n);
      DivMonotone(0, n + k - 1, k);
    } else {
      DivMonotone(n - w - 1, n - 1, k);
      DivMonotone(n - k, n - w - 1, k);
      DivStep(n - k, k);
    }
  }

  class LoadBalancer {
    var upstreams: seq<Upstream>
    var nextIndex: nat

    ghost predicate Valid()
      reads this
    {
      nextIndex < |upstreams| || (upstreams == [] && nextIndex == 0)
    }

    constructor ()
      ensures Valid() && upstreams == []
    {
      upstreams := [];
      nextIndex := 0;
    }

    method Add(u: Upstream)
      requires Valid()
      modifies this
      ensures Valid() && upstreams == old(upstreams) + [u] && nextIndex == old(nextIndex)
    {
      upstreams := upstreams + [u];
    }

    /** Removes the first occurrence, if there is one; reports whether nothing is left. */
    method Remove(u: Upstream) returns (empty: bool)
      requires Valid()
      modifies this
      ensures Valid() && upstreams == Without(old(upstreams), u)
      ensures empty == (upstreams == [])
      ensures nextIndex == if u in old(upstreams) && !empty then old(nextIndex) % |upstreams| else old(nextIndex)
    {
      for i := 0 to |upstreams|
        invariant upstreams == old(upstreams) && nextIndex == old(nextIndex) && u !in upstreams[..i]
      {
        if upstreams[i] != u {
          continue;
        }
        WithoutAt(upstreams, u, i);
        upstreams := upstreams[..i] + upstreams[i + 1..];
        if |upstreams| == 0 {
          return true;
        }
        nextIndex := nextIndex % |upstreams|;
        return false;
      }
      WithoutAt(upstreams, u, |upstreams|);
      return |upstreams| == 0;
    }

    /** Returns the upstream the index points at and moves the index on. */
    method Next() returns (u: Option<Upstream>)
      requires Valid()
      modifies this
      ensures Valid() && upstreams == old(upstreams)
      ensures u == if upstreams == [] then None else Some(upstreams[old(nextIndex)])
      ensures upstreams != [] ==> nextIndex == (old(nextIndex) + 1) % |upstreams|
    {
      if |upstreams| == 0 {
        return None;
      }
      u := Some(upstreams[nextIndex]);
      nextIndex := nextIndex + 1;
      nextIndex := nextIndex % |upstreams|;
    }
  }

  /** What `n` calls to Next return. */
  function Turns(us: seq<Upstream>, i: nat, n: nat): (r: seq<Upstream>)
    requires i < |us|
    ensures |r| == n
    decreases n
  {
    if n == 0 then [] else [us[i]] + Turns(us, (i + 1) % |us|, n - 1)
  }

  function Occurrences(us: seq<Upstream>, u: Upstream): nat {
    if us == [] then 0 else (if us[0] == u then 1 else 0) + Occurrences(us[1..], u)
  }

  /** The upstream at this position is registered once. */
  ghost predicate Single(us: seq<Upstream>, p: nat)
    requires p < |us|
  {
    forall q :: 0 <= q < |us| && q != p ==> us[q] != us[p]
  }

  /** A share of `n` picks over `k` upstreams, rounded down or up. */
  ghost predicate Share(n: nat, k: nat, x: nat)
    requires k > 0
  {
    n / k <= x <= (n + k - 1) / k
  }

  lemma {:induction false} TurnsHit(us: seq<Upstream>, i: nat, n: nat, p: nat)
    requires i < |us| && p < |us| && Single(us, p)
    ensures Occurrences(Turns(us, i, n), us[p]) == Hits(i, |us|, n, p)
    decreases n
  {
    if n > 0 {
      assert Turns(us, i, n)[1..] == Turns(us, (i + 1) % |us|, n - 1);
      TurnsHit(us, (i + 1) % |us|, n - 1, p);
    }
  }

  lemma TurnsAreFair(us: seq<Upstream>, i: nat, n: nat)
    requires i < |us|
    ensures forall p :: 0 <= p < |us| && Single(us, p) ==> Share(n, |us|, Occurrences(Turns(us, i, n), us[p]))
  {
    forall p | 0 <= p < |us| && Single(us, p) ensures Share(n, |us|, Occurrences(Turns(us, i, n), us[p])) {
      TurnsHit(us, i, n, p);
      RoundRobinIsFair(i, |us|, n, p);
    }
  }

  lemma TurnsNext(us: seq<Upstream>, i: nat, n: nat, picked: seq<Upstream>)
    requires i < |us| && n > 0
    ensures (i + 1) % |us| < |us|
    ensures picked + Turns(us, i, n) == (picked + [us[i]]) + Turns(us, (i + 1) % |us|, n - 1)
  {
    var rest := Turns(us, (i + 1) % |us|, n - 1);
    assert picked + ([us[i]] + rest) == (picked + [us[i]]) + rest;
  }

  /** Calls Next `n` times: every upstream that is registered once is picked n/k times, rounded down or up. */
  method PickInTurn(lb: LoadBalancer, n: nat) returns (picked: seq<Upstream>)
    requires lb.Valid() && lb.upstreams != []
    modifies lb
    ensures lb.Valid() && lb.upstreams == old(lb.upstreams) && |picked| == n
    ensures forall p :: 0 <= p < |lb.upstreams| && Single(lb.upstreams, p) ==>
      Share(n, |lb.upstreams|, Occurrences(picked, lb.upstreams[p]))
  {
    ghost var us, start := lb.upstreams, lb.nextIndex;
    picked := CallNext(lb, n);
    TurnsAreFair(us, start, n);
  }

  method CallNext(lb: LoadBalancer, n: nat) returns (picked: seq<Upstream>)
    requires lb.Valid() && lb.upstreams != []
    modifies lb
    ensures lb.Valid() && lb.upstreams == old(lb.upstreams)
    ensures picked == Turns(lb.upstreams, old(lb.nextIndex), n)
  {
    ghost var us, start := lb.upstreams, lb.nextIndex;
    picked := [];
    for i := 0 to n
      invariant lb.nextIndex < |us| && lb.upstreams == us
      invariant picked + Turns(us, lb.nextIndex, n - i) == Turns(us, start, n)
    {
      TurnsNext(us, lb.nextIndex, n - i, picked);
      var u := lb.Next();
      picked := picked + [u.value];
    }
  }

  // ---------- The manager ----------

  datatype Selected = NotFound | LocalUpstream(upstream: Upstream) | RemoteNode(node: Node)

  class Manager {
    var localUpstreams: map<string, LoadBalancer>
    const cluster: Cluster.ClusterMap
    const syncer: Sync.Syncer
    // What is registered, and the load balancers that hold it.
    ghost var registry: Registry
    ghost var balancers: set<LoadBalancer>

    /** Every registered endpoint has at least one upstream, and a load balancer of its own. */
    ghost predicate Balanced()
      reads this, balancers
    {
      && registry.Keys == localUpstreams.Keys
      && (forall e :: e in localUpstreams ==> localUpstreams[e] in balancers && Holds(localUpstreams[e], registry[e]))
      && (forall d, e :: d in localUpstreams && e in localUpstreams && d != e ==> localUpstreams[d] != localUpstreams[e])
    }

    static ghost predicate Holds(lb: LoadBalancer, us: seq<Upstream>)
      reads lb
    {
      lb.Valid() && lb.upstreams == us && us != []
    }

    ghost predicate Valid()
      reads this, balancers, cluster, syncer.gossiper
    {
      Balanced() && cluster.Valid() && syncer.gossiper.Valid() && syncer.cluster == cluster
    }

    constructor (cluster: Cluster.ClusterMap, syncer: Sync.Syncer)
      requires cluster.Valid() && syncer.gossiper.Valid() && syncer.cluster == cluster
      ensures Valid() && registry == map[] && this.cluster == cluster && this.syncer == syncer
    {
      localUpstreams := map[];
      balancers := {};
      registry := map[];
      this.cluster := cluster;
      this.syncer := syncer;
    }

    /** A local upstream if there is one, else a qualifying node if forwarding is allowed. */
    method Select(endpointID: string, allowRemote: bool, ord: MapOrder) returns (r: Selected)
      requires Valid()
      modifies balancers
      ensures Valid() && registry == old(registry) && unchanged(cluster) && unchanged(syncer.gossiper)
      ensures forall e :: e in localUpstreams && e != endpointID ==>
        localUpstreams[e].nextIndex == old(localUpstreams[e].nextIndex)
      ensures r.LocalUpstream? <==> endpointID in localUpstreams
      ensures r.LocalUpstream? ==>
        var us, i := registry[endpointID], old(localUpstreams[endpointID].nextIndex);
        i < |us| && r.upstream == us[i] && localUpstreams[endpointID].nextIndex == (i + 1) % |us|
      ensures r.RemoteNode? ==> allowRemote && Cluster.Qualifies(cluster.nodes, cluster.localID, r.node.id, endpointID)
      ensures r.RemoteNode? ==> r.node == cluster.nodes[r.node.id]
      ensures r.NotFound? && allowRemote ==>
        forall id :: !Cluster.Qualifies(cluster.nodes, cluster.localID, id, endpointID)
    {
      if endpointID in localUpstreams {
        var u := localUpstreams[endpointID].Next();
        return LocalUpstream(u.value);
      }
      if !allowRemote {
        return NotFound;
      }
      var node := cluster.LookupEndpoint(endpointID, ord);
      if node.None? {
        return NotFound;
      }
      return RemoteNode(node.value);
    }

    method AddConn(u: Upstream)
      requires Valid()
      modifies this, balancers, cluster, syncer.gossiper
      ensures Valid() && fresh(balancers - old(balancers))
      ensures registry == Connected(old(registry), u)
      ensures cluster.nodes == old(cluster.nodes)[cluster.localID :=
        AddListener(old(cluster.nodes)[cluster.localID], u.endpointID)]
      ensures syncer.gossiper.Abstract() == Advertise(old(syncer.gossiper.Abstract()), u.endpointID,
        Listeners(cluster.nodes[cluster.localID], u.endpointID))
    {
      Register(u);
      cluster.AddLocalEndpoint(u.endpointID);
      syncer.LocalEndpointUpdated(u.endpointID);
    }

    method Register(u: Upstream)
      requires Balanced()
      modifies this, balancers
      ensures Balanced() && fresh(balancers - old(balancers))
      ensures registry == Connected(old(registry), u)
    {
      if u.endpointID in localUpstreams {
        localUpstreams[u.endpointID].Add(u);
        registry := Connected(registry, u);
      } else {
        RegisterFirst(u);
      }
    }

    method RegisterFirst(u: Upstream)
      requires Balanced() && u.endpointID !in localUpstreams
      modifies this
      ensures Balanced() && fresh(balancers - old(balancers))
      ensures registry == Connected(old(registry), u)
    {
      var lb := new LoadBalancer();
      lb.Add(u);
      balancers := balancers + {lb};
      localUpstreams := localUpstreams[u.endpointID := lb];
      registry := Connected(registry, u);
    }

    method Unregister(u: Upstream)
      requires Balanced() && u.endpointID in localUpstreams
      modifies this, balancers
      ensures Balanced() && balancers == old(balancers)
      ensures registry == Disconnected(old(registry), u)
    {
      var empty := localUpstreams[u.endpointID].Remove(u);
      if empty {
        localUpstreams := localUpstreams - {u.endpointID};
      }
      registry := Disconnected(registry, u);
    }

    /** An upstream that is not registered is not removed, yet its endpoint still counts down. */
    method RemoveConn(u: Upstream)
      requires Valid()
      modifies this, balancers, cluster, syncer.gossiper
      ensures Valid() && balancers == old(balancers)
      ensures registry == Disconnected(old(registry), u)
      ensures u.endpointID !in old(localUpstreams) ==>
        cluster.nodes == old(cluster.nodes) && syncer.gossiper.Abstract() == old(syncer.gossiper.Abstract())
      ensures u.endpointID in old(localUpstreams) ==> cluster.nodes == old(cluster.nodes)[cluster.localID :=
        RemoveListener(old(cluster.nodes)[cluster.localID], u.endpointID)]
      ensures u.endpointID in old(localUpstreams) ==>
        syncer.gossiper.Abstract() == Retract(old(syncer.gossiper.Abstract()), old(cluster.nodes)[cluster.localID], u.endpointID)
    {
      if u.endpointID !in localUpstreams {
        return;
      }
      Unregister(u);
      var notify := cluster.RemoveLocalEndpoint(u.endpointID);
      if notify {
        syncer.LocalEndpointUpdated(u.endpointID);
      }
    }
  }
}
