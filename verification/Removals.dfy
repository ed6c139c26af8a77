/** Removing the same upstream twice: what it breaks, and that runs get there. The proxy removes an upstream it
    cannot reach, and so does the upstream's own handler when it ends. */
module Removals {
  import opened Strconv
  import opened Membership
  import opened Network
  import opened ClusterIndex
  import opened Upstreams
  import opened Routing

  lemma RemovedCounts(w: World, n: string, u: Upstream)
    requires WorldInv(w) && Possible(w, RemoveConn(n, u))
    ensures var w', srv, own := Take(w, RemoveConn(n, u)), w.servers[n], Owner(w.net, n);
      var local' := RemoveListener(srv.index.nodes[n], u.endpointID);
      && n in w'.servers && w'.servers[n].registry == Disconnected(srv.registry, u)
      && n in w'.servers[n].index.nodes && w'.servers[n].index.nodes[n] == local'
      && Owner(w'.net, n) == LocalNode(own, AdvertiseOp(u.endpointID, Listeners(local', u.endpointID)))
      && OwnGood(own) && Counts(srv.registry, srv.index.nodes[n], own) && srv.registry[u.endpointID] != []
  {
    assert ServerOk(w, n) && NodeOk(w.net, n) && OwnerAt(w.net, n) && HistGoodAt(w.net, n);
    OwnerIsGood(w.net, n);
    LocalEffect(w.net, n, ConnOp(w, RemoveConn(n, u)));
  }

  /** In any state of the system, removing a connection of a registered endpoint keeps everything in agreement
      if and only if that connection is registered. */
  lemma RemoveConnOkIff(w: World, n: string, u: Upstream)
    requires WorldInv(w) && Possible(w, RemoveConn(n, u))
    ensures WorldInv(Take(w, RemoveConn(n, u))) <==> u in w.servers[n].registry[u.endpointID]
  {
    var w' := Take(w, RemoveConn(n, u));
    RemovedCounts(w, n, u);
    RemoveCountsIff(w.servers[n].registry, w.servers[n].index.nodes[n], Owner(w.net, n), u);
    if u in w.servers[n].registry[u.endpointID] { ConnOk(w, RemoveConn(n, u)); }
    if WorldInv(w') { assert ServerOk(w', n); }
  }

  lemma CanConnect(w: World, n: string, u: Upstream)
    requires WorldInv(w) && n in w.servers && Count(w.servers[n].registry, u.endpointID) < MAX_INT64
    ensures CanTake(w, AddConn(n, u)) && WorldInv(Take(w, AddConn(n, u)))
    ensures Take(w, AddConn(n, u)).servers.Keys == w.servers.Keys
    ensures Take(w, AddConn(n, u)).servers[n].registry == Connected(w.servers[n].registry, u)
  {
    assert ServerOk(w, n) && NodeOk(w.net, n);
    EndpointKeyFree(u.endpointID);
    ConnOk(w, AddConn(n, u));
  }

  lemma CanRemove(w: World, n: string, u: Upstream)
    requires WorldInv(w) && n in w.servers && u.endpointID in w.servers[n].registry
    ensures Possible(w, RemoveConn(n, u))
  {
    assert ServerOk(w, n) && NodeOk(w.net, n);
    EndpointKeyFree(u.endpointID);
  }

  lemma TwoUpstreams(u: Upstream, v: Upstream)
    requires u.endpointID == v.endpointID
    ensures Connected(map[], u) == map[u.endpointID := [u]]
    ensures Connected(map[u.endpointID := [u]], v) == map[u.endpointID := [u, v]]
    ensures u != v ==> Disconnected(map[u.endpointID := [u, v]], u) == map[u.endpointID := [v]]
  {
    assert [] + [u] == [u] && [u] + [v] == [u, v] && [u, v][1..] == [v];
  }

  /** Two upstreams connect. */
  lemma Connects(w: World, n: string, u: Upstream, v: Upstream) returns (w': World)
    requires WorldInv(w) && n in w.servers && w.servers[n].registry == map[] && u.endpointID == v.endpointID
    ensures CanTake(w, AddConn(n, u)) && CanTake(Take(w, AddConn(n, u)), AddConn(n, v))
    ensures w' == Take(Take(w, AddConn(n, u)), AddConn(n, v)) && WorldInv(w')
    ensures n in w'.servers && w'.servers[n].registry == map[u.endpointID := [u, v]]
  {
    TwoUpstreams(u, v);
    CanConnect(w, n, u);
    var w1 := Take(w, AddConn(n, u));
    CanConnect(w1, n, v);
    w' := Take(w1, AddConn(n, v));
  }

  /** A run that leads there: two upstreams connect for an endpoint and the first is removed. Removing it once
      more takes the endpoint off the node's index and out of gossip, while the second is still connected. */
  lemma RemovingTwiceHidesEndpoint(locals: map<string, Node>, n: string, u: Upstream, v: Upstream)
    returns (steps: seq<WorldStep>, w: World)
    requires forall id :: id in locals ==> locals[id].id == id && locals[id].endpoints == map[]
    requires n in locals && u != v && u.endpointID == v.endpointID
    ensures Becomes(Boot(locals), steps, w) && Possible(w, RemoveConn(n, u))
    ensures Hides(Take(w, RemoveConn(n, u)), n, v)
  {
    var w0 := Boot(locals);
    BootOk(locals);
    var w2 := Connects(w0, n, u, v);
    CanRemove(w2, n, u);
    w := Take(w2, RemoveConn(n, u));
    ConnOk(w2, RemoveConn(n, u));
    steps := [AddConn(n, u), AddConn(n, v), RemoveConn(n, u)];
    ThreeSteps(w0, steps);
    LastOne(w2, n, u, v);
    Hidden(w, n, u, v);
  }

  /** The upstream is connected, but the node neither counts nor gossips its endpoint. */
  ghost predicate Hides(w: World, n: string, v: Upstream) {
    && !WorldInv(w) && n in w.servers && Registered(w.servers[n].registry, v.endpointID) == [v]
    && n in w.servers[n].index.nodes && Listeners(w.servers[n].index.nodes[n], v.endpointID) == 0
    && Live(Owner(w.net, n), EndpointKey(v.endpointID)) == None
  }

  lemma ThreeSteps(w: World, steps: seq<WorldStep>)
    requires |steps| == 3 && CanTake(w, steps[0]) && CanTake(Take(w, steps[0]), steps[1])
    requires CanTake(Take(Take(w, steps[0]), steps[1]), steps[2])
    ensures Becomes(w, steps, Take(Take(Take(w, steps[0]), steps[1]), steps[2]))
  {
    var w1 := Take(w, steps[0]);
    var w2 := Take(w1, steps[1]);
    assert steps[1..][1..] == [steps[2]] && [steps[2]][1..] == [];
    assert Becomes(w2, [steps[2]], Take(w2, steps[2]));
    assert Becomes(w1, steps[1..], Take(w2, steps[2]));
  }

  lemma LastOne(w: World, n: string, u: Upstream, v: Upstream)
    requires Possible(w, RemoveConn(n, u)) && u != v && u.endpointID == v.endpointID
    requires w.servers[n].registry == map[u.endpointID := [u, v]]
    ensures var w' := Take(w, RemoveConn(n, u));
      n in w'.servers && w'.servers[n].registry == map[u.endpointID := [v]]
  {
    TwoUpstreams(u, v);
  }

  /** Removing an upstream that is not the one that is left. */
  lemma Hidden(w: World, n: string, u: Upstream, v: Upstream)
    requires WorldInv(w) && n in w.servers && u != v && u.endpointID == v.endpointID
    requires w.servers[n].registry == map[u.endpointID := [v]]
    ensures Possible(w, RemoveConn(n, u)) && Hides(Take(w, RemoveConn(n, u)), n, v)
  {
    CanRemove(w, n, u);
    RemoveConnOkIff(w, n, u);
    RemovedCounts(w, n, u);
    var m, e := w.servers[n].registry, u.endpointID;
    assert [v][1..] == [] && Upstreams.Without([v], u) == [v] + Upstreams.Without([], u) == [v];
    assert CountsAt(m, w.servers[n].index.nodes[n], Owner(w.net, n), e);
    Advertised(Owner(w.net, n), e, 0);
  }
}
