/** From a connected upstream to a routed request: the number of upstreams a node has for an endpoint is the
    number every other node that has caught up with it routes by. */
module Routing {
  import opened Strconv
  import opened GossipState
  import opened Compaction
  import opened Runs
  import opened Membership
  import opened Watching
  import opened Metrics
  import opened Replica
  import opened Network
  import opened ClusterIndex
  import opened ClusterMap
  import opened Upstreams

  // ---------- What a node says about its own endpoints ----------

  /** What the key is live as, if it is. */
  function Live(ns: NodeState, k: string): Option<string> {
    if k in LiveUser(ns.entries) then Some(LiveUser(ns.entries)[k]) else None
  }

  /** Deleted entries carry no value, and listener counts are numbers. */
  predicate GoodEntry(e: Entry) {
    ParsesEntry(e) && (e.deleted ==> e.value == "")
  }

  ghost predicate OwnGood(own: NodeState) {
    && NodeWf(own) && forall k :: k in own.entries ==> GoodEntry(own.entries[k]) && FlagOk(own.entries[k])
  }

  /** An upsert shows exactly unless it is the empty value on a deleted key. */
  lemma UpsertShowsIff(own: NodeState, key: string, value: string)
    requires OwnGood(own) && !ReservedKey(key)
    ensures Live(Upserted(own, key, value), key) == Some(value)
      <==> !(key in own.entries && own.entries[key].deleted && value == "")
  {
  }

  /** A run that gets there: after an upsert and a delete, an upsert of the empty value is ignored. */
  lemma EmptyValueStaysDeleted(localID: string, addr: string, key: string, value: string)
    ensures var gone := DeleteLocal(UpsertLocal(Init(localID, addr), key, value), key);
      UpsertLocal(gone, key, "") == gone && Live(Local(gone), key) == None
  {
  }

  lemma OthersShow(own: NodeState, op: Op, j: string)
    requires OwnGood(own) && IsLocal(op) && (op.Compact? ==> !CompactPanics(own, op.threshold)) && !ReservedKey(j)
    requires op.Upsert? || op.Delete? ==> op.key != j
    ensures Live(LocalNode(own, op), j) == Live(own, j)
  {
    if op.Compact? && |DeletedKeys(own.entries)| >= op.threshold {
      CompactedEntries(own, op.threshold);
    }
  }

  lemma DeleteHides(own: NodeState, key: string)
    requires OwnGood(own)
    ensures Live(Deleted(own, key), key) == None
  {
  }

  lemma StaysGood(own: NodeState, op: Op)
    requires OwnGood(own) && IsLocal(op) && (op.Compact? ==> !CompactPanics(own, op.threshold))
    requires op.Upsert? ==> Parses(op.key, op.value) && !ReservedKey(op.key)
    ensures OwnGood(LocalNode(own, op))
  {
    if op.Compact? {
      CompactedGood(own, op.threshold);
    } else {
      LocalKeepsNode(own, op);
    }
  }

  lemma CompactedGood(own: NodeState, threshold: int)
    requires OwnGood(own) && !CompactPanics(own, threshold)
    ensures OwnGood(Compacted(own, threshold))
  {
    CompactedWf(own, threshold);
    if |DeletedKeys(own.entries)| >= threshold {
      CompactedEntries(own, threshold);
      forall k | k in Compacted(own, threshold).entries
        ensures GoodEntry(Compacted(own, threshold).entries[k]) && FlagOk(Compacted(own, threshold).entries[k])
      {
        if k != COMPACT_KEY { assert GoodEntry(own.entries[k]); }
      }
    }
  }

  // ---------- Counting ----------

  function Count(m: Registry, e: string): nat {
    |Registered(m, e)|
  }

  /** The registry, the local node's record and the gossiped entry agree on the endpoint. */
  ghost predicate CountsAt(m: Registry, local: Node, own: NodeState, e: string) {
    && Listeners(local, e) == Count(m, e) <= MAX_INT64
    && Live(own, EndpointKey(e)) == if Count(m, e) > 0 then Some(Itoa(Count(m, e))) else None
  }

  ghost predicate Counts(m: Registry, local: Node, own: NodeState) {
    forall e :: CountsAt(m, local, own, e)
  }

  /** What the syncer makes of `n` listeners. */
  function AdvertiseOp(e: string, n: int): Op {
    if n > 0 then Upsert(EndpointKey(e), Itoa(n)) else Delete(EndpointKey(e))
  }

  lemma EndpointKeyFree(e: string)
    ensures !ReservedKey(EndpointKey(e)) && EndpointKey(e) != ""
  {
    assert EndpointKey(e)[0] == 'e' && LEFT_KEY[0] == '_' && COMPACT_KEY[0] == '_';
  }

  lemma Advertised(own: NodeState, e: string, n: nat)
    requires OwnGood(own) && n <= MAX_INT64
    ensures var own' := LocalNode(own, AdvertiseOp(e, n));
      && OwnGood(own') && Live(own', EndpointKey(e)) == (if n > 0 then Some(Itoa(n)) else None)
      && forall d :: d != e ==> Live(own', EndpointKey(d)) == Live(own, EndpointKey(d))
  {
    EndpointKeyFree(e);
    EndpointKeyID(e);
    IntRoundTrip(n);
    StaysGood(own, AdvertiseOp(e, n));
    if n > 0 {
      UpsertShowsIff(own, EndpointKey(e), Itoa(n));
    } else {
      DeleteHides(own, EndpointKey(e));
    }
    forall d | d != e ensures Live(LocalNode(own, AdvertiseOp(e, n)), EndpointKey(d)) == Live(own, EndpointKey(d)) {
      if EndpointKey(d) == EndpointKey(e) { EndpointKeyInjective(d, e); }
      EndpointKeyFree(d);
      OthersShow(own, AdvertiseOp(e, n), EndpointKey(d));
    }
  }

  lemma AddCounts(m: Registry, local: Node, own: NodeState, u: Upstream)
    requires OwnGood(own) && Counts(m, local, own) && Count(m, u.endpointID) < MAX_INT64
    ensures var e := u.endpointID;
      var local' := AddListener(local, e);
      Counts(Connected(m, u), local', LocalNode(own, AdvertiseOp(e, Listeners(local', e))))
  {
    var e := u.endpointID;
    assert CountsAt(m, local, own, e);
    Advertised(own, e, Count(m, e) + 1);
    var m', local' := Connected(m, u), AddListener(local, e);
    var own' := LocalNode(own, AdvertiseOp(e, Listeners(local', e)));
    forall d ensures CountsAt(m', local', own', d) { assert CountsAt(m, local, own, d); }
  }

  lemma RemovedAt(m: Registry, u: Upstream, d: string)
    requires u.endpointID in m && m[u.endpointID] != []
    ensures var m', e := Disconnected(m, u), u.endpointID;
      Count(m', d) == if d == e && u in m[e] then Count(m, d) - 1 else Count(m, d)
  {
  }

  lemma ListenersAfter(local: Node, e: string, d: string)
    requires Listeners(local, e) > 0
    ensures Listeners(RemoveListener(local, e), d) == if d == e then Listeners(local, d) - 1 else Listeners(local, d)
  {
  }

  /** Removing a connection keeps the counts right exactly when the connection is registered, or its endpoint
      is not: removing one twice makes the endpoint count one short. */
  lemma RemoveCountsIff(m: Registry, local: Node, own: NodeState, u: Upstream)
    requires OwnGood(own) && Counts(m, local, own) && u.endpointID in m && m[u.endpointID] != []
    ensures var e := u.endpointID;
      var local' := RemoveListener(local, e);
      Counts(Disconnected(m, u), local', LocalNode(own, AdvertiseOp(e, Listeners(local', e)))) <==> u in m[e]
  {
    var e := u.endpointID;
    assert CountsAt(m, local, own, e);
    ListenersAfter(local, e, e);
    Advertised(own, e, Count(m, e) - 1);
    var m', local' := Disconnected(m, u), RemoveListener(local, e);
    var own' := LocalNode(own, AdvertiseOp(e, Listeners(local', e)));
    if u in m[e] {
      forall d ensures CountsAt(m', local', own', d) {
        assert CountsAt(m, local, own, d);
        RemovedAt(m, u, d);
        ListenersAfter(local, e, d);
      }
    } else {
      RemovedAt(m, u, e);
      assert !CountsAt(m', local', own', e);
    }
  }

  // ---------- The whole system ----------

  datatype Server = Server(registry: Registry, index: Index)
  datatype World = World(net: Net, servers: map<string, Server>)

  datatype WorldStep =
    | Gossip(step: NetStep)
    | AddConn(n: string, u: Upstream)
    | RemoveConn(n: string, u: Upstream)

  /** The node whose state the step changes. */
  function Actor(step: NetStep): Option<string> {
    match step
    case LocalUpdate(n, _) => Some(n)
    case Quiet(n, _) => Some(n)
    case Send(_, _) => None
    case Deliver(m, _, _) => Some(m.dst)
  }

  /** The operation the actor performs. */
  ghost function ActorOp(step: NetStep): Op
    requires !step.Send?
  {
    match step
    case LocalUpdate(_, op) => op
    case Quiet(_, op) => op
    case Deliver(m, now, ord) => ReceiveDelta(m.sender, m.delta, now, ord)
  }

  /** What the program can be asked to do. A removal for an endpoint that is not registered does nothing. */
  ghost predicate Possible(w: World, step: WorldStep) {
    match step
    case Gossip(s) =>
      && CanDo(w.net, s) && (Actor(s).Some? ==> Actor(s).value in w.servers)
      // The endpoint keys belong to the syncer.
      && (s.LocalUpdate? && (s.op.Upsert? || s.op.Delete?) ==> !IsEndpointKey(s.op.key))
    case AddConn(n, u) =>
      n in w.servers && n in w.servers[n].index.nodes && Count(w.servers[n].registry, u.endpointID) < MAX_INT64
      && CanDo(w.net, LocalUpdate(n, ConnOp(w, step)))
    case RemoveConn(n, u) =>
      n in w.servers && n in w.servers[n].index.nodes && u.endpointID in w.servers[n].registry
      && CanDo(w.net, LocalUpdate(n, ConnOp(w, step)))
  }

  /** Only registered upstreams are removed. */
  ghost predicate CanTake(w: World, step: WorldStep) {
    Possible(w, step) && (step.RemoveConn? ==> step.u in Registered(w.servers[step.n].registry, step.u.endpointID))
  }

  function LocalAfter(w: World, step: WorldStep): Node
    requires !step.Gossip? && step.n in w.servers && step.n in w.servers[step.n].index.nodes
  {
    var local := w.servers[step.n].index.nodes[step.n];
    if step.AddConn? then AddListener(local, step.u.endpointID) else RemoveListener(local, step.u.endpointID)
  }

  /** What connecting or disconnecting gossips. */
  function ConnOp(w: World, step: WorldStep): Op
    requires !step.Gossip? && step.n in w.servers && step.n in w.servers[step.n].index.nodes
  {
    AdvertiseOp(step.u.endpointID, Listeners(LocalAfter(w, step), step.u.endpointID))
  }

  /** The node's server after its gossip state went from `s` to `s'`. */
  function Synced(srv: Server, s: State, s': State): Server {
    srv.(index := HandleAll(srv.index, NewEvents(s, s')))
  }

  ghost function Take(w: World, step: WorldStep): World
    requires Possible(w, step)
  {
    if step.Gossip? then
      var net', actor := Do(w.net, step.step), Actor(step.step);
      if actor.None? then w.(net := net')
      else
        var n := actor.value;
        World(net', w.servers[n := Synced(w.servers[n], w.net.nodes[n], net'.nodes[n])])
    else
      var srv := w.servers[step.n];
      var registry := if step.AddConn? then Connected(srv.registry, step.u) else Disconnected(srv.registry, step.u);
      var index := srv.index.(nodes := srv.index.nodes[step.n := LocalAfter(w, step)]);
      World(Do(w.net, LocalUpdate(step.n, ConnOp(w, step))), w.servers[step.n := Server(registry, index)])
  }

  ghost predicate Becomes(w: World, steps: seq<WorldStep>, w': World)
    decreases |steps|
  {
    if steps == [] then w == w' else CanTake(w, steps[0]) && Becomes(Take(w, steps[0]), steps[1..], w')
  }

  /** Every node starts with no connections and an index that holds itself. */
  ghost function Boot(locals: map<string, Node>): World
    requires forall n :: n in locals ==> locals[n].id == n && locals[n].endpoints == map[]
  {
    World(Start(map n | n in locals :: locals[n].adminAddr),
          map n | n in locals :: Server(map[], NewIndex(locals[n])))
  }

  // ---------- The invariant ----------

  ghost predicate HistGoodAt(net: Net, id: string) {
    forall h :: h in Hist(net, id) ==> GoodEntry(h)
  }

  /** The index follows the node's gossip. */
  ghost predicate InSync(idx: Index, s: State, n: string) {
    SyncInv(s) && idx.localID == n && Refines(idx, s) && n in idx.nodes
  }

  /** The registry, the index and what the node gossips agree. */
  ghost predicate InCount(srv: Server, own: NodeState, n: string)
    requires n in srv.index.nodes
  {
    Counts(srv.registry, srv.index.nodes[n], own) && forall e :: e in srv.registry ==> srv.registry[e] != []
  }

  ghost predicate ServerOk(w: World, n: string) {
    && n in w.servers && n in w.net.nodes && InSync(w.servers[n].index, w.net.nodes[n], n)
    && InCount(w.servers[n], Owner(w.net, n), n)
  }

  ghost predicate WorldInv(w: World) {
    && NetInv(w.net) && w.servers.Keys == w.net.nodes.Keys
    && (forall id :: HistGoodAt(w.net, id))
    && (forall n {:trigger ServerOk(w, n)} :: n in w.servers ==> ServerOk(w, n))
  }

  lemma OwnerIsGood(net: Net, n: string)
    requires OwnerAt(net, n) && HistGoodAt(net, n)
    ensures OwnGood(Owner(net, n))
  {
    var own := Owner(net, n);
    forall k | k in own.entries ensures GoodEntry(own.entries[k]) && FlagOk(own.entries[k]) {
      assert own.entries[k] in Hist(net, n) && Written(own, own.entries[k]);
    }
  }

  // ---------- The index follows ----------

  lemma IndexFollows(idx: Index, s: State, s': State)
    requires TraceOk(s) && TraceOk(s') && TraceParses(s') && s.trace <= s'.trace && Refines(idx, s)
    ensures Refines(HandleAll(idx, NewEvents(s, s')), s')
  {
    var evs := NewEvents(s, s');
    assert s'.trace == s.trace + evs;
    WatchAppend(map[], s.trace, evs);
    HandleAllAgrees(idx, Project(s), evs);
  }

  lemma {:induction false} LocalKept(idx: Index, evs: seq<Event>)
    ensures var idx' := HandleAll(idx, evs);
      && idx'.localID == idx.localID
      && (idx.localID in idx.nodes ==> idx.localID in idx'.nodes && idx'.nodes[idx.localID] == idx.nodes[idx.localID])
    decreases |evs|
  {
    if evs != [] {
      if evs[0].id != idx.localID { OthersAlone(idx, evs[0], idx.localID); }
      LocalKept(Handle(idx, evs[0]), evs[1..]);
    }
  }

  /** A delivered delta holds entries owners wrote, so the watcher calls it causes are in order. */
  lemma DeliveredIsProper(net: Net, m: Message, now: int, ord: MapOrder)
    requires OwnersOk(net) && InFlight(m.delta, m.froms, net) && forall id :: HistGoodAt(net, id)
    ensures ProperDelta(ReceiveDelta(m.sender, m.delta, now, ord))
  {
    forall i, j | 0 <= i < |m.delta| && 0 <= j < |m.delta[i].entries|
      ensures FlagOk(m.delta[i].entries[j]) && ParsesEntry(m.delta[i].entries[j])
    {
      var id := m.delta[i].id;
      assert PartAt(net, m.delta[i], m.froms[i]) && OwnerAt(net, id) && HistGoodAt(net, id);
      assert m.delta[i].entries[j] in Hist(net, id) && Written(Owner(net, id), m.delta[i].entries[j]);
    }
  }

  /** The index built from the calls an operation makes follows the state after it. */
  lemma OpSynced(idx: Index, s: State, op: Op)
    requires SyncInv(s) && Enabled(s, op) && ProperDelta(op) && Refines(idx, s) && idx.localID in idx.nodes
    ensures var s' := Step(s, op);
      var idx' := HandleAll(idx, NewEvents(s, s'));
      && SyncInv(s') && Refines(idx', s')
      && idx'.localID == idx.localID && idx.localID in idx'.nodes && idx'.nodes[idx.localID] == idx.nodes[idx.localID]
  {
    SyncClosed();
    StepKeeps((t: State) => SyncInv(t), (m: Micro) => ClusterIndex.ProperMicro(m), s, op);
    TraceGrows(s, op);
    IndexFollows(idx, s, Step(s, op));
    LocalKept(idx, NewEvents(s, Step(s, op)));
  }

  lemma ActorStep(net: Net, step: NetStep)
    requires NetInv(net) && CanDo(net, step) && !step.Send? && forall id :: HistGoodAt(net, id)
    ensures var n, op := Actor(step).value, ActorOp(step);
      && n in net.nodes && Enabled(net.nodes[n], op) && ProperDelta(op)
      && Do(net, step).nodes == net.nodes[n := Step(net.nodes[n], op)]
  {
    if step.Deliver? {
      assert NodeOk(net, step.m.dst) && InFlight(step.m.delta, step.m.froms, net);
      DeliveredIsProper(net, step.m, step.now, step.ord);
    }
  }

  // ---------- Steps ----------

  lemma HistStaysGood(net: Net, n: string, op: Op)
    requires NetInv(net) && CanDo(net, LocalUpdate(n, op)) && forall id :: HistGoodAt(net, id)
    requires op.Upsert? ==> Parses(op.key, op.value)
    ensures forall id :: HistGoodAt(Do(net, LocalUpdate(n, op)), id)
  {
    var net' := Do(net, LocalUpdate(n, op));
    assert NodeOk(net, n) && OwnerAt(net, n) && HistGoodAt(net, n);
    LocalEffect(net, n, op);
    OwnerIsGood(net, n);
    StaysGood(Owner(net, n), op);
    forall id ensures HistGoodAt(net', id) { assert HistGoodAt(net, id); }
  }

  ghost predicate Untouched(w: World, w': World, n: string) {
    && n in w.servers && n in w'.servers && w'.servers[n] == w.servers[n]
    && n in w.net.nodes && n in w'.net.nodes && w'.net.nodes[n] == w.net.nodes[n]
    && Owner(w'.net, n) == Owner(w.net, n)
  }

  /** Servers whose node and owner did not change stay in order. */
  lemma BystanderOk(w: World, w': World, n: string)
    requires ServerOk(w, n) && Untouched(w, w', n)
    ensures ServerOk(w', n)
  {
  }

  /** The invariant is left to check for the network and for the node that acted. */
  lemma Assemble(w: World, w': World, actor: Option<string>)
    requires WorldInv(w) && NetInv(w'.net) && w'.servers.Keys == w.servers.Keys == w'.net.nodes.Keys
    requires forall id :: HistGoodAt(w'.net, id)
    requires actor.Some? ==> ServerOk(w', actor.value)
    requires forall n {:trigger Untouched(w, w', n)} :: n in w.servers && actor != Some(n) ==> Untouched(w, w', n)
    ensures WorldInv(w')
  {
    forall n | n in w'.servers ensures ServerOk(w', n) {
      if actor != Some(n) {
        assert ServerOk(w, n) && Untouched(w, w', n);
        BystanderOk(w, w', n);
      }
    }
  }

  lemma GossipHist(net: Net, step: NetStep)
    requires NetInv(net) && CanDo(net, step) && forall id :: HistGoodAt(net, id)
    requires step.LocalUpdate? && step.op.Upsert? ==> !IsEndpointKey(step.op.key)
    ensures forall id :: HistGoodAt(Do(net, step), id)
  {
    if step.LocalUpdate? {
      HistStaysGood(net, step.n, step.op);
    } else {
      OnlyLocalUpdates(net, step);
      forall id ensures HistGoodAt(Do(net, step), id) { assert HistGoodAt(net, id); }
    }
  }

  /** Only the actor's node changes. */
  lemma GossipBystander(net: Net, step: NetStep, n: string)
    requires NetInv(net) && CanDo(net, step) && n in net.nodes && Actor(step) != Some(n)
    ensures n in Do(net, step).nodes && Do(net, step).nodes[n] == net.nodes[n]
    ensures Owner(Do(net, step), n) == Owner(net, n)
  {
  }

  lemma GossipOk(w: World, step: NetStep)
    requires WorldInv(w) && CanTake(w, Gossip(step))
    ensures WorldInv(Take(w, Gossip(step)))
  {
    var w' := Take(w, Gossip(step));
    NetStepOk(w.net, step);
    GossipHist(w.net, step);
    if Actor(step).Some? { GossipActorOk(w, step); }
    forall n | n in w.servers && Actor(step) != Some(n) ensures Untouched(w, w', n) {
      GossipBystander(w.net, step, n);
    }
    Assemble(w, w', Actor(step));
  }

  lemma GossipCounts(net: Net, step: NetStep, m: Registry, local: Node, n: string)
    requires NetInv(net) && CanDo(net, step) && Actor(step) == Some(n) && HistGoodAt(net, n)
    requires step.LocalUpdate? && (step.op.Upsert? || step.op.Delete?) ==> !IsEndpointKey(step.op.key)
    requires Counts(m, local, Owner(net, n))
    ensures Counts(m, local, Owner(Do(net, step), n))
  {
    var own, own' := Owner(net, n), Owner(Do(net, step), n);
    if step.LocalUpdate? {
      assert NodeOk(net, n) && OwnerAt(net, n);
      LocalEffect(net, n, step.op);
      OwnerIsGood(net, n);
    } else {
      OnlyLocalUpdates(net, step);
    }
    forall e ensures CountsAt(m, local, own', e) {
      assert CountsAt(m, local, own, e);
      EndpointKeyFree(e);
      EndpointKeyID(e);
      if step.LocalUpdate? { OthersShow(own, step.op, EndpointKey(e)); }
    }
  }

  lemma GossipActorOk(w: World, step: NetStep)
    requires WorldInv(w) && CanTake(w, Gossip(step)) && Actor(step).Some?
    ensures ServerOk(Take(w, Gossip(step)), Actor(step).value)
  {
    var n := Actor(step).value;
    var srv, s := w.servers[n], w.net.nodes[n];
    assert ServerOk(w, n) && HistGoodAt(w.net, n);
    ActorStep(w.net, step);
    OpSynced(srv.index, s, ActorOp(step));
    GossipCounts(w.net, step, srv.registry, srv.index.nodes[n], n);
  }

  lemma ConnOk(w: World, step: WorldStep)
    requires WorldInv(w) && CanTake(w, step) && !step.Gossip?
    ensures WorldInv(Take(w, step))
  {
    var w', local := Take(w, step), LocalUpdate(step.n, ConnOp(w, step));
    NetStepOk(w.net, local);
    ConnHist(w, step);
    ConnActorOk(w, step);
    forall n | n in w.servers && n != step.n ensures Untouched(w, w', n) {
      GossipBystander(w.net, local, n);
    }
    Assemble(w, w', Some(step.n));
  }

  lemma ConnHist(w: World, step: WorldStep)
    requires WorldInv(w) && CanTake(w, step) && !step.Gossip?
    ensures forall id :: HistGoodAt(Take(w, step).net, id)
  {
    assert ServerOk(w, step.n);
    assert CountsAt(w.servers[step.n].registry, w.servers[step.n].index.nodes[step.n], Owner(w.net, step.n), step.u.endpointID);
    IntRoundTrip(Listeners(LocalAfter(w, step), step.u.endpointID));
    HistStaysGood(w.net, step.n, ConnOp(w, step));
  }

  lemma ConnCounts(net: Net, n: string, srv: Server, w: World, step: WorldStep)
    requires net == w.net && CanTake(w, step) && !step.Gossip? && step.n == n && srv == w.servers[n]
    requires NetInv(net) && HistGoodAt(net, n) && InCount(srv, Owner(net, n), n)
    ensures InCount(Take(w, step).servers[n], Owner(Take(w, step).net, n), n)
  {
    assert NodeOk(net, n) && OwnerAt(net, n);
    LocalEffect(net, n, ConnOp(w, step));
    OwnerIsGood(net, n);
    StillRegistered(srv.registry, step.u);
    if step.AddConn? {
      AddCounts(srv.registry, srv.index.nodes[n], Owner(net, n), step.u);
    } else {
      RemoveCountsIff(srv.registry, srv.index.nodes[n], Owner(net, n), step.u);
    }
  }

  lemma ConnActorOk(w: World, step: WorldStep)
    requires WorldInv(w) && CanTake(w, step) && !step.Gossip?
    ensures ServerOk(Take(w, step), step.n)
  {
    var n := step.n;
    assert ServerOk(w, n) && HistGoodAt(w.net, n) && NodeOk(w.net, n);
    ConnCounts(w.net, n, w.servers[n], w, step);
    ConnSynced(w.servers[n].index, w.net.nodes[n], ConnOp(w, step), LocalAfter(w, step));
  }

  /** Every registered endpoint still has an upstream. */
  lemma StillRegistered(m: Registry, u: Upstream)
    requires forall e :: e in m ==> m[e] != []
    ensures forall e :: e in Connected(m, u) ==> Connected(m, u)[e] != []
    ensures forall e :: e in Disconnected(m, u) ==> Disconnected(m, u)[e] != []
  {
  }

  /** Connecting makes no watcher call, and leaves what the index holds about others. */
  lemma ConnSynced(idx: Index, s: State, op: Op, local: Node)
    requires SyncInv(s) && IsLocal(op) && Enabled(s, op) && Refines(idx, s) && idx.localID == s.localID
    requires idx.localID in idx.nodes
    ensures SyncInv(Step(s, op)) && Refines(idx.(nodes := idx.nodes[idx.localID := local]), Step(s, op))
  {
    OpSynced(idx, s, op);
    Membership.LocalStep(s, op);
    var idx', seen := idx.(nodes := idx.nodes[idx.localID := local]), Project(s);
    assert Project(Step(s, op)) == seen;
    forall id ensures AgreesAt(idx', seen, id) { assert AgreesAt(idx, seen, id); }
  }

  lemma AdvertiseIsOp(s: State, e: string, n: int)
    requires s.localID in s.nodes
    ensures Enabled(s, AdvertiseOp(e, n)) && Advertise(s, e, n) == Step(s, AdvertiseOp(e, n))
  {
  }

  /** Connecting and disconnecting do to the registry, the local record and gossip what the manager's methods do. */
  lemma ConnMatchesManager(w: World, step: WorldStep)
    requires WorldInv(w) && CanTake(w, step) && !step.Gossip?
    ensures var n, e := step.n, step.u.endpointID;
      && n in w.net.nodes && w.net.nodes[n].localID in w.net.nodes[n].nodes && n in Take(w, step).net.nodes
      && var srv, local := Take(w, step).servers[n], w.servers[n].index.nodes[n];
         if step.AddConn? then
           && srv.registry == Connected(w.servers[n].registry, step.u)
           && srv.index.nodes == w.servers[n].index.nodes[n := AddListener(local, e)]
           && Take(w, step).net.nodes[n] == Advertise(w.net.nodes[n], e, Listeners(AddListener(local, e), e))
         else
           && srv.registry == Disconnected(w.servers[n].registry, step.u)
           && srv.index.nodes == w.servers[n].index.nodes[n := RemoveListener(local, e)]
           && Take(w, step).net.nodes[n] == Retract(w.net.nodes[n], local, e)
  {
    var n, e := step.n, step.u.endpointID;
    assert ServerOk(w, n) && NodeOk(w.net, n);
    assert CountsAt(w.servers[n].registry, w.servers[n].index.nodes[n], Owner(w.net, n), e);
    AdvertiseIsOp(w.net.nodes[n], e, Listeners(LocalAfter(w, step), e));
  }

  lemma BootOk(locals: map<string, Node>)
    requires forall n :: n in locals ==> locals[n].id == n && locals[n].endpoints == map[]
    ensures WorldInv(Boot(locals))
  {
    var w := Boot(locals);
    StartOk(map n | n in locals :: locals[n].adminAddr);
    forall id ensures HistGoodAt(w.net, id) {}
    forall n | n in w.servers ensures ServerOk(w, n) {
      NewIndexAgrees(locals[n]);
      var s := w.net.nodes[n];
      assert NodeOk(w.net, n) && s.trace == [] && Project(s) == map[];
      assert RemotesFlagged(s);
      forall e ensures CountsAt(map[], w.servers[n].index.nodes[n], Owner(w.net, n), e) {}
    }
  }

  lemma {:induction false} WorldRunOk(w: World, steps: seq<WorldStep>, w': World)
    requires WorldInv(w) && Becomes(w, steps, w')
    ensures WorldInv(w')
    decreases |steps|
  {
    if steps != [] {
      if steps[0].Gossip? { GossipOk(w, steps[0].step); } else { ConnOk(w, steps[0]); }
      WorldRunOk(Take(w, steps[0]), steps[1..], w');
    }
  }

  // ---------- The result ----------

  /** In every run, once `r` has `o`'s version and holds it as active, `o` qualifies for an endpoint in `r`'s
      lookup exactly when it has an upstream for it, and `r` has the right count. */
  lemma RoutesToConnectedUpstreams(
    locals: map<string, Node>, steps: seq<WorldStep>, w: World, r: string, o: string, e: string)
    requires forall n :: n in locals ==> locals[n].id == n && locals[n].endpoints == map[]
    requires Becomes(Boot(locals), steps, w)
    requires r in w.servers && o in w.servers && r != o && r in w.net.nodes && o in w.net.nodes
    requires o in w.net.nodes[r].nodes && o in w.net.nodes[o].nodes
    requires w.net.nodes[r].nodes[o].version == w.net.nodes[o].nodes[o].version
    requires o in w.servers[r].index.nodes && w.servers[r].index.nodes[o].status == Active
    ensures Qualifies(w.servers[r].index.nodes, r, o, e) <==> Registered(w.servers[o].registry, e) != []
    ensures Listeners(w.servers[r].index.nodes[o], e) == |Registered(w.servers[o].registry, e)|
  {
    BootOk(locals);
    WorldRunOk(Boot(locals), steps, w);
    assert ServerOk(w, r) && ServerOk(w, o) && NodeOk(w.net, r);
    var view, own := w.net.nodes[r].nodes[o], Owner(w.net, o);
    assert OwnerAt(w.net, o) && ViewAt(w.net, w.net.nodes[r], o);
    EqualVersionEqualState(view, own, Hist(w.net, o));
    var idx, seen := w.servers[r].index, Project(w.net.nodes[r]);
    assert AgreesAt(idx, seen, o);
    assert seen[o].kv == LiveUser(own.entries);
    assert EndpointAt(idx.nodes[o].endpoints, seen[o].kv, e);
    assert CountsAt(w.servers[o].registry, w.servers[o].index.nodes[o], own, e);
    IntRoundTrip(Count(w.servers[o].registry, e));
  }
}
