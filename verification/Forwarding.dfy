/** Where a forwarded request goes: to the proxy address gossiped by a node that is neither left nor unreachable and
    has an upstream connected for the endpoint. */
module Forwarding {
  import opened Strconv
  import opened GossipState
  import opened Runs
  import opened Membership
  import opened Watching
  import opened Metrics
  import opened Network
  import opened ClusterIndex
  import opened ClusterMap
  import opened Upstreams
  import opened Routing
  import opened Addresses

  // ---------- Every index holds the addresses received ----------

  ghost predicate ServerAddressed(w: World, n: string) {
    n in w.servers && n in w.net.nodes && Addressed(w.servers[n].index, w.net.nodes[n].trace)
  }

  ghost predicate WorldAddressed(w: World) {
    forall n {:trigger ServerAddressed(w, n)} :: n in w.servers ==> ServerAddressed(w, n)
  }

  lemma OpAddressed(idx: Index, s: State, op: Op)
    requires SyncInv(s) && Enabled(s, op) && ProperDelta(op) && Refines(idx, s) && idx.localID in idx.nodes
    requires Addressed(idx, s.trace)
    ensures Addressed(HandleAll(idx, NewEvents(s, Step(s, op))), Step(s, op).trace)
  {
    var s' := Step(s, op);
    OpSynced(idx, s, op);
    TraceGrows(s, op);
    var evs := NewEvents(s, s');
    assert s'.trace == s.trace + evs;
    WatchAppend(map[], s.trace, evs);
    forall i | 0 <= i < |evs| ensures ParsesEvent(evs[i]) { assert evs[i] == s'.trace[|s.trace| + i]; }
    HandleAllAddressed(idx, Project(s), s.trace, evs);
  }

  lemma ActorAddressed(w: World, step: NetStep)
    requires WorldInv(w) && WorldAddressed(w) && CanTake(w, Gossip(step)) && Actor(step).Some?
    ensures ServerAddressed(Take(w, Gossip(step)), Actor(step).value)
  {
    var n := Actor(step).value;
    assert ServerOk(w, n) && ServerAddressed(w, n);
    ActorStep(w.net, step);
    OpAddressed(w.servers[n].index, w.net.nodes[n], ActorOp(step));
  }

  lemma GossipAddressed(w: World, step: NetStep)
    requires WorldInv(w) && WorldAddressed(w) && CanTake(w, Gossip(step))
    ensures WorldAddressed(Take(w, Gossip(step)))
  {
    var w' := Take(w, Gossip(step));
    if Actor(step).Some? { ActorAddressed(w, step); }
    forall n | n in w'.servers ensures ServerAddressed(w', n) {
      if Actor(step) != Some(n) {
        assert ServerAddressed(w, n);
        GossipBystander(w.net, step, n);
      }
    }
  }

  lemma LocalAddressed(idx: Index, local: Node, evs: seq<Event>)
    requires Addressed(idx, evs)
    ensures Addressed(idx.(nodes := idx.nodes[idx.localID := local]), evs)
  {
    var idx' := idx.(nodes := idx.nodes[idx.localID := local]);
    forall id | id != idx'.localID ensures AddressedAt(idx', evs, id) { assert AddressedAt(idx, evs, id); }
  }

  lemma ConnAddressed(w: World, step: WorldStep)
    requires WorldInv(w) && WorldAddressed(w) && CanTake(w, step) && !step.Gossip?
    ensures WorldAddressed(Take(w, step))
  {
    var w', local := Take(w, step), LocalUpdate(step.n, ConnOp(w, step));
    assert ServerOk(w, step.n) && ServerAddressed(w, step.n);
    Membership.LocalStep(w.net.nodes[step.n], ConnOp(w, step));
    LocalAddressed(w.servers[step.n].index, LocalAfter(w, step), w.net.nodes[step.n].trace);
    forall n | n in w'.servers ensures ServerAddressed(w', n) {
      if n != step.n {
        assert ServerAddressed(w, n);
        GossipBystander(w.net, local, n);
      }
    }
  }

  lemma {:induction false} RunAddressed(w: World, steps: seq<WorldStep>, w': World)
    requires WorldInv(w) && WorldAddressed(w) && Becomes(w, steps, w')
    ensures WorldInv(w') && WorldAddressed(w')
    decreases |steps|
  {
    if steps != [] {
      if steps[0].Gossip? {
        GossipAddressed(w, steps[0].step);
        GossipOk(w, steps[0].step);
      } else {
        ConnAddressed(w, steps[0]);
        ConnOk(w, steps[0]);
      }
      RunAddressed(Take(w, steps[0]), steps[1..], w');
    }
  }

  lemma BootAddressed(locals: map<string, Node>)
    requires forall n :: n in locals ==> locals[n].id == n && locals[n].endpoints == map[]
    ensures WorldAddressed(Boot(locals))
  {
    var w := Boot(locals);
    forall n | n in w.servers ensures ServerAddressed(w, n) {
      forall id | id != n ensures AddressedAt(w.servers[n].index, w.net.nodes[n].trace, id) {}
    }
  }

  // ---------- An owner that gossips one value for a key ----------

  predicate SaysOnly(step: NetStep, o: string, key: string, value: string) {
    step.LocalUpdate? && step.n == o && step.op.Upsert? && step.op.key == key ==> step.op.value == value
  }

  predicate EntrySays(e: Entry, key: string, value: string) {
    e.key == key && !e.internal && !e.deleted ==> e.value == value
  }

  ghost predicate HistSays(net: Net, o: string, key: string, value: string) {
    forall h :: h in Hist(net, o) ==> EntrySays(h, key, value)
  }

  ghost predicate TraceSays(evs: seq<Event>, o: string, key: string, value: string) {
    forall i :: 0 <= i < |evs| ==> evs[i].OnUpsertKey? && evs[i].id == o && evs[i].key == key ==> evs[i].value == value
  }

  /** Everything written and everything told about the key has the value. */
  ghost predicate NetSays(net: Net, o: string, key: string, value: string) {
    HistSays(net, o, key, value) && forall n :: n in net.nodes ==> TraceSays(net.nodes[n].trace, o, key, value)
  }

  lemma HistStillSays(net: Net, op: Op, o: string, key: string, value: string)
    requires NetInv(net) && CanDo(net, LocalUpdate(o, op)) && HistGoodAt(net, o) && !ReservedKey(key)
    requires HistSays(net, o, key, value) && SaysOnly(LocalUpdate(o, op), o, key, value)
    ensures HistSays(Do(net, LocalUpdate(o, op)), o, key, value)
  {
    var own := Owner(net, o);
    var own' := LocalNode(own, op);
    assert NodeOk(net, o) && OwnerAt(net, o);
    LocalEffect(net, o, op);
    OwnerIsGood(net, o);
    LiveSays(net, o, key, value);
    LocalSays(own, op, key, value);
  }

  lemma LiveSays(net: Net, o: string, key: string, value: string)
    requires OwnerAt(net, o) && HistSays(net, o, key, value)
    ensures var l := Live(Owner(net, o), key); l.Some? ==> l.value == value
  {
    var own := Owner(net, o);
    if key in own.entries { assert EntrySays(own.entries[key], key, value); }
  }

  lemma LocalSays(own: NodeState, op: Op, key: string, value: string)
    requires OwnGood(own) && IsLocal(op) && (op.Compact? ==> !CompactPanics(own, op.threshold)) && !ReservedKey(key)
    requires op.Upsert? ==> !ReservedKey(op.key) && (op.key == key ==> op.value == value)
    requires op.Delete? ==> !ReservedKey(op.key)
    requires Live(own, key).Some? ==> Live(own, key).value == value
    ensures forall k :: k in LocalNode(own, op).entries ==> EntrySays(LocalNode(own, op).entries[k], key, value)
  {
    var own' := LocalNode(own, op);
    LocalKeepsNode(own, op);
    if (op.Upsert? || op.Delete?) && op.key == key {
    } else {
      OthersShow(own, op, key);
    }
  }

  // ---------- The calls ----------

  ghost predicate MicroSays(m: Micro, o: string, key: string, value: string) {
    m.MEntry? && m.id == o ==> EntrySays(m.e, key, value)
  }

  ghost predicate StateSays(t: State, o: string, key: string, value: string) {
    MemberInv(t) && TraceSays(t.trace, o, key, value)
  }

  lemma {:induction false} DropsSay(
    id: string, m: map<string, Entry>, ks: seq<string>, o: string, key: string, value: string)
    requires forall k :: k in ks ==> k in m
    ensures TraceSays(DropEvents(id, m, ks), o, key, value)
    decreases |ks|
  {
    if ks != [] { DropsSay(id, m, ks[1..], o, key, value); }
  }

  lemma EntryTold(ns: NodeState, e: Entry, ord: MapOrder, o: string, key: string, value: string)
    requires ns.id == o ==> EntrySays(e, key, value)
    ensures TraceSays(EntryEvents(ns, e, ord), o, key, value)
  {
    if e.internal && CompactVersion(e).Some? {
      var m := Stored(ns, e).entries;
      DropsSay(ns.id, m, Range(ord, StaleKeys(m, CompactVersion(e).value)), o, key, value);
    }
  }

  lemma MicroTold(t: State, m: Micro, o: string, key: string, value: string)
    requires StateSays(t, o, key, value) && MicroSays(m, o, key, value) && Guard(t, m)
    ensures StateSays(MicroStep(t, m), o, key, value)
  {
    MicroKeepsMembers(t, m);
    match m
    case MEntry(id, e, _, ord) => EntryTold(t.nodes[id], e, ord, o, key, value);
    case MLocal(op) => Membership.LocalStep(t, op);
    case _ =>
  }

  lemma OpTold(s: State, op: Op, o: string, key: string, value: string)
    requires StateSays(s, o, key, value) && Enabled(s, op)
    requires op.ReceiveDelta? ==> forall i, j :: 0 <= i < |op.delta| && 0 <= j < |op.delta[i].entries| ==>
      op.delta[i].id == o ==> EntrySays(op.delta[i].entries[j], key, value)
    ensures TraceSays(Step(s, op).trace, o, key, value)
  {
    var inv, ok := (t: State) => StateSays(t, o, key, value), (m: Micro) => MicroSays(m, o, key, value);
    forall t, m | inv(t) && ok(m) && Guard(t, m) ensures inv(MicroStep(t, m)) { MicroTold(t, m, o, key, value); }
    StepKeeps(inv, ok, s, op);
  }

  lemma DeliveredSays(net: Net, m: Message, o: string, key: string, value: string)
    requires InFlight(m.delta, m.froms, net) && HistSays(net, o, key, value)
    ensures forall i, j :: 0 <= i < |m.delta| && 0 <= j < |m.delta[i].entries| ==>
      m.delta[i].id == o ==> EntrySays(m.delta[i].entries[j], key, value)
  {
    forall i, j | 0 <= i < |m.delta| && 0 <= j < |m.delta[i].entries| && m.delta[i].id == o
      ensures EntrySays(m.delta[i].entries[j], key, value)
    {
      assert PartAt(net, m.delta[i], m.froms[i]);
      assert m.delta[i].entries[j] in Hist(net, o);
    }
  }

  lemma NetStillSays(net: Net, step: NetStep, o: string, key: string, value: string)
    requires NetInv(net) && (forall id :: HistGoodAt(net, id)) && CanDo(net, step) && !ReservedKey(key)
    requires NetSays(net, o, key, value) && SaysOnly(step, o, key, value)
    ensures NetSays(Do(net, step), o, key, value)
  {
    if step.LocalUpdate? {
      assert NodeOk(net, step.n) && HistGoodAt(net, o);
      LocalEffect(net, step.n, step.op);
      if step.n == o { HistStillSays(net, step.op, o, key, value); }
    } else {
      OnlyLocalUpdates(net, step);
    }
    if !step.Send? {
      var n := Actor(step).value;
      assert NodeOk(net, n);
      ActorStep(net, step);
      if step.Deliver? { DeliveredSays(net, step.m, o, key, value); }
      OpTold(net.nodes[n], ActorOp(step), o, key, value);
    }
  }

  /** The step as the network sees it. */
  ghost function NetStepOf(w: World, step: WorldStep): NetStep
    requires Possible(w, step)
  {
    if step.Gossip? then step.step else LocalUpdate(step.n, ConnOp(w, step))
  }

  lemma TakeDoes(w: World, step: WorldStep)
    requires CanTake(w, step)
    ensures CanDo(w.net, NetStepOf(w, step)) && Take(w, step).net == Do(w.net, NetStepOf(w, step))
  {
  }

  /** The node never gossips another value for the key. */
  ghost predicate GossipsOnly(steps: seq<WorldStep>, o: string, key: string, value: string) {
    forall i :: 0 <= i < |steps| && steps[i].Gossip? ==> SaysOnly(steps[i].step, o, key, value)
  }

  lemma {:induction false} RunSays(w: World, steps: seq<WorldStep>, w': World, o: string, key: string, value: string)
    requires WorldInv(w) && NetSays(w.net, o, key, value) && Becomes(w, steps, w')
    requires GossipsOnly(steps, o, key, value) && !ReservedKey(key) && !IsEndpointKey(key)
    ensures NetSays(w'.net, o, key, value)
    decreases |steps|
  {
    if steps != [] {
      var step := steps[0];
      TakeDoes(w, step);
      if !step.Gossip? { EndpointKeyID(step.u.endpointID); }
      NetStillSays(w.net, NetStepOf(w, step), o, key, value);
      if step.Gossip? { GossipOk(w, step.step); } else { ConnOk(w, step); }
      RunSays(Take(w, step), steps[1..], w', o, key, value);
    }
  }

  // ---------- The results ----------

  lemma {:induction false} LatestSays(evs: seq<Event>, n: nat, o: string, key: string, value: string)
    requires n <= |evs| && TraceSays(evs, o, key, value) && Latest(evs, n, o, key) != ""
    ensures Latest(evs, n, o, key) == value
  {
    if n > 0 && !(evs[n - 1].OnUpsertKey? && evs[n - 1].id == o && evs[n - 1].key == key) {
      LatestSays(evs, n - 1, o, key, value);
    }
  }

  lemma AddressKeysFree()
    ensures !ReservedKey(PROXY_ADDR) && !ReservedKey(ADMIN_ADDR)
    ensures !IsEndpointKey(PROXY_ADDR) && !IsEndpointKey(ADMIN_ADDR)
  {
    KeysDiffer();
    assert LEFT_KEY[0] == '_' && COMPACT_KEY[0] == '_';
  }

  lemma BootSays(locals: map<string, Node>, o: string, key: string, value: string)
    requires forall n :: n in locals ==> locals[n].id == n && locals[n].endpoints == map[]
    ensures NetSays(Boot(locals).net, o, key, value)
  {
  }

  /** In every run: if the owner gossips one value for each of its addresses, every node that holds it in the
      cluster has exactly those. */
  lemma HoldsGossipedAddresses(
    locals: map<string, Node>, steps: seq<WorldStep>, w: World, r: string, o: string, proxy: string, admin: string)
    requires forall n :: n in locals ==> locals[n].id == n && locals[n].endpoints == map[]
    requires Becomes(Boot(locals), steps, w)
    requires GossipsOnly(steps, o, PROXY_ADDR, proxy) && GossipsOnly(steps, o, ADMIN_ADDR, admin)
    requires r in w.servers && r != o && o in w.servers[r].index.nodes
    ensures w.servers[r].index.nodes[o].proxyAddr == proxy && w.servers[r].index.nodes[o].adminAddr == admin
  {
    BootOk(locals);
    BootAddressed(locals);
    RunAddressed(Boot(locals), steps, w);
    AddressKeysFree();
    BootSays(locals, o, PROXY_ADDR, proxy);
    BootSays(locals, o, ADMIN_ADDR, admin);
    RunSays(Boot(locals), steps, w, o, PROXY_ADDR, proxy);
    RunSays(Boot(locals), steps, w, o, ADMIN_ADDR, admin);
    assert ServerOk(w, r) && ServerAddressed(w, r);
    var idx, evs := w.servers[r].index, w.net.nodes[r].trace;
    assert AddressedAt(idx, evs, o);
    var n :| EnteredWith(idx.nodes[o], evs, o, n);
    LatestSays(evs, n, o, PROXY_ADDR, proxy);
    LatestSays(evs, n, o, ADMIN_ADDR, admin);
  }

  /** In every run, a node that is looked up for an endpoint exists, and the caller's gossip knows it and has it
      neither left nor unreachable. */
  lemma LookupIsReachable(locals: map<string, Node>, steps: seq<WorldStep>, w: World, r: string, o: string, e: string)
    requires forall n :: n in locals ==> locals[n].id == n && locals[n].endpoints == map[]
    requires Becomes(Boot(locals), steps, w) && r in w.servers && Qualifies(w.servers[r].index.nodes, r, o, e)
    ensures r in w.net.nodes && o in w.net.nodes[r].nodes && o != r
    ensures !w.net.nodes[r].nodes[o].left && !w.net.nodes[r].nodes[o].unreachable
    ensures o in w.servers && o in w.net.nodes && o in w.net.nodes[o].nodes
  {
    BootOk(locals);
    WorldRunOk(Boot(locals), steps, w);
    assert ServerOk(w, r) && NodeOk(w.net, r);
    var idx, seen := w.servers[r].index, Project(w.net.nodes[r]);
    assert AgreesAt(idx, seen, o);
    assert EndpointAt(idx.nodes[o].endpoints, seen[o].kv, e);
    var k :| k in w.net.nodes[r].nodes[o].entries;
    Exists(w.net, r, o, k);
  }

  /** A node about which anything is known is there. */
  lemma Exists(net: Net, r: string, o: string, k: string)
    requires NetInv(net) && r in net.nodes && o in net.nodes[r].nodes && k in net.nodes[r].nodes[o].entries
    ensures o in net.nodes && o in net.nodes[o].nodes
  {
    assert NodeOk(net, r) && ViewAt(net, net.nodes[r], o);
    assert 0 < net.nodes[r].nodes[o].entries[k].version <= Owner(net, o).version;
  }

  /** In every run: a node that `Select` returns for forwarding is neither left nor unreachable in the caller's
      gossip, and the request goes to the proxy address that the node gossips; once the caller has its version, it
      has an upstream connected for the endpoint. */
  lemma ForwardsToUpstream(
    locals: map<string, Node>, steps: seq<WorldStep>, w: World, r: string, node: Node, e: string,
    proxy: string, admin: string)
    requires forall n :: n in locals ==> locals[n].id == n && locals[n].endpoints == map[]
    requires Becomes(Boot(locals), steps, w) && r in w.servers
    requires GossipsOnly(steps, node.id, PROXY_ADDR, proxy) && GossipsOnly(steps, node.id, ADMIN_ADDR, admin)
    requires Qualifies(w.servers[r].index.nodes, r, node.id, e) && node == w.servers[r].index.nodes[node.id]
    ensures r in w.net.nodes && node.id in w.net.nodes[r].nodes && node.proxyAddr == proxy
    ensures !w.net.nodes[r].nodes[node.id].left && !w.net.nodes[r].nodes[node.id].unreachable
    ensures var o := node.id;
      && o in w.servers && o in w.net.nodes && o in w.net.nodes[o].nodes
      && (w.net.nodes[r].nodes[o].version == w.net.nodes[o].nodes[o].version ==>
            Registered(w.servers[o].registry, e) != [])
  {
    var o := node.id;
    LookupIsReachable(locals, steps, w, r, o, e);
    HoldsGossipedAddresses(locals, steps, w, r, o, proxy, admin);
    if w.net.nodes[r].nodes[o].version == w.net.nodes[o].nodes[o].version {
      RoutesToConnectedUpstreams(locals, steps, w, r, o, e);
    }
  }
}
