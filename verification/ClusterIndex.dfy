/** The cluster map kept from watcher calls: the syncer's pending nodes and the cluster state's nodes. */
module ClusterIndex {
  import opened Strconv
  import opened GossipState
  import opened Runs
  import opened Membership
  import opened Watching

  const PROXY_ADDR := "proxy_addr"
  const ADMIN_ADDR := "admin_addr"
  const ENDPOINT_PREFIX := "endpoint:"

  /** Unset is the empty status a pending node starts with. */
  datatype Status = Unset | Active | Unreachable | Left

  datatype Node = Node(id: string, status: Status, proxyAddr: string, adminAddr: string, endpoints: map<string, int>)

  /** `nodes` is the cluster state, which always has the local node; `pending` is the syncer's. */
  datatype Index = Index(localID: string, nodes: map<string, Node>, pending: map<string, Node>)

  predicate IsEndpointKey(key: string) {
    ENDPOINT_PREFIX <= key
  }

  function EndpointKey(endpointID: string): string {
    ENDPOINT_PREFIX + endpointID
  }

  function EndpointID(key: string): (e: string)
    requires IsEndpointKey(key)
    ensures EndpointKey(e) == key
  {
    key[|ENDPOINT_PREFIX|..]
  }

  lemma EndpointKeyInjective(d: string, e: string)
    requires EndpointKey(d) == EndpointKey(e)
    ensures d == e
  {
    assert EndpointKey(d)[|ENDPOINT_PREFIX|..] == d;
    assert EndpointKey(e)[|ENDPOINT_PREFIX|..] == e;
  }

  lemma EndpointKeyID(e: string)
    ensures IsEndpointKey(EndpointKey(e)) && EndpointID(EndpointKey(e)) == e
  {
  }

  lemma KeysDiffer()
    ensures !IsEndpointKey(PROXY_ADDR) && !IsEndpointKey(ADMIN_ADDR) && PROXY_ADDR != ADMIN_ADDR
  {
    assert PROXY_ADDR[0] == 'p' && ADMIN_ADDR[0] == 'a' && ENDPOINT_PREFIX[0] == 'e';
  }

  // ---------- The syncer's callbacks ----------

  /** A pending node with the upsert applied; None for keys the syncer does not support. */
  function PendingUpsert(n: Node, key: string, value: string): Option<Node> {
    if key == PROXY_ADDR then Some(n.(proxyAddr := value))
    else if key == ADMIN_ADDR then Some(n.(adminAddr := value))
    else if IsEndpointKey(key) && Atoi(value).Some? then
      Some(n.(endpoints := n.endpoints[EndpointID(key) := Atoi(value).value]))
    else None
  }

  predicate Complete(n: Node) {
    n.proxyAddr != "" && n.adminAddr != ""
  }

  /** A pending node moves to the cluster once its immutable fields are known. */
  function Promote(idx: Index, id: string, n: Node): Index {
    if Complete(n) then
      idx.(pending := idx.pending - {id},
           nodes := idx.nodes[id := if n.status == Unset then n.(status := Active) else n])
    else idx.(pending := idx.pending[id := n])
  }

  function SetStatus(idx: Index, id: string, status: Status): Index {
    if id in idx.nodes then idx.(nodes := idx.nodes[id := idx.nodes[id].(status := status)])
    else if id in idx.pending then idx.(pending := idx.pending[id := idx.pending[id].(status := status)])
    else idx
  }

  function HandleUpsert(idx: Index, id: string, key: string, value: string): Index {
    if id in idx.nodes then
      if IsEndpointKey(key) && Atoi(value).Some? then
        var n := idx.nodes[id];
        idx.(nodes := idx.nodes[id := n.(endpoints := n.endpoints[EndpointID(key) := Atoi(value).value])])
      else idx
    else if id in idx.pending && PendingUpsert(idx.pending[id], key, value).Some? then
      Promote(idx, id, PendingUpsert(idx.pending[id], key, value).value)
    else idx
  }

  function HandleDelete(idx: Index, id: string, key: string): Index {
    if !IsEndpointKey(key) then idx
    else if id in idx.nodes then
      var n := idx.nodes[id];
      idx.(nodes := idx.nodes[id := n.(endpoints := n.endpoints - {EndpointID(key)})])
    else if id in idx.pending then
      var n := idx.pending[id];
      idx.(pending := idx.pending[id := n.(endpoints := n.endpoints - {EndpointID(key)})])
    else idx
  }

  function Handle(idx: Index, ev: Event): Index {
    if ev.id == idx.localID then idx
    else
      match ev
      case OnJoin(id) =>
        if id in idx.nodes || id in idx.pending then idx
        else idx.(pending := idx.pending[id := Node(id, Unset, "", "", map[])])
      case OnLeave(id) =>
        if id in idx.nodes then SetStatus(idx, id, Left) else idx.(pending := idx.pending - {id})
      case OnReachable(id) => SetStatus(idx, id, Active)
      case OnUnreachable(id) => SetStatus(idx, id, Unreachable)
      case OnExpired(id) =>
        if id in idx.nodes then idx.(nodes := idx.nodes - {id}) else idx.(pending := idx.pending - {id})
      case OnUpsertKey(id, key, value) => HandleUpsert(idx, id, key, value)
      case OnDeleteKey(id, key) => HandleDelete(idx, id, key)
  }

  function HandleAll(idx: Index, evs: seq<Event>): Index
    decreases |evs|
  {
    if evs == [] then idx else HandleAll(Handle(idx, evs[0]), evs[1..])
  }

  function NewIndex(local: Node): Index {
    Index(local.id, map[local.id := local.(status := Active)], map[])
  }

  // ---------- The local node's own endpoints ----------

  function Listeners(n: Node, endpointID: string): int {
    if endpointID in n.endpoints then n.endpoints[endpointID] else 0
  }

  predicate HasListener(n: Node, endpointID: string) {
    Listeners(n, endpointID) != 0
  }

  function AddListener(n: Node, endpointID: string): Node {
    n.(endpoints := n.endpoints[endpointID := Listeners(n, endpointID) + 1])
  }

  function RemoveListener(n: Node, endpointID: string): Node {
    if !HasListener(n, endpointID) then n
    else if Listeners(n, endpointID) > 1 then
      n.(endpoints := n.endpoints[endpointID := Listeners(n, endpointID) - 1])
    else n.(endpoints := n.endpoints - {endpointID})
  }

  /** What the syncer gossips when the local node's listeners for an endpoint have changed to `n`. */
  function Advertise(s: State, endpointID: string, n: int): State
    requires s.localID in s.nodes
  {
    if n > 0 then UpsertLocal(s, EndpointKey(endpointID), Itoa(n)) else DeleteLocal(s, EndpointKey(endpointID))
  }

  /** What it gossips when a listener is removed from `local`: nothing, if there is none to remove. */
  function Retract(s: State, local: Node, endpointID: string): State
    requires s.localID in s.nodes
  {
    if HasListener(local, endpointID) then
      Advertise(s, endpointID, Listeners(RemoveListener(local, endpointID), endpointID))
    else s
  }

  // ---------- Agreement with what a watcher knows ----------

  /** Left over unreachable over active. */
  function StatusOf(w: Watched): Status {
    if w.left then Left else if w.unreachable then Unreachable else Active
  }

  ghost predicate EndpointAt(eps: map<string, int>, kv: map<string, string>, e: string) {
    if EndpointKey(e) in kv then e in eps && Atoi(kv[EndpointKey(e)]) == Some(eps[e]) else e !in eps
  }

  /** The endpoints are exactly the `endpoint:` keys, with their values read as numbers. */
  ghost predicate EndpointsAgree(eps: map<string, int>, kv: map<string, string>) {
    forall e :: EndpointAt(eps, kv, e)
  }

  /** A pending node carries what is known so far, but not both addresses yet. */
  ghost predicate PendingAgrees(n: Node, w: Watched) {
    && !w.left && !Complete(n) && EndpointsAgree(n.endpoints, w.kv)
    && (if w.unreachable then n.status == Unreachable else n.status == Unset || n.status == Active)
    && (PROXY_ADDR in w.kv ==> n.proxyAddr == w.kv[PROXY_ADDR])
    && (ADMIN_ADDR in w.kv ==> n.adminAddr == w.kv[ADMIN_ADDR])
  }

  ghost predicate NodeAgrees(n: Node, w: Watched) {
    n.status == StatusOf(w) && Complete(n) && EndpointsAgree(n.endpoints, w.kv)
  }

  /** Every known remote is in exactly one place; it is in neither only if it left while pending. */
  ghost predicate AgreesAt(idx: Index, seen: Seen, id: string) {
    if id == idx.localID then id in idx.nodes && id !in idx.pending
    else if id !in seen then id !in idx.nodes && id !in idx.pending
    else if id in idx.nodes then id !in idx.pending && NodeAgrees(idx.nodes[id], seen[id])
    else if id in idx.pending then PendingAgrees(idx.pending[id], seen[id])
    else seen[id].left
  }

  ghost predicate IndexAgrees(idx: Index, seen: Seen) {
    forall id :: AgreesAt(idx, seen, id)
  }

  /** Listener counts are numbers. */
  predicate Parses(key: string, value: string) {
    IsEndpointKey(key) ==> Atoi(value).Some?
  }

  predicate ParsesEvent(ev: Event) {
    ev.OnUpsertKey? ==> Parses(ev.key, ev.value)
  }

  lemma UpsertAgrees(eps: map<string, int>, kv: map<string, string>, key: string, value: string)
    requires EndpointsAgree(eps, kv) && Parses(key, value)
    ensures EndpointsAgree(if IsEndpointKey(key) then eps[EndpointID(key) := Atoi(value).value] else eps, kv[key := value])
  {
    var eps' := if IsEndpointKey(key) then eps[EndpointID(key) := Atoi(value).value] else eps;
    var kv' := kv[key := value];
    forall e ensures EndpointAt(eps', kv', e) {
      assert EndpointAt(eps, kv, e);
      EndpointKeyID(e);
    }
  }

  lemma DeleteAgrees(eps: map<string, int>, kv: map<string, string>, key: string)
    requires EndpointsAgree(eps, kv)
    ensures EndpointsAgree(if IsEndpointKey(key) then eps - {EndpointID(key)} else eps, kv - {key})
  {
    var eps' := if IsEndpointKey(key) then eps - {EndpointID(key)} else eps;
    var kv' := kv - {key};
    forall e ensures EndpointAt(eps', kv', e) {
      assert EndpointAt(eps, kv, e);
      EndpointKeyID(e);
    }
  }

  /** Calls about one node leave what is held about the others alone. */
  lemma OthersAlone(idx: Index, ev: Event, id: string)
    requires id != ev.id
    ensures var idx' := Handle(idx, ev);
      && idx'.localID == idx.localID
      && (id in idx'.nodes <==> id in idx.nodes) && (id in idx.nodes ==> idx'.nodes[id] == idx.nodes[id])
      && (id in idx'.pending <==> id in idx.pending) && (id in idx.pending ==> idx'.pending[id] == idx.pending[id])
  {
  }

  lemma UpsertHandled(idx: Index, seen: Seen, id: string, key: string, value: string)
    requires AgreesAt(idx, seen, id) && id != idx.localID && id in seen && Parses(key, value)
    ensures AgreesAt(HandleUpsert(idx, id, key, value), seen[id := seen[id].(kv := seen[id].kv[key := value])], id)
  {
    var w := seen[id];
    KeysDiffer();
    if id in idx.nodes {
      UpsertAgrees(idx.nodes[id].endpoints, w.kv, key, value);
    } else if id in idx.pending {
      UpsertAgrees(idx.pending[id].endpoints, w.kv, key, value);
    }
  }

  lemma DeleteHandled(idx: Index, seen: Seen, id: string, key: string)
    requires AgreesAt(idx, seen, id) && id != idx.localID && id in seen
    ensures AgreesAt(HandleDelete(idx, id, key), seen[id := seen[id].(kv := seen[id].kv - {key})], id)
  {
    if id in idx.nodes {
      DeleteAgrees(idx.nodes[id].endpoints, seen[id].kv, key);
    } else if id in idx.pending {
      DeleteAgrees(idx.pending[id].endpoints, seen[id].kv, key);
    }
  }

  /** Every in-protocol call keeps the index in agreement. */
  lemma HandleAgrees(idx: Index, seen: Seen, ev: Event)
    requires IndexAgrees(idx, seen) && WatchOne(seen, ev).Some? && ParsesEvent(ev)
    ensures IndexAgrees(Handle(idx, ev), WatchOne(seen, ev).value)
  {
    var idx', seen' := Handle(idx, ev), WatchOne(seen, ev).value;
    forall id ensures AgreesAt(idx', seen', id) {
      assert AgreesAt(idx, seen, id);
      if id != ev.id {
        OthersAlone(idx, ev, id);
      } else if id != idx.localID {
        SelfAgrees(idx, seen, ev);
      }
    }
  }

  lemma SelfAgrees(idx: Index, seen: Seen, ev: Event)
    requires AgreesAt(idx, seen, ev.id) && WatchOne(seen, ev).Some? && ParsesEvent(ev) && ev.id != idx.localID
    ensures AgreesAt(Handle(idx, ev), WatchOne(seen, ev).value, ev.id)
  {
    match ev
    case OnUpsertKey(id, key, value) => UpsertHandled(idx, seen, id, key, value);
    case OnDeleteKey(id, key) => DeleteHandled(idx, seen, id, key);
    case OnJoin(id) =>
      forall e ensures EndpointAt(map[], map[], e) {}
    case _ =>
  }

  lemma {:induction false} HandleAllAgrees(idx: Index, seen: Seen, evs: seq<Event>)
    requires IndexAgrees(idx, seen) && Watch(seen, evs).Some?
    requires forall i :: 0 <= i < |evs| ==> ParsesEvent(evs[i])
    ensures IndexAgrees(HandleAll(idx, evs), Watch(seen, evs).value)
    decreases |evs|
  {
    if evs != [] {
      HandleAgrees(idx, seen, evs[0]);
      HandleAllAgrees(Handle(idx, evs[0]), WatchOne(seen, evs[0]).value, evs[1..]);
    }
  }

  // ---------- Over runs of gossip ----------

  predicate ParsesEntry(e: Entry) {
    !e.internal && !e.deleted ==> Parses(e.key, e.value)
  }

  /** A delta of properly flagged entries whose listener counts are numbers. */
  ghost predicate ProperDelta(op: Op) {
    op.ReceiveDelta? ==>
      forall i, j :: 0 <= i < |op.delta| && 0 <= j < |op.delta[i].entries| ==>
        FlagOk(op.delta[i].entries[j]) && ParsesEntry(op.delta[i].entries[j])
  }

  ghost predicate TraceParses(s: State) {
    forall i :: 0 <= i < |s.trace| ==> ParsesEvent(s.trace[i])
  }

  lemma {:induction false} DropsParse(id: string, m: map<string, Entry>, ks: seq<string>)
    requires forall k :: k in ks ==> k in m
    ensures forall i :: 0 <= i < |DropEvents(id, m, ks)| ==> ParsesEvent(DropEvents(id, m, ks)[i])
    decreases |ks|
  {
    if ks != [] { DropsParse(id, m, ks[1..]); }
  }

  lemma MicroParses(s: State, m: Micro)
    requires TraceParses(s) && Guard(s, m) && (m.MEntry? ==> ParsesEntry(m.e))
    ensures TraceParses(MicroStep(s, m))
  {
    match m
    case MLocal(op) => LocalStep(s, op);
    case MEntry(id, e, now, ord) =>
      if CompactVersion(e).Some? {
        var st := Stored(s.nodes[id], e).entries;
        DropsParse(s.nodes[id].id, st, Range(ord, StaleKeys(st, CompactVersion(e).value)));
      }
    case _ =>
  }

  ghost predicate ProperMicro(m: Micro) {
    m.MEntry? ==> FlagOk(m.e) && ParsesEntry(m.e)
  }

  ghost predicate SyncInv(s: State) {
    WatchInv(s) && TraceParses(s)
  }

  lemma SyncClosed()
    ensures Closed((s: State) => SyncInv(s), (m: Micro) => ProperMicro(m))
  {
    forall s, m | SyncInv(s) && ProperMicro(m) && Guard(s, m) ensures SyncInv(MicroStep(s, m)) {
      MicroKeepsMembers(s, m);
      MicroFlagged(s, m);
      MicroTraceOk(s, m);
      MicroParses(s, m);
    }
  }

  lemma NewIndexAgrees(local: Node)
    ensures IndexAgrees(NewIndex(local), map[])
  {
    forall id ensures AgreesAt(NewIndex(local), map[], id) {}
  }

  /** The index follows gossip state `s`: it agrees with the live entries, the left mark and the
      reachability of every remote node. */
  ghost predicate Refines(idx: Index, s: State) {
    IndexAgrees(idx, Project(s))
  }

  lemma SyncInvRefines(local: Node, s: State)
    requires SyncInv(s)
    ensures Refines(HandleAll(NewIndex(local), s.trace), s)
  {
    NewIndexAgrees(local);
    HandleAllAgrees(NewIndex(local), map[], s.trace);
  }

  lemma RunSynced(localID: string, addr: string, ops: seq<Op>, s: State)
    requires Reaches(Init(localID, addr), ops, s)
    requires forall i :: 0 <= i < |ops| ==> ProperDelta(ops[i])
    ensures SyncInv(s)
  {
    SyncClosed();
    RunKeeps((s: State) => SyncInv(s), (m: Micro) => ProperMicro(m), Init(localID, addr), ops, s);
  }

  /** After any run of gossip, the cluster map built from the watcher calls refines what gossip knows. */
  lemma IndexRefinesGossip(local: Node, addr: string, ops: seq<Op>, s: State)
    requires Reaches(Init(local.id, addr), ops, s)
    requires forall i :: 0 <= i < |ops| ==> ProperDelta(ops[i])
    ensures Refines(HandleAll(NewIndex(local), s.trace), s)
  {
    RunSynced(local.id, addr, ops, s);
    SyncInvRefines(local, s);
  }
}
