/** What a watcher can rely on: the calls it gets, replayed from the start, follow the protocol of the
    Watcher interface and rebuild exactly what gossip knows about every remote node. */
module Watching {
  import opened Strconv
  import opened GossipState
  import opened Runs
  import opened Membership

  /** What a watcher knows about one node. */
  datatype Watched = Watched(kv: map<string, string>, left: bool, unreachable: bool)
  type Seen = map<string, Watched>

  /** One call; None when the call is out of protocol. */
  function WatchOne(seen: Seen, ev: Event): Option<Seen> {
    if ev.OnJoin? then
      if ev.id in seen then None else Some(seen[ev.id := Watched(map[], false, false)])
    else if ev.id !in seen then None
    else
      var w := seen[ev.id];
      match ev
      case OnLeave(id) => Some(seen[id := w.(left := true)])
      case OnUnreachable(id) => if w.left || w.unreachable then None else Some(seen[id := w.(unreachable := true)])
      case OnReachable(id) => if w.left || !w.unreachable then None else Some(seen[id := w.(unreachable := false)])
      case OnUpsertKey(id, key, value) => Some(seen[id := w.(kv := w.kv[key := value])])
      case OnDeleteKey(id, key) => Some(seen[id := w.(kv := w.kv - {key})])
      case OnExpired(id) => if w.left || w.unreachable then Some(seen - {id}) else None
  }

  /** A whole trace of calls. */
  function Watch(seen: Seen, evs: seq<Event>): Option<Seen>
    decreases |evs|
  {
    if evs == [] then Some(seen)
    else
      var next := WatchOne(seen, evs[0]);
      if next.None? then None else Watch(next.value, evs[1..])
  }

  lemma {:induction false} WatchAppend(seen: Seen, a: seq<Event>, b: seq<Event>)
    requires Watch(seen, a).Some?
    ensures Watch(seen, a + b) == Watch(Watch(seen, a).value, b)
    decreases |a|
  {
    if a == [] {
      assert a + b == b;
    } else {
      assert (a + b)[1..] == a[1..] + b;
      WatchAppend(WatchOne(seen, a[0]).value, a[1..], b);
    }
  }

  // ---------- What gossip knows, as a watcher would write it down ----------

  function LiveUser(m: map<string, Entry>): map<string, string> {
    map k | k in m && !m[k].internal && !m[k].deleted :: m[k].value
  }

  function Watches(ns: NodeState): Watched {
    Watched(LiveUser(ns.entries), ns.left, ns.unreachable)
  }

  function Project(s: State): Seen {
    map id | id in s.nodes && id != s.localID :: Watches(s.nodes[id])
  }

  /** The internal flag is set on the two internal keys and on no other. */
  predicate FlagOk(e: Entry) {
    e.internal <==> (e.key == LEFT_KEY || e.key == COMPACT_KEY)
  }

  ghost predicate Flagged(op: Op) {
    op.ReceiveDelta? ==>
      forall i, j :: 0 <= i < |op.delta| && 0 <= j < |op.delta[i].entries| ==> FlagOk(op.delta[i].entries[j])
  }

  ghost predicate RemotesFlagged(s: State) {
    forall id, k :: id in s.nodes && id != s.localID && k in s.nodes[id].entries ==> FlagOk(s.nodes[id].entries[k])
  }

  /** The calls so far are in protocol and rebuild what gossip knows. */
  ghost predicate TraceOk(s: State) {
    Watch(map[], s.trace) == Some(Project(s))
  }

  ghost predicate WatchInv(s: State) {
    MemberInv(s) && RemotesFlagged(s) && TraceOk(s)
  }

  // ---------- One entry ----------

  function Forget(seen: Seen, id: string, ks: set<string>): Seen
    requires id in seen
  {
    seen[id := seen[id].(kv := seen[id].kv - ks)]
  }

  lemma ForgetTwice(seen: Seen, id: string, a: set<string>, b: set<string>)
    requires id in seen
    ensures Forget(Forget(seen, id, a), id, b) == Forget(seen, id, a + b)
  {
    assert seen[id].kv - a - b == seen[id].kv - (a + b);
  }

  /** The calls made while stale entries are dropped, in any order, forget exactly their keys. */
  lemma {:induction false} DropsWatched(seen: Seen, id: string, m: map<string, Entry>, ks: seq<string>)
    requires id in seen && forall k :: k in ks ==> k in m
    requires forall k :: k in m && m[k].deleted ==> k !in seen[id].kv
    ensures Watch(seen, DropEvents(id, m, ks)) == Some(Forget(seen, id, set k | k in ks))
    decreases |ks|
  {
    if ks == [] {
      assert seen[id].kv - (set k | k in ks) == seen[id].kv;
      assert seen[id := seen[id]] == seen;
    } else {
      var k, rest := ks[0], ks[1..];
      assert (set k | k in ks) == {k} + (set k | k in rest);
      ForgetTwice(seen, id, {k}, set k | k in rest);
      if m[k].deleted {
        assert seen[id].kv - {k} == seen[id].kv;
        assert Forget(seen, id, {k}) == seen;
        DropsWatched(seen, id, m, rest);
        assert DropEvents(id, m, ks) == DropEvents(id, m, rest);
      } else {
        DropsWatched(Forget(seen, id, {k}), id, m, rest);
        var evs := DropEvents(id, m, ks);
        assert evs[0] == OnDeleteKey(id, k) && evs[1..] == DropEvents(id, m, rest);
      }
    }
  }

  lemma WatchSingle(seen: Seen, ev: Event)
    ensures Watch(seen, [ev]) == WatchOne(seen, ev)
  {
    assert [ev][1..] == [];
  }

  lemma UserEntryWatched(seen: Seen, ns: NodeState, e: Entry, now: int, ord: MapOrder)
    requires ns.id in seen && seen[ns.id] == Watches(ns) && !e.internal
    ensures Watch(seen, EntryEvents(ns, e, ord)) == Some(seen[ns.id := Watches(Applied(ns, e, now))])
  {
    var kv, m := LiveUser(ns.entries), Stored(ns, e).entries;
    if e.deleted {
      WatchSingle(seen, OnDeleteKey(ns.id, e.key));
      assert LiveUser(m) == kv - {e.key};
    } else {
      WatchSingle(seen, OnUpsertKey(ns.id, e.key, e.value));
      assert LiveUser(m) == kv[e.key := e.value];
    }
  }

  lemma CompactWatched(seen: Seen, ns: NodeState, e: Entry, now: int, ord: MapOrder)
    requires ns.id in seen && seen[ns.id] == Watches(ns) && !IsLeft(e) && CompactVersion(e).Some?
    requires LiveUser(Stored(ns, e).entries) == LiveUser(ns.entries)
    ensures Watch(seen, EntryEvents(ns, e, ord)) == Some(seen[ns.id := Watches(Applied(ns, e, now))])
  {
    var m := Stored(ns, e).entries;
    var stale := StaleKeys(m, CompactVersion(e).value);
    DropsWatched(seen, ns.id, m, Range(ord, stale));
    assert (set k | k in Range(ord, stale)) == stale;
    assert LiveUser(m - stale) == LiveUser(m) - stale;
  }

  /** The calls made for one newer entry turn the old record of the node into the new one. */
  lemma EntryWatched(seen: Seen, ns: NodeState, e: Entry, now: int, ord: MapOrder)
    requires ns.id in seen && seen[ns.id] == Watches(ns) && FlagOk(e)
    requires forall k :: k in ns.entries ==> ns.entries[k].key == k && FlagOk(ns.entries[k])
    ensures Watch(seen, EntryEvents(ns, e, ord)) == Some(seen[ns.id := Watches(Applied(ns, e, now))])
  {
    if !e.internal {
      UserEntryWatched(seen, ns, e, now, ord);
    } else {
      var m := Stored(ns, e).entries;
      assert LiveUser(m) == LiveUser(ns.entries);
      if IsLeft(e) {
        WatchSingle(seen, OnLeave(ns.id));
      } else if CompactVersion(e).Some? {
        CompactWatched(seen, ns, e, now, ord);
      } else {
        assert seen[ns.id := seen[ns.id]] == seen;
      }
    }
  }

  // ---------- Small steps and runs ----------

  lemma Extend(s: State, s': State, evs: seq<Event>)
    requires TraceOk(s) && s'.trace == s.trace + evs && Watch(Project(s), evs) == Some(Project(s'))
    ensures TraceOk(s')
  {
    WatchAppend(map[], s.trace, evs);
  }

  lemma EntryMicroWatched(s: State, m: Micro)
    requires m.MEntry? && FlagOk(m.e) && Guard(s, m) && TraceOk(s)
    requires var ns := s.nodes[m.id];
      ns.id == m.id && forall k :: k in ns.entries ==> ns.entries[k].key == k && FlagOk(ns.entries[k])
    ensures TraceOk(MicroStep(s, m))
  {
    var s', ns := MicroStep(s, m), s.nodes[m.id];
    EntryWatched(Project(s), ns, m.e, m.enow, m.eord);
    assert Project(s') == Project(s)[m.id := Watches(Applied(ns, m.e, m.enow))];
    Extend(s, s', EntryEvents(ns, m.e, m.eord));
  }

  lemma DiscoverWatched(s: State, id: string, addr: string)
    requires s.localID in s.nodes && id !in s.nodes && TraceOk(s)
    ensures TraceOk(Discover(s, id, addr))
  {
    var s' := Discover(s, id, addr);
    assert LiveUser(Fresh(id, addr).entries) == map[];
    assert Project(s') == Project(s)[id := Watched(map[], false, false)];
    WatchSingle(Project(s), OnJoin(id));
    Extend(s, s', [OnJoin(id)]);
  }

  lemma RemovalWatched(s: State, id: string, t: int)
    requires id in s.nodes && id != s.localID && (s.nodes[id].left || s.nodes[id].unreachable) && TraceOk(s)
    ensures TraceOk(RemoveNode(s, id, t))
  {
    var s' := RemoveNode(s, id, t);
    assert Project(s') == Project(s) - {id};
    WatchSingle(Project(s), OnExpired(id));
    Extend(s, s', [OnExpired(id)]);
  }

  function LivenessEvent(id: string, suspect: bool): Event {
    if suspect then OnUnreachable(id) else OnReachable(id)
  }

  lemma LivenessStep(s: State, id: string, suspect: bool, now: int)
    requires Guard(s, MLiveness(id, suspect, now))
    ensures var s' := MicroStep(s, MLiveness(id, suspect, now));
      && s'.localID == s.localID && s'.trace == s.trace + [LivenessEvent(id, suspect)]
      && s'.nodes.Keys == s.nodes.Keys && Watches(s'.nodes[id]) == Watches(s.nodes[id]).(unreachable := suspect)
      && forall j :: j in s.nodes && j != id ==> s'.nodes[j] == s.nodes[j]
  {
  }

  lemma LivenessWatched(s: State, m: Micro)
    requires m.MLiveness? && Guard(s, m) && TraceOk(s)
    ensures TraceOk(MicroStep(s, m))
  {
    var s', id := MicroStep(s, m), m.lid;
    LivenessStep(s, id, m.suspect, m.lnow);
    assert Project(s') == Project(s)[id := Project(s)[id].(unreachable := m.suspect)];
    LivenessSeen(Project(s), id, m.suspect);
    Extend(s, s', [LivenessEvent(id, m.suspect)]);
  }

  lemma LivenessSeen(seen: Seen, id: string, suspect: bool)
    requires id in seen && !seen[id].left && seen[id].unreachable != suspect
    ensures Watch(seen, [LivenessEvent(id, suspect)]) == Some(seen[id := seen[id].(unreachable := suspect)])
  {
    WatchSingle(seen, LivenessEvent(id, suspect));
  }

  lemma LocalWatched(s: State, op: Op)
    requires IsLocal(op) && Enabled(s, op) && TraceOk(s)
    ensures TraceOk(Step(s, op))
  {
    LocalStep(s, op);
    assert Project(Step(s, op)) == Project(s);
  }

  lemma MicroTraceOk(s: State, m: Micro)
    requires WatchInv(s) && Guard(s, m) && FlaggedMicro(m)
    ensures TraceOk(MicroStep(s, m))
  {
    match m
    case MEntry(_, _, _, _) => EntryMicroWatched(s, m);
    case MLocal(op) => LocalWatched(s, op);
    case MDiscover(id, addr) => DiscoverWatched(s, id, addr);
    case MForget(_) => assert Project(MicroStep(s, m)) == Project(s);
    case MExpire(id, t) =>
      assert ExpiryOk(s, id);
      RemovalWatched(s, id, t);
    case MLiveness(_, _, _) => LivenessWatched(s, m);
  }

  lemma MicroFlagged(s: State, m: Micro)
    requires RemotesFlagged(s) && Guard(s, m) && FlaggedMicro(m)
    ensures RemotesFlagged(MicroStep(s, m))
  {
    match m
    case MLocal(op) => LocalStep(s, op);
    case MEntry(id, e, now, ord) =>
      assert MicroStep(s, m).nodes == s.nodes[id := Applied(s.nodes[id], e, now)];
    case _ =>
  }

  /** The small steps that deliver properly flagged entries. */
  ghost predicate FlaggedMicro(m: Micro) {
    m.MEntry? ==> FlagOk(m.e)
  }

  lemma WatchClosed()
    ensures Closed((s: State) => WatchInv(s), (m: Micro) => FlaggedMicro(m))
  {
    forall s, m | WatchInv(s) && FlaggedMicro(m) && Guard(s, m) ensures WatchInv(MicroStep(s, m)) {
      MicroKeepsMembers(s, m);
      MicroFlagged(s, m);
      MicroTraceOk(s, m);
    }
  }

  lemma InitWatched(localID: string, addr: string)
    ensures WatchInv(Init(localID, addr))
  {
    assert Project(Init(localID, addr)) == map[];
  }

  /** After any run, the calls made so far are in protocol, and replaying them gives exactly the live
      user entries, the left mark and the reachability of every remote node that is still known. */
  lemma WatcherReplay(localID: string, addr: string, ops: seq<Op>, s: State)
    requires Reaches(Init(localID, addr), ops, s)
    requires forall i :: 0 <= i < |ops| ==> Flagged(ops[i])
    ensures WatchInv(s)
  {
    InitWatched(localID, addr);
    WatchClosed();
    RunKeeps((s: State) => WatchInv(s), (m: Micro) => FlaggedMicro(m), Init(localID, addr), ops, s);
  }

  // ---------- The calls of one operation ----------

  /** The calls the watcher got on the way from `s` to `s'`. */
  function NewEvents(s: State, s': State): seq<Event> {
    if |s.trace| <= |s'.trace| then s'.trace[|s.trace|..] else []
  }

  lemma TraceGrows(s: State, op: Op)
    requires Enabled(s, op)
    ensures s.trace <= Step(s, op).trace
  {
    var inv, ok := (t: State) => s.trace <= t.trace, (m: Micro) => true;
    forall t, m | inv(t) && Guard(t, m) ensures inv(MicroStep(t, m)) {
      if m.MLocal? { LocalStep(t, m.op); }
    }
    StepKeeps(inv, ok, s, op);
  }
}
