/** Membership over all runs: who is known, who is tombstoned, and who is due to expire. */
module Membership {
  import opened GossipState
  import opened Compaction
  import opened Runs

  ghost predicate ExpiryOk(s: State, id: string)
    requires id in s.nodes
  {
    var ns := s.nodes[id];
    if id == s.localID then ns.expiry.None? && !ns.unreachable
    else ns.expiry.Some? <==> ns.left || ns.unreachable
  }

  ghost predicate MemberInv(s: State) {
    && s.localID in s.nodes
    && (forall id :: id in s.nodes ==> s.nodes[id].id == id && NodeWf(s.nodes[id]))
    && (forall id :: id in s.nodes ==> ExpiryOk(s, id))
    && (forall id :: id in s.tombstones ==> id !in s.nodes)
  }

  /** The remote node may be swapped for one that is itself well-formed. */
  lemma PutKeepsMembers(s: State, id: string, ns: NodeState, g: Gauges, tr: seq<Event>)
    requires MemberInv(s) && ns.id == id && NodeWf(ns) && id !in s.tombstones
    requires id == s.localID ==> ns.expiry.None? && !ns.unreachable
    requires id != s.localID ==> (ns.expiry.Some? <==> ns.left || ns.unreachable)
    ensures MemberInv(s.(nodes := s.nodes[id := ns], gauges := g, trace := tr))
  {
  }

  lemma LocalKeepsNode(ns: NodeState, op: Op)
    requires NodeWf(ns) && IsLocal(op) && (op.Compact? ==> !CompactPanics(ns, op.threshold))
    ensures var ns' := LocalNode(ns, op);
      NodeWf(ns') && ns' == ns.(version := ns'.version, entries := ns'.entries, left := ns'.left)
  {
    if op.Compact? { CompactedWf(ns, op.threshold); } else { EntryKeepsNode(ns, op); }
  }

  lemma EntryKeepsNode(ns: NodeState, op: Op)
    requires NodeWf(ns) && (op.Upsert? || op.Delete? || op.Leave?)
    ensures var ns' := LocalNode(ns, op);
      NodeWf(ns') && ns' == ns.(version := ns'.version, entries := ns'.entries, left := ns'.left)
  {
  }

  /** The local node after a local operation. */
  ghost function LocalNode(ns: NodeState, op: Op): NodeState
    requires IsLocal(op) && (op.Compact? ==> !CompactPanics(ns, op.threshold))
  {
    match op
    case Upsert(key, value) => Upserted(ns, key, value)
    case Delete(key) => Deleted(ns, key)
    case Leave => Departed(ns)
    case Compact(threshold) => Compacted(ns, threshold)
  }

  /** A local operation touches the local node and its gauges only. */
  lemma LocalStep(s: State, op: Op)
    requires IsLocal(op) && Enabled(s, op)
    ensures Step(s, op) == SetLocal(s, LocalNode(Local(s), op), Step(s, op).gauges)
  {
    assert s.nodes[s.localID := Local(s)] == s.nodes;
  }

  lemma MicroKeepsMembers(s: State, m: Micro)
    requires MemberInv(s) && Guard(s, m)
    ensures MemberInv(MicroStep(s, m))
  {
    match m
    case MLocal(op) =>
      LocalStep(s, op);
      LocalKeepsNode(Local(s), op);
      PutKeepsMembers(s, s.localID, LocalNode(Local(s), op), Step(s, op).gauges, s.trace);
    case MEntry(_, _, _, _) => EntryKeepsMembers(s, m);
    case MLiveness(_, _, _) => LivenessKeepsMembers(s, m);
    case MDiscover(id, addr) => DiscoverKeepsMembers(s, id, addr);
    case MExpire(id, t) => RemovalKeepsMembers(s, id, t);
    case MForget(_) =>
  }

  lemma DiscoverKeepsMembers(s: State, id: string, addr: string)
    requires MemberInv(s) && id !in s.nodes
    ensures MemberInv(Discover(s, id, addr))
  {
  }

  lemma RemovalKeepsMembers(s: State, id: string, t: int)
    requires MemberInv(s) && id in s.nodes && IsExpired(s.nodes[id], t)
    ensures MemberInv(RemoveNode(s, id, t))
  {
    assert ExpiryOk(s, id);
  }

  lemma EntryKeepsMembers(s: State, m: Micro)
    requires MemberInv(s) && m.MEntry? && Guard(s, m)
    ensures MemberInv(MicroStep(s, m))
  {
    AppliedWf(s.nodes[m.id], m.e, m.enow);
    var w := ApplyEntry(WorkOf(s, m.id), m.e, m.enow, m.eord);
    PutKeepsMembers(s, m.id, w.ns, w.gauges, w.trace);
  }

  lemma LivenessKeepsMembers(s: State, m: Micro)
    requires MemberInv(s) && m.MLiveness? && Guard(s, m)
    ensures MemberInv(MicroStep(s, m))
  {
    var s' := MicroStep(s, m);
    PutKeepsMembers(s, m.lid, s'.nodes[m.lid], s'.gauges, s'.trace);
  }

  lemma MembersClosed()
    ensures Closed((s: State) => MemberInv(s), (m: Micro) => true)
  {
    forall s, m | MemberInv(s) && Guard(s, m) ensures MemberInv(MicroStep(s, m)) {
      MicroKeepsMembers(s, m);
    }
  }

  /** Whatever a node receives and whenever it looks at the clock: the local node stays known and never
      expires, no known node is tombstoned, and a remote is due to expire exactly when it left or is
      unreachable. */
  lemma MembershipAlways(localID: string, addr: string, ops: seq<Op>, s: State)
    requires Reaches(Init(localID, addr), ops, s)
    ensures MemberInv(s) && StateWf(s)
  {
    MembersClosed();
    RunKeeps((s: State) => MemberInv(s), (m: Micro) => true, Init(localID, addr), ops, s);
  }

  // ---------- What one operation may do to a node that stays known ----------

  /** Nodes known before and after keep their identity, never lose a version or the left mark. */
  ghost predicate Grows(s: State, s': State) {
    forall id :: id in s.nodes && id in s'.nodes ==> GrowsNode(s.nodes[id], s'.nodes[id])
  }

  ghost predicate GrowsNode(ns: NodeState, ns': NodeState) {
    ns.version <= ns'.version && (ns.left ==> ns'.left) && ns.addr == ns'.addr
  }

  lemma LivenessGrows(s: State, t: State, m: Micro)
    requires Grows(s, t) && m.MLiveness? && Guard(t, m)
    ensures Grows(s, MicroStep(t, m)) && MicroStep(t, m).nodes.Keys == t.nodes.Keys
  {
    PutGrows(s, t, m.lid, MicroStep(t, m).nodes[m.lid], MicroStep(t, m));
  }

  lemma PutGrows(s: State, t: State, id: string, ns: NodeState, t': State)
    requires Grows(s, t) && id in t.nodes && GrowsNode(t.nodes[id], ns) && t'.nodes == t.nodes[id := ns]
    ensures Grows(s, t')
  {
  }

  lemma MicroGrows(s: State, t: State, m: Micro)
    requires MemberInv(t) && Grows(s, t) && Guard(t, m)
    requires s.nodes.Keys <= t.nodes.Keys || !m.MDiscover?
    ensures Grows(s, MicroStep(t, m))
    ensures s.nodes.Keys <= t.nodes.Keys && !m.MExpire? ==> s.nodes.Keys <= MicroStep(t, m).nodes.Keys
  {
    var t' := MicroStep(t, m);
    match m
    case MLocal(op) =>
      LocalGrows(t, op);
      PutGrows(s, t, t.localID, LocalNode(Local(t), op), t');
    case MEntry(id, e, now, ord) =>
      PutGrows(s, t, id, Applied(t.nodes[id], e, now), t');
    case MLiveness(_, _, _) => LivenessGrows(s, t, m);
    case MDiscover(id, addr) => assert id !in s.nodes;
    case MExpire(_, _) =>
    case MForget(_) =>
  }

  lemma LocalGrows(s: State, op: Op)
    requires MemberInv(s) && IsLocal(op) && Enabled(s, op)
    ensures var ns, ns' := Local(s), LocalNode(Local(s), op);
      Step(s, op).nodes == s.nodes[s.localID := ns'] && GrowsNode(ns, ns')
  {
    LocalStep(s, op);
    LocalKeepsNode(Local(s), op);
    if op.Compact? { CarryoverWf(Local(s)); }
  }

  /** No operation rolls a known node back: its version never decreases, and left is for good. */
  lemma StepGrows(s: State, op: Op)
    requires MemberInv(s) && Enabled(s, op)
    ensures Grows(s, Step(s, op))
    ensures !op.RemoveExpired? ==> s.nodes.Keys <= Step(s, op).nodes.Keys
  {
    if op.RemoveExpired? {
      var inv := (t: State) => MemberInv(t) && Grows(s, t);
      var ok := (m: Micro) => !m.MDiscover?;
      forall t, m | inv(t) && ok(m) && Guard(t, m) ensures inv(MicroStep(t, m)) {
        MicroGrows(s, t, m);
        MicroKeepsMembers(t, m);
      }
      StepKeeps(inv, ok, s, op);
    } else {
      var inv := (t: State) => MemberInv(t) && Grows(s, t) && s.nodes.Keys <= t.nodes.Keys;
      var ok := (m: Micro) => !m.MExpire?;
      forall t, m | inv(t) && ok(m) && Guard(t, m) ensures inv(MicroStep(t, m)) {
        MicroGrows(s, t, m);
        MicroKeepsMembers(t, m);
      }
      StepKeeps(inv, ok, s, op);
    }
  }

  // ---------- What a local update costs ----------

  /** Saying the same thing again changes nothing, so it is not gossiped again. */
  lemma LocalTwice(s: State, op: Op)
    requires (op.Upsert? || op.Delete? || op.Leave?) && Enabled(s, op)
    ensures Enabled(Step(s, op), op) && Step(Step(s, op), op) == Step(s, op)
  {
  }

  /** The entry under the key, which the operation names, is all that changed, and has the next version. */
  ghost predicate OneEntry(ns: NodeState, ns': NodeState, key: string) {
    && ns'.version == ns.version + 1 && key in ns'.entries && ns'.entries[key].version == ns'.version
    && ns'.entries == ns.entries[key := ns'.entries[key]]
  }

  /** A local update that changes anything takes one version, for one entry. */
  lemma LocalTakesOne(ns: NodeState, op: Op)
    requires Keyed(ns.entries) && (op.Upsert? || op.Delete? || op.Leave?)
    ensures var ns', key := LocalNode(ns, op), if op.Leave? then LEFT_KEY else op.key;
      ns' == ns || (OneEntry(ns, ns', key) && ns'.entries[key].key == key && (ns'.entries[key].deleted <==> op.Delete?))
  {
  }
}
