/** When nodes are marked unreachable and when they are removed, told by the clocks the operations had and the
    calls they made. */
module Expiry {
  import opened Strconv
  import opened GossipState
  import opened Runs
  import opened Membership
  import opened Watching

  /** The operation's clock; local updates do not look at one. */
  function Clock(op: Op): int {
    match op
    case ReceiveDelta(_, _, now, _) => now
    case CheckLiveness(_, now, _) => now
    case RemoveExpired(t, _) => t
    case _ => 0
  }

  predicate Marks(ev: Event) {
    ev.OnLeave? || ev.OnUnreachable?
  }

  /** When each node was last reported as left or unreachable. */
  type Reported = map<string, int>

  /** The same after more calls, made at time `now`. */
  function Note(r: Reported, evs: seq<Event>, now: int): Reported
    decreases |evs|
  {
    if evs == [] then r
    else
      var before, ev := Note(r, evs[..|evs| - 1], now), evs[|evs| - 1];
      if Marks(ev) then before[ev.id := now] else before
  }

  /** The operations can be done one after the other. */
  ghost predicate Runnable(s: State, ops: seq<Op>)
    decreases |ops|
  {
    ops != [] ==> Enabled(s, ops[0]) && Runnable(Step(s, ops[0]), ops[1..])
  }

  /** After a run: for each node, the clock of the last operation that reported it as left or unreachable. */
  ghost function LastReports(s: State, ops: seq<Op>, r: Reported): Reported
    requires Runnable(s, ops)
    decreases |ops|
  {
    if ops == [] then r
    else
      var s' := Step(s, ops[0]);
      LastReports(s', ops[1..], Note(r, NewEvents(s, s'), Clock(ops[0])))
  }

  // ---------- The invariant ----------

  predicate Lost(ns: NodeState) {
    ns.left || ns.unreachable
  }

  ghost predicate DueAt(s: State, r: Reported, id: string) {
    id in s.nodes && id != s.localID && Lost(s.nodes[id]) ==>
      id in r && s.nodes[id].expiry == Some(r[id] + NODE_EXPIRY)
  }

  ghost predicate Due(s: State, r: Reported) {
    forall id :: DueAt(s, r, id)
  }

  /** On the way through one operation that started in `s0`. */
  ghost predicate DueSince(s0: State, r: Reported, now: int, t: State) {
    && MemberInv(t) && t.localID == s0.localID && s0.trace <= t.trace
    && Due(t, Note(r, t.trace[|s0.trace|..], now))
  }

  predicate AtTime(m: Micro, now: int) {
    (m.MEntry? ==> m.enow == now) && (m.MLiveness? ==> m.lnow == now)
  }

  lemma NoteOne(r: Reported, evs: seq<Event>, ev: Event, now: int)
    ensures Note(r, evs + [ev], now) == if Marks(ev) then Note(r, evs, now)[ev.id := now] else Note(r, evs, now)
  {
    assert (evs + [ev])[..|evs|] == evs;
  }

  ghost predicate Unmarked(evs: seq<Event>) {
    forall i :: 0 <= i < |evs| ==> !Marks(evs[i])
  }

  lemma {:induction false} NoteQuiet(r: Reported, evs: seq<Event>, more: seq<Event>, now: int)
    requires Unmarked(more)
    ensures Note(r, evs + more, now) == Note(r, evs, now)
    decreases |more|
  {
    if more == [] {
      assert evs + more == evs;
    } else {
      var init := more[..|more| - 1];
      NoteQuiet(r, evs, init, now);
      NoteOne(r, evs + init, more[|more| - 1], now);
      assert evs + more == evs + init + [more[|more| - 1]];
    }
  }

  lemma {:induction false} DropsQuiet(id: string, m: map<string, Entry>, ks: seq<string>)
    requires forall k :: k in ks ==> k in m
    ensures Unmarked(DropEvents(id, m, ks))
    decreases |ks|
  {
    if ks != [] { DropsQuiet(id, m, ks[1..]); }
  }

  lemma EntryQuiet(ns: NodeState, e: Entry, ord: MapOrder)
    requires !IsLeft(e)
    ensures Unmarked(EntryEvents(ns, e, ord))
  {
    if e.internal && CompactVersion(e).Some? {
      var m := Stored(ns, e).entries;
      DropsQuiet(ns.id, m, Range(ord, StaleKeys(m, CompactVersion(e).value)));
    }
  }

  /** The node changes, the others do not, and the report of it is kept in step. */
  lemma DuePut(t: State, t': State, r: Reported, r': Reported, id: string)
    requires Due(t, r) && t'.localID == t.localID && DueAt(t', r', id)
    requires forall j :: j != id && j in t'.nodes ==> j in t.nodes && t'.nodes[j] == t.nodes[j]
    requires forall j :: j != id && j in r ==> j in r' && r'[j] == r[j]
    ensures Due(t', r')
  {
    forall j ensures DueAt(t', r', j) { assert DueAt(t, r, j); }
  }

  lemma LeftDue(t: State, t': State, r: Reported, evs: seq<Event>, id: string, ns: NodeState, now: int)
    requires Due(t, Note(r, evs, now)) && t'.localID == t.localID && t'.nodes == t.nodes[id := ns]
    requires ns.expiry == Some(now + NODE_EXPIRY)
    ensures Due(t', Note(r, evs + [OnLeave(id)], now))
  {
    NoteOne(r, evs, OnLeave(id), now);
    DuePut(t, t', Note(r, evs, now), Note(r, evs + [OnLeave(id)], now), id);
  }

  lemma PlainDue(
    t: State, t': State, r: Reported, evs: seq<Event>, more: seq<Event>, id: string, ns: NodeState, now: int)
    requires Due(t, Note(r, evs, now)) && t'.localID == t.localID && id in t.nodes && t'.nodes == t.nodes[id := ns]
    requires Lost(ns) == Lost(t.nodes[id]) && ns.expiry == t.nodes[id].expiry && Unmarked(more)
    ensures Due(t', Note(r, evs + more, now))
  {
    NoteQuiet(r, evs, more, now);
    assert DueAt(t, Note(r, evs, now), id);
    DuePut(t, t', Note(r, evs, now), Note(r, evs + more, now), id);
  }

  lemma EntryDue(t: State, r: Reported, evs: seq<Event>, id: string, e: Entry, now: int, ord: MapOrder)
    requires MemberInv(t) && Due(t, Note(r, evs, now)) && Guard(t, MEntry(id, e, now, ord))
    ensures Due(MicroStep(t, MEntry(id, e, now, ord)), Note(r, evs + EntryEvents(t.nodes[id], e, ord), now))
  {
    var ns, t' := t.nodes[id], MicroStep(t, MEntry(id, e, now, ord));
    if IsLeft(e) {
      LeftDue(t, t', r, evs, id, Applied(ns, e, now), now);
    } else {
      EntryQuiet(ns, e, ord);
      PlainDue(t, t', r, evs, EntryEvents(ns, e, ord), id, Applied(ns, e, now), now);
    }
  }

  lemma LivenessDue(t: State, r: Reported, evs: seq<Event>, id: string, suspect: bool, now: int)
    requires Due(t, Note(r, evs, now)) && Guard(t, MLiveness(id, suspect, now))
    ensures Due(MicroStep(t, MLiveness(id, suspect, now)), Note(r, evs + [LivenessEvent(id, suspect)], now))
  {
    NoteOne(r, evs, LivenessEvent(id, suspect), now);
    DuePut(t, MicroStep(t, MLiveness(id, suspect, now)), Note(r, evs, now),
           Note(r, evs + [LivenessEvent(id, suspect)], now), id);
  }

  lemma OtherDue(t: State, t': State, r: Reported, evs: seq<Event>, ev: Event, id: string, now: int)
    requires Due(t, Note(r, evs, now)) && t'.localID == t.localID && !Marks(ev)
    requires id in t'.nodes ==> !Lost(t'.nodes[id])
    requires forall j :: j != id && j in t'.nodes ==> j in t.nodes && t'.nodes[j] == t.nodes[j]
    ensures Due(t', Note(r, evs + [ev], now))
  {
    NoteOne(r, evs, ev, now);
    DuePut(t, t', Note(r, evs, now), Note(r, evs + [ev], now), id);
  }

  lemma LocalDue(t: State, op: Op, r: Reported)
    requires Due(t, r) && IsLocal(op) && Enabled(t, op)
    ensures Due(Step(t, op), r) && Step(t, op).trace == t.trace && Step(t, op).localID == t.localID
  {
    LocalStep(t, op);
    DuePut(t, Step(t, op), r, r, t.localID);
  }

  /** The calls a small step makes. */
  ghost function MicroEvents(t: State, m: Micro): seq<Event>
    requires Guard(t, m)
  {
    match m
    case MEntry(id, e, _, ord) => EntryEvents(t.nodes[id], e, ord)
    case MLiveness(id, suspect, _) => [LivenessEvent(id, suspect)]
    case MDiscover(id, _) => [OnJoin(id)]
    case MExpire(id, _) => [OnExpired(id)]
    case _ => []
  }

  lemma MicroCalls(t: State, m: Micro)
    requires Guard(t, m)
    ensures MicroStep(t, m).trace == t.trace + MicroEvents(t, m) && MicroStep(t, m).localID == t.localID
  {
    if m.MLocal? { LocalStep(t, m.op); }
    assert t.trace + [] == t.trace;
  }

  lemma MicroNoted(r: Reported, evs: seq<Event>, now: int, t: State, m: Micro)
    requires MemberInv(t) && Due(t, Note(r, evs, now)) && Guard(t, m) && AtTime(m, now)
    ensures Due(MicroStep(t, m), Note(r, evs + MicroEvents(t, m), now))
  {
    var t' := MicroStep(t, m);
    match m
    case MEntry(id, e, _, ord) => EntryDue(t, r, evs, id, e, now, ord);
    case MLiveness(id, suspect, _) => LivenessDue(t, r, evs, id, suspect, now);
    case MDiscover(id, _) => OtherDue(t, t', r, evs, OnJoin(id), id, now);
    case MExpire(id, _) => OtherDue(t, t', r, evs, OnExpired(id), id, now);
    case MLocal(op) =>
      assert evs + [] == evs;
      LocalDue(t, op, Note(r, evs, now));
    case MForget(_) =>
      assert evs + [] == evs;
      DuePut(t, t', Note(r, evs, now), Note(r, evs, now), t.localID);
  }

  lemma CallsSince(trace: seq<Event>, more: seq<Event>, start: seq<Event>)
    requires start <= trace
    ensures start <= trace + more && (trace + more)[|start|..] == trace[|start|..] + more
  {
  }

  lemma MicroDue(s0: State, r: Reported, now: int, t: State, m: Micro)
    requires DueSince(s0, r, now, t) && Guard(t, m) && AtTime(m, now)
    ensures DueSince(s0, r, now, MicroStep(t, m))
  {
    MicroKeepsMembers(t, m);
    MicroCalls(t, m);
    MicroNoted(r, t.trace[|s0.trace|..], now, t, m);
    CallsSince(t.trace, MicroEvents(t, m), s0.trace);
  }

  lemma StepDue(s: State, op: Op, r: Reported)
    requires MemberInv(s) && Due(s, r) && Enabled(s, op)
    ensures var s' := Step(s, op); MemberInv(s') && Due(s', Note(r, NewEvents(s, s'), Clock(op)))
  {
    var inv, ok := (t: State) => DueSince(s, r, Clock(op), t), (m: Micro) => AtTime(m, Clock(op));
    forall t, m | inv(t) && ok(m) && Guard(t, m) ensures inv(MicroStep(t, m)) {
      MicroDue(s, r, Clock(op), t, m);
    }
    assert s.trace[|s.trace|..] == [];
    StepKeeps(inv, ok, s, op);
  }

  lemma {:induction false} RunDue(s: State, ops: seq<Op>, s': State, r: Reported)
    requires MemberInv(s) && Due(s, r) && Reaches(s, ops, s')
    ensures Runnable(s, ops) && MemberInv(s') && Due(s', LastReports(s, ops, r))
    decreases |ops|
  {
    if ops != [] {
      StepDue(s, ops[0], r);
      RunDue(Step(s, ops[0]), ops[1..], s', Note(r, NewEvents(s, Step(s, ops[0])), Clock(ops[0])));
    }
  }

  // ---------- The results ----------

  lemma {:induction false} RemovalIs(s: State, ids: seq<string>, t: int, id: string)
    ensures id in RemoveNodes(s, ids, t).nodes <==> id in s.nodes && id !in ids
    ensures s.trace <= RemoveNodes(s, ids, t).trace
    ensures id in ids ==> OnExpired(id) in RemoveNodes(s, ids, t).trace[|s.trace|..]
    decreases |ids|
  {
    if ids != [] {
      var s1, s' := RemoveNode(s, ids[0], t), RemoveNodes(s, ids, t);
      RemovalIs(s1, ids[1..], t, id);
      assert s'.trace[|s.trace|..] == [OnExpired(ids[0])] + s'.trace[|s1.trace|..];
    }
  }

  /** In every run: a known remote is removed, with a call that says so, exactly when it is left or unreachable
      and more than the expiry time has passed since the last operation that reported it as such. */
  lemma RemovedIff(localID: string, addr: string, ops: seq<Op>, s: State, id: string, t: int, ord: MapOrder)
    requires Reaches(Init(localID, addr), ops, s) && id in s.nodes && id != localID
    ensures Runnable(Init(localID, addr), ops) && Enabled(s, RemoveExpired(t, ord))
    ensures var s', last := Step(s, RemoveExpired(t, ord)), LastReports(Init(localID, addr), ops, map[]);
      && (Lost(s.nodes[id]) ==> id in last)
      && (id !in s'.nodes <==> Lost(s.nodes[id]) && t > last[id] + NODE_EXPIRY)
      && (id !in s'.nodes ==> OnExpired(id) in NewEvents(s, s'))
  {
    var s0 := Init(localID, addr);
    RunDue(s0, ops, s, map[]);
    LocalIDStays(s0, ops, s);
    assert DueAt(s, LastReports(s0, ops, map[]), id) && ExpiryOk(s, id);
    RemovalIs(s.(tombstones := ForgetTombstones(s.tombstones, t)), Range(ord, ExpiredIDs(s, t)), t, id);
  }

  lemma LocalIDStays(s: State, ops: seq<Op>, s': State)
    requires Reaches(s, ops, s')
    ensures s'.localID == s.localID
  {
    var inv, ok := (t: State) => t.localID == s.localID, (m: Micro) => true;
    forall t, m | inv(t) && Guard(t, m) ensures inv(MicroStep(t, m)) {
      if m.MLocal? { LocalStep(t, m.op); }
    }
    RunKeeps(inv, ok, s, ops, s');
  }

  lemma {:induction false} VerdictsSet(s: State, ids: seq<string>, suspected: set<string>, now: int, id: string)
    requires id in s.nodes && (forall j :: j in ids ==> j in s.nodes)
    ensures var s' := UpdateNodes(s, ids, suspected, now);
      && id in s'.nodes && s'.localID == s.localID && s'.nodes[id].left == s.nodes[id].left
      && s'.nodes[id].unreachable
         == if id in ids && id != s.localID && !s.nodes[id].left then id in suspected else s.nodes[id].unreachable
    decreases |ids|
  {
    if ids != [] { VerdictsSet(UpdateNode(s, ids[0], suspected, now), ids[1..], suspected, now, id); }
  }

  /** A liveness check leaves exactly the suspected nodes unreachable, of those that have not left. */
  lemma VerdictsTaken(s: State, suspected: set<string>, now: int, ord: MapOrder, id: string)
    requires id in s.nodes && id != s.localID && !s.nodes[id].left
    ensures var s' := UpdateLiveness(s, suspected, now, ord);
      id in s'.nodes && (s'.nodes[id].unreachable <==> id in suspected)
  {
    VerdictsSet(s, Range(ord, s.nodes.Keys), suspected, now, id);
  }
}
