/** Runs of one node's gossip state under arbitrary inputs, and how to prove something of all of them:
    every operation is made of small steps, so what all small steps keep, all runs keep. */
module Runs {
  import opened GossipState

  /** A locked method of `clusterState`, with the inputs it is called with. */
  datatype Op =
    | Upsert(key: string, value: string)
    | Delete(key: string)
    | Leave
    | Compact(threshold: int)
    | ReceiveDigest(sender: string, digest: Digest)
    | ReceiveDelta(sender: string, delta: Delta, now: int, ord: MapOrder)
    | RemoveExpired(t: int, ord: MapOrder)
    | CheckLiveness(suspected: set<string>, now: int, ord: MapOrder)

  ghost predicate Enabled(s: State, op: Op) {
    s.localID in s.nodes && (op.Compact? ==> !CompactPanics(Local(s), op.threshold))
  }

  ghost function Step(s: State, op: Op): State
    requires Enabled(s, op)
  {
    match op
    case Upsert(key, value) => UpsertLocal(s, key, value)
    case Delete(key) => DeleteLocal(s, key)
    case Leave => LeaveLocal(s)
    case Compact(threshold) => CompactLocal(s, threshold)
    case ReceiveDigest(sender, digest) => ApplyDigest(s, sender, digest)
    case ReceiveDelta(sender, delta, now, ord) => ApplyDelta(s, sender, delta, now, ord)
    case RemoveExpired(t, ord) => RemoveExpiredAt(s, t, ord)
    case CheckLiveness(suspected, now, ord) => UpdateLiveness(s, suspected, now, ord)
  }

  ghost predicate Reaches(s: State, ops: seq<Op>, s': State)
    decreases |ops|
  {
    if ops == [] then s == s'
    else Enabled(s, ops[0]) && Reaches(Step(s, ops[0]), ops[1..], s')
  }

  // ---------- Small steps ----------

  datatype Micro =
    | MLocal(op: Op)
    | MDiscover(did: string, addr: string)
    | MEntry(id: string, e: Entry, enow: int, eord: MapOrder)
    | MForget(ft: int)
    | MExpire(xid: string, xt: int)
    | MLiveness(lid: string, suspect: bool, lnow: int)

  predicate IsLocal(op: Op) {
    op.Upsert? || op.Delete? || op.Leave? || op.Compact?
  }

  /** Steps that change no entries. */
  predicate QuietKind(m: Micro) {
    m.MDiscover? || m.MForget? || m.MExpire? || m.MLiveness?
  }

  ghost predicate Guard(s: State, m: Micro) {
    match m
    case MLocal(op) => IsLocal(op) && Enabled(s, op)
    case MDiscover(id, _) => id !in s.nodes
    case MEntry(id, e, _, _) => id in s.nodes && id != s.localID && e.version > s.nodes[id].version
    case MForget(_) => true
    case MExpire(id, t) => id in s.nodes && IsExpired(s.nodes[id], t)
    case MLiveness(id, suspect, _) =>
      id in s.nodes && id != s.localID && !s.nodes[id].left && s.nodes[id].unreachable != suspect
  }

  ghost function MicroStep(s: State, m: Micro): State
    requires Guard(s, m)
  {
    match m
    case MLocal(op) => Step(s, op)
    case MDiscover(id, addr) => Discover(s, id, addr)
    case MEntry(id, e, now, ord) => SetWork(s, id, ApplyEntry(WorkOf(s, id), e, now, ord))
    case MForget(t) => s.(tombstones := ForgetTombstones(s.tombstones, t))
    case MExpire(id, t) => RemoveNode(s, id, t)
    case MLiveness(id, suspect, now) => UpdateNode(s, id, if suspect then {id} else {}, now)
  }

  /** `inv` survives every small step that `ok` admits. */
  ghost predicate Closed(inv: State -> bool, ok: Micro -> bool) {
    forall s, m :: inv(s) && ok(m) && Guard(s, m) ==> inv(MicroStep(s, m))
  }

  /** `ok` admits every small step the operation is made of. */
  ghost predicate Admits(ok: Micro -> bool, op: Op) {
    match op
    case ReceiveDigest(sender, digest) => forall id, addr :: ok(MDiscover(id, addr))
    case ReceiveDelta(sender, delta, now, ord) =>
      && (forall id, addr :: ok(MDiscover(id, addr)))
      && (forall i :: 0 <= i < |delta| ==> EntriesAdmitted(ok, delta[i].id, delta[i].entries, now, ord))
    case RemoveExpired(t, ord) => ok(MForget(t)) && forall id :: ok(MExpire(id, t))
    case CheckLiveness(suspected, now, ord) => forall id, b :: ok(MLiveness(id, b, now))
    case _ => ok(MLocal(op))
  }

  ghost predicate EntriesAdmitted(ok: Micro -> bool, id: string, es: seq<Entry>, now: int, ord: MapOrder) {
    forall i :: 0 <= i < |es| ==> ok(MEntry(id, es[i], now, ord))
  }

  lemma {:induction false} DigestKeeps(inv: State -> bool, ok: Micro -> bool, s: State, sender: string, digest: Digest)
    requires Closed(inv, ok) && inv(s) && forall id, addr :: ok(MDiscover(id, addr))
    ensures inv(ApplyDigest(s, sender, digest))
    decreases |digest|
  {
    if digest != [] {
      var d := digest[0];
      if !(d.id in s.nodes || d.left || Tombstoned(s, d.id, sender)) {
        assert ok(MDiscover(d.id, d.addr)) && Guard(s, MDiscover(d.id, d.addr));
        assert inv(MicroStep(s, MDiscover(d.id, d.addr)));
      }
      DigestKeeps(inv, ok, ApplyDigestEntry(s, sender, d), sender, digest[1..]);
    }
  }

  lemma {:induction false} EntriesKeep(
    inv: State -> bool, ok: Micro -> bool, s: State, id: string, es: seq<Entry>, now: int, ord: MapOrder)
    requires Closed(inv, ok) && inv(s) && id in s.nodes && id != s.localID
    requires EntriesAdmitted(ok, id, es, now, ord)
    ensures inv(SetWork(s, id, ApplyEntries(WorkOf(s, id), es, now, ord)))
    decreases |es|
  {
    if es == [] {
      assert SetWork(s, id, WorkOf(s, id)) == s;
    } else {
      var m := MEntry(id, es[0], now, ord);
      var s' := SetWork(s, id, ApplyEntry(WorkOf(s, id), es[0], now, ord));
      if es[0].version > s.nodes[id].version {
        assert ok(m) && Guard(s, m);
        assert s' == MicroStep(s, m);
      } else {
        assert s' == s;
      }
      EntriesKeep(inv, ok, s', id, es[1..], now, ord);
      assert forall w :: SetWork(s', id, w) == SetWork(s, id, w);
    }
  }

  lemma {:induction false} DeltaKeeps(
    inv: State -> bool, ok: Micro -> bool, s: State, sender: string, delta: Delta, now: int, ord: MapOrder)
    requires Closed(inv, ok) && inv(s) && Admits(ok, ReceiveDelta(sender, delta, now, ord))
    ensures inv(ApplyDelta(s, sender, delta, now, ord))
    decreases |delta|
  {
    if delta != [] {
      var de := delta[0];
      var s' := ApplyDeltaEntry(s, sender, de, now, ord);
      if !Discards(s, sender, de.id) {
        var s1 := Discovered(s, de.id, de.addr);
        if de.id !in s.nodes {
          assert ok(MDiscover(de.id, de.addr)) && Guard(s, MDiscover(de.id, de.addr));
          assert s1 == MicroStep(s, MDiscover(de.id, de.addr));
        }
        EntriesKeep(inv, ok, s1, de.id, de.entries, now, ord);
      }
      DeltaKeeps(inv, ok, s', sender, delta[1..], now, ord);
    }
  }

  lemma {:induction false} RemovalKeeps(inv: State -> bool, ok: Micro -> bool, s: State, ids: seq<string>, t: int)
    requires Closed(inv, ok) && inv(s) && forall id :: ok(MExpire(id, t))
    requires forall i :: 0 <= i < |ids| ==> ids[i] in s.nodes && IsExpired(s.nodes[ids[i]], t)
    requires forall i, j :: 0 <= i < j < |ids| ==> ids[i] != ids[j]
    ensures inv(RemoveNodes(s, ids, t))
    decreases |ids|
  {
    if ids != [] {
      assert ok(MExpire(ids[0], t)) && Guard(s, MExpire(ids[0], t));
      assert RemoveNode(s, ids[0], t) == MicroStep(s, MExpire(ids[0], t));
      RemovalKeeps(inv, ok, RemoveNode(s, ids[0], t), ids[1..], t);
    }
  }

  lemma {:induction false} LivenessKeeps(
    inv: State -> bool, ok: Micro -> bool, s: State, ids: seq<string>, suspected: set<string>, now: int)
    requires Closed(inv, ok) && inv(s) && forall id, b :: ok(MLiveness(id, b, now))
    requires forall id :: id in ids ==> id in s.nodes
    ensures inv(UpdateNodes(s, ids, suspected, now))
    decreases |ids|
  {
    if ids != [] {
      var id := ids[0];
      var m := MLiveness(id, id in suspected, now);
      if Guard(s, m) {
        assert ok(m);
        assert UpdateNode(s, id, suspected, now) == MicroStep(s, m);
      }
      LivenessKeeps(inv, ok, UpdateNode(s, id, suspected, now), ids[1..], suspected, now);
    }
  }

  /** What every small step keeps, every operation keeps. */
  lemma StepKeeps(inv: State -> bool, ok: Micro -> bool, s: State, op: Op)
    requires Closed(inv, ok) && inv(s) && Admits(ok, op) && Enabled(s, op)
    ensures inv(Step(s, op))
  {
    match op
    case ReceiveDigest(sender, digest) => DigestKeeps(inv, ok, s, sender, digest);
    case ReceiveDelta(sender, delta, now, ord) => DeltaKeeps(inv, ok, s, sender, delta, now, ord);
    case RemoveExpired(t, ord) =>
      var m := MForget(t);
      assert ok(m) && Guard(s, m);
      var s' := MicroStep(s, m);
      assert inv(s');
      var ids := Range(ord, ExpiredIDs(s, t));
      forall i | 0 <= i < |ids| ensures ids[i] in s'.nodes && IsExpired(s'.nodes[ids[i]], t) {
        assert ids[i] in ExpiredIDs(s, t);
      }
      RemovalKeeps(inv, ok, s', ids, t);
    case CheckLiveness(suspected, now, ord) =>
      LivenessKeeps(inv, ok, s, Range(ord, s.nodes.Keys), suspected, now);
    case _ =>
      assert ok(MLocal(op)) && Guard(s, MLocal(op));
      assert inv(MicroStep(s, MLocal(op)));
  }

  /** What every small step keeps holds after every run. */
  lemma {:induction false} RunKeeps(inv: State -> bool, ok: Micro -> bool, s: State, ops: seq<Op>, s': State)
    requires Closed(inv, ok) && inv(s) && Reaches(s, ops, s')
    requires forall i :: 0 <= i < |ops| ==> Admits(ok, ops[i])
    ensures inv(s')
    decreases |ops|
  {
    if ops != [] {
      StepKeeps(inv, ok, s, ops[0]);
      RunKeeps(inv, ok, Step(s, ops[0]), ops[1..], s');
    }
  }
}
