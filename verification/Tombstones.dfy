/** A failed node is forgotten for good: nodes that removed it do not pick it up again from nodes that have
    not removed it yet, if and only if nobody still holds it when the first tombstone runs out. */
module Tombstones {
  import opened Strconv
  import opened GossipState
  import opened Runs
  import opened Answering

  /** The live nodes and the clock. `first` is when a node first removed the dead one, and `dropped` are the
      nodes that have removed it; both are kept for the theorem. */
  datatype Cluster = Cluster(nodes: map<string, State>, now: int, first: Option<int>, dropped: set<string>)

  /** Exchanges are atomic: the receiver applies what the sender knows at that instant. */
  datatype Step =
    | Tick(t: int)
    | Exchange(src: string, dst: string, digest: Digest, delta: Delta, ord: MapOrder)
    | Local(n: string, op: Op)
    | Liveness(n: string, suspected: set<string>, ord: MapOrder)
    | Expire(n: string, ord: MapOrder)

  ghost predicate Knows(s: State, digest: Digest, delta: Delta) {
    && (forall i :: 0 <= i < |digest| ==> digest[i].id in s.nodes)
    && (forall i :: 0 <= i < |delta| ==> delta[i].id in s.nodes)
  }

  ghost predicate CanStep(c: Cluster, dead: string, step: Step) {
    && dead !in c.nodes
    && match step
       case Tick(t) => t >= c.now
       case Exchange(src, dst, digest, delta, _) =>
         src in c.nodes && dst in c.nodes && Knows(c.nodes[src], digest, delta)
       case Local(n, op) => n in c.nodes && c.nodes[n].localID == n && IsLocal(op) && Enabled(c.nodes[n], op)
       case Liveness(n, _, _) => n in c.nodes
       case Expire(n, _) => n in c.nodes
  }

  ghost function After(c: Cluster, dead: string, step: Step): Cluster
    requires CanStep(c, dead, step)
  {
    match step
    case Tick(t) => c.(now := t)
    case Exchange(src, dst, digest, delta, ord) =>
      var s := ApplyDigest(c.nodes[dst], src, digest);
      c.(nodes := c.nodes[dst := ApplyDelta(s, src, delta, c.now, ord)])
    case Local(n, op) => c.(nodes := c.nodes[n := Runs.Step(c.nodes[n], op)])
    case Liveness(n, suspected, ord) => c.(nodes := c.nodes[n := UpdateLiveness(c.nodes[n], suspected, c.now, ord)])
    case Expire(n, ord) =>
      var s' := RemoveExpiredAt(c.nodes[n], c.now, ord);
      var c' := c.(nodes := c.nodes[n := s']);
      if dead in c.nodes[n].nodes && dead !in s'.nodes then
        c'.(first := if c.first.None? then Some(c.now) else c.first, dropped := c.dropped + {n})
      else c'
  }

  /** The first tombstone has run out. */
  ghost predicate Late(c: Cluster) {
    c.first.Some? && c.now > c.first.value + NODE_TOMBSTONE_EXPIRY
  }

  ghost predicate NobodyHolds(c: Cluster, dead: string) {
    forall n :: n in c.nodes ==> dead !in c.nodes[n].nodes
  }

  ghost predicate Path(c: Cluster, dead: string, steps: seq<Step>, c': Cluster)
    decreases |steps|
  {
    if steps == [] then c == c'
    else CanStep(c, dead, steps[0]) && Path(After(c, dead, steps[0]), dead, steps[1..], c')
  }

  /** A run in which no node holds the dead one at the moment the first tombstone runs out, if the run gets
      there. Nothing is asked of any other moment. */
  ghost predicate Timely(c: Cluster, dead: string, steps: seq<Step>, c': Cluster)
    decreases |steps|
  {
    if steps == [] then c == c'
    else
      && CanStep(c, dead, steps[0])
      && var c1 := After(c, dead, steps[0]);
         (!Late(c) && Late(c1) ==> NobodyHolds(c1, dead)) && Timely(c1, dead, steps[1..], c')
  }

  /** The node does not hold the dead one, and still has its tombstone unless that has run out. */
  ghost predicate Gone(c: Cluster, s: State, dead: string) {
    && dead !in s.nodes
    && (Late(c) || (c.first.Some? && dead in s.tombstones && s.tombstones[dead] >= c.first.value))
  }

  ghost predicate ForgottenBy(c: Cluster, dead: string, n: string) {
    n in c.nodes && Gone(c, c.nodes[n], dead)
  }

  ghost predicate Dropped(c: Cluster, dead: string) {
    && (forall n :: n in c.dropped ==> ForgottenBy(c, dead, n))
    && (c.first.Some? ==> c.first.value <= c.now)
    && (c.first.None? ==> c.dropped == {})
  }

  ghost predicate Inv(c: Cluster, dead: string) {
    Dropped(c, dead) && (Late(c) ==> NobodyHolds(c, dead))
  }

  /** No node that once removed the dead one holds it. */
  ghost predicate StaysDead(c: Cluster, dead: string) {
    forall n :: n in c.dropped ==> n in c.nodes && dead !in c.nodes[n].nodes
  }

  // ---------- What one node does about the dead one ----------

  /** Hearing about other nodes only, or hearing about it from another node while it is tombstoned. */
  ghost predicate Deaf(s: State, sender: string, dead: string, mentioned: bool) {
    dead !in s.nodes && (!mentioned || Tombstoned(s, dead, sender))
  }

  ghost predicate Unmoved(s: State, s': State, dead: string) {
    && dead !in s'.nodes
    && (dead in s'.tombstones <==> dead in s.tombstones)
    && (dead in s.tombstones ==> s'.tombstones[dead] == s.tombstones[dead])
  }

  lemma {:induction false} DigestUnmoved(s: State, sender: string, digest: Digest, dead: string, mentioned: bool)
    requires Deaf(s, sender, dead, mentioned)
    requires !mentioned ==> forall i :: 0 <= i < |digest| ==> digest[i].id != dead
    ensures Unmoved(s, ApplyDigest(s, sender, digest), dead)
    decreases |digest|
  {
    if digest != [] {
      DigestUnmoved(ApplyDigestEntry(s, sender, digest[0]), sender, digest[1..], dead, mentioned);
    }
  }

  lemma {:induction false} DeltaUnmoved(
    s: State, sender: string, delta: Delta, now: int, ord: MapOrder, dead: string, mentioned: bool)
    requires Deaf(s, sender, dead, mentioned)
    requires !mentioned ==> forall i :: 0 <= i < |delta| ==> delta[i].id != dead
    ensures Unmoved(s, ApplyDelta(s, sender, delta, now, ord), dead)
    decreases |delta|
  {
    if delta != [] {
      DeltaUnmoved(ApplyDeltaEntry(s, sender, delta[0], now, ord), sender, delta[1..], now, ord, dead, mentioned);
    }
  }

  lemma {:induction false} LivenessUnmoved(s: State, ids: seq<string>, suspected: set<string>, now: int, dead: string)
    requires dead !in s.nodes && forall id :: id in ids ==> id in s.nodes
    ensures Unmoved(s, UpdateNodes(s, ids, suspected, now), dead)
    decreases |ids|
  {
    if ids != [] {
      LivenessUnmoved(UpdateNode(s, ids[0], suspected, now), ids[1..], suspected, now, dead);
    }
  }

  lemma {:induction false} RemovalOf(s: State, ids: seq<string>, t: int, dead: string)
    ensures var s' := RemoveNodes(s, ids, t);
      && s'.localID == s.localID
      && (dead in s'.nodes <==> dead in s.nodes && dead !in ids)
      && (dead in ids ==> dead in s'.tombstones && s'.tombstones[dead] == t)
      && (dead !in ids ==> (dead in s'.tombstones <==> dead in s.tombstones))
      && (dead !in ids && dead in s.tombstones ==> s'.tombstones[dead] == s.tombstones[dead])
    decreases |ids|
  {
    if ids != [] {
      RemovalOf(RemoveNode(s, ids[0], t), ids[1..], t, dead);
    }
  }

  // ---------- Steps ----------

  lemma ExchangeKeeps(c: Cluster, dead: string, step: Step)
    requires step.Exchange? && CanStep(c, dead, step) && Inv(c, dead)
    ensures Dropped(After(c, dead, step), dead)
  {
    var c', dst, src := After(c, dead, step), step.dst, step.src;
    if dst in c.dropped {
      var s := c.nodes[dst];
      assert ForgottenBy(c, dead, dst) && src != dead;
      var mentioned := !Late(c);
      DigestUnmoved(s, src, step.digest, dead, mentioned);
      DeltaUnmoved(ApplyDigest(s, src, step.digest), src, step.delta, c.now, step.ord, dead, mentioned);
    }
    forall n | n in c'.dropped ensures ForgottenBy(c', dead, n) { assert ForgottenBy(c, dead, n); }
  }

  lemma ExpiryOf(s: State, t: int, ord: MapOrder, dead: string)
    ensures var s' := RemoveExpiredAt(s, t, ord);
      && s'.localID == s.localID
      && (dead in s'.nodes ==> dead in s.nodes)
      && (dead in s.nodes && dead !in s'.nodes ==> dead in s'.tombstones && s'.tombstones[dead] == t)
      && (dead !in s.nodes ==>
            (dead in s'.tombstones <==> dead in s.tombstones && t <= s.tombstones[dead] + NODE_TOMBSTONE_EXPIRY)
            && (dead in s'.tombstones ==> s'.tombstones[dead] == s.tombstones[dead]))
  {
    RemovalOf(s.(tombstones := ForgetTombstones(s.tombstones, t)), Range(ord, ExpiredIDs(s, t)), t, dead);
  }

  lemma ExpireKeeps(c: Cluster, dead: string, step: Step)
    requires step.Expire? && CanStep(c, dead, step) && Dropped(c, dead)
    ensures Dropped(After(c, dead, step), dead)
  {
    var c' := After(c, dead, step);
    ExpiryOf(c.nodes[step.n], c.now, step.ord, dead);
    forall n | n in c'.dropped ensures ForgottenBy(c', dead, n) {
      if n in c.dropped { assert ForgottenBy(c, dead, n); }
    }
  }

  lemma StepKeeps(c: Cluster, dead: string, step: Step)
    requires CanStep(c, dead, step) && Inv(c, dead)
    ensures Dropped(After(c, dead, step), dead)
  {
    var c' := After(c, dead, step);
    match step
    case Exchange(_, _, _, _, _) => ExchangeKeeps(c, dead, step);
    case Expire(_, _) => ExpireKeeps(c, dead, step);
    case Tick(_) =>
      forall n | n in c'.dropped ensures ForgottenBy(c', dead, n) { assert ForgottenBy(c, dead, n); }
    case Local(m, op) =>
      forall n | n in c'.dropped ensures ForgottenBy(c', dead, n) { assert ForgottenBy(c, dead, n); }
    case Liveness(m, suspected, ord) =>
      var s := c.nodes[m];
      if dead !in s.nodes { LivenessUnmoved(s, Range(ord, s.nodes.Keys), suspected, c.now, dead); }
      forall n | n in c'.dropped ensures ForgottenBy(c', dead, n) { assert ForgottenBy(c, dead, n); }
  }

  /** Once nobody holds the dead node, nobody ever will: there is nobody left to hear of it from. */
  lemma NobodyHoldsStays(c: Cluster, dead: string, step: Step)
    requires CanStep(c, dead, step) && NobodyHolds(c, dead)
    ensures NobodyHolds(After(c, dead, step), dead)
  {
    match step
    case Exchange(src, dst, digest, delta, ord) =>
      var s := c.nodes[dst];
      DigestUnmoved(s, src, digest, dead, false);
      DeltaUnmoved(ApplyDigest(s, src, digest), src, delta, c.now, ord, dead, false);
    case Expire(n, ord) => ExpiryOf(c.nodes[n], c.now, ord, dead);
    case Liveness(n, suspected, ord) =>
      LivenessUnmoved(c.nodes[n], Range(ord, c.nodes[n].nodes.Keys), suspected, c.now, dead);
    case _ =>
  }

  /** If nobody holds the dead node when the first tombstone runs out, a node that once removed it never
      holds it again, before that moment or after. */
  lemma {:induction false} DeadNodesStayDead(c: Cluster, dead: string, steps: seq<Step>, c': Cluster)
    requires Inv(c, dead) && Timely(c, dead, steps, c')
    ensures StaysDead(c', dead) && c.dropped <= c'.dropped && Inv(c', dead)
    decreases |steps|
  {
    if steps == [] {
      forall n | n in c'.dropped ensures n in c'.nodes && dead !in c'.nodes[n].nodes {
        assert ForgottenBy(c', dead, n);
      }
    } else {
      StepKeeps(c, dead, steps[0]);
      if Late(c) { NobodyHoldsStays(c, dead, steps[0]); }
      DeadNodesStayDead(After(c, dead, steps[0]), dead, steps[1..], c');
    }
  }

  /** From a cluster in which nobody has removed the dead node yet, it never flaps. */
  lemma DeadNodesDoNotFlap(c: Cluster, dead: string, steps: seq<Step>, c': Cluster)
    requires c.first == None && c.dropped == {} && Timely(c, dead, steps, c')
    ensures StaysDead(c', dead)
  {
    DeadNodesStayDead(c, dead, steps, c');
  }

  // ---------- The condition is exact ----------

  ghost predicate OwnIDs(c: Cluster, dead: string) {
    dead !in c.nodes && forall n :: n in c.nodes ==> c.nodes[n].localID == n
  }

  lemma NotMentioned(s: State, ord: MapOrder, dead: string)
    requires dead !in s.nodes && forall id :: id in s.nodes ==> s.nodes[id].id == id
    ensures dead !in DigestIDs(FullDigest(s, ord))
  {
    var ids := Range(ord, s.nodes.Keys);
    assert forall i :: 0 <= i < |ids| ==> ids[i] in ids;
  }

  /** On values: the holder's answer to a full digest brings the dead node back, unless it is discarded. */
  lemma AnswerBringsBack(s: State, src: string, digest: Digest, r: State, now: int, ord: MapOrder, dead: string)
    requires KeyedState(s) && dead in s.nodes && dead !in DigestIDs(digest) && !Discards(r, src, dead)
    ensures Knows(s, [], DeltaFor(s, digest, true, ord))
    ensures dead in ApplyDelta(ApplyDigest(r, src, []), src, DeltaFor(s, digest, true, ord), now, ord).nodes
  {
    var answer := DeltaFor(s, digest, true, ord);
    forall i | 0 <= i < |answer| ensures answer[i].id in s.nodes { PartsKnown(s, digest, ord, i); }
    var i := UnmentionedPart(s, digest, ord, dead);
    PartKnown(r, src, answer, now, ord, i);
  }

  lemma {:induction false} RemovalKeeps(s: State, ids: seq<string>, t: int)
    ensures forall id :: id in RemoveNodes(s, ids, t).nodes ==>
      id in s.nodes && RemoveNodes(s, ids, t).nodes[id] == s.nodes[id]
    decreases |ids|
  {
    if ids != [] { RemovalKeeps(RemoveNode(s, ids[0], t), ids[1..], t); }
  }

  /** When the tombstone of the dead node has run out at the node. */
  function RunOut(s: State, dead: string, now: int): int {
    (if dead in s.tombstones && s.tombstones[dead] > now then s.tombstones[dead] else now) + NODE_TOMBSTONE_EXPIRY + 1
  }

  /** Once the tombstone has run out at `dst`, it sends its full digest to `src` and takes the answer. */
  ghost function AsksHolder(c: Cluster, dead: string, src: string, dst: string, ord: MapOrder): seq<Step>
    requires src in c.nodes && dst in c.nodes
  {
    var t := RunOut(c.nodes[dst], dead, c.now);
    var digest := FullDigest(RemoveExpiredAt(c.nodes[dst], t, ord), ord);
    [Tick(t), Expire(dst, ord), Exchange(src, dst, [], DeltaFor(c.nodes[src], digest, true, ord), ord)]
  }

  /** A node that still holds the dead one brings it back to a node that removed it, once that one's tombstone has
      run out: by its answer to that node's full digest. Whether it is marked left makes no difference. */
  lemma HolderBringsBack(c: Cluster, dead: string, src: string, dst: string, ord: MapOrder) returns (c': Cluster)
    requires OwnIDs(c, dead) && src in c.nodes && dst in c.nodes && src != dst
    requires KeyedState(c.nodes[src]) && KeyedState(c.nodes[dst])
    requires dead in c.nodes[src].nodes && dead !in c.nodes[dst].nodes
    ensures Path(c, dead, AsksHolder(c, dead, src, dst, ord), c')
    ensures dst in c'.nodes && dead in c'.nodes[dst].nodes && c'.dropped == c.dropped
  {
    var s, steps := c.nodes[dst], AsksHolder(c, dead, src, dst, ord);
    var c1 := After(c, dead, steps[0]);
    var c2 := After(c1, dead, steps[1]);
    var r := c2.nodes[dst];
    ExpiryOf(s, c1.now, ord, dead);
    RemovalKeeps(s.(tombstones := ForgetTombstones(s.tombstones, c1.now)), Range(ord, ExpiredIDs(s, c1.now)), c1.now);
    NotMentioned(r, ord, dead);
    AnswerBringsBack(c.nodes[src], src, FullDigest(r, ord), r, c2.now, ord, dead);
    c' := After(c2, dead, steps[2]);
    assert steps[1..][1..] == [steps[2]] && [steps[2]][1..] == [];
    assert Path(c2, dead, [steps[2]], c') && Path(c1, dead, steps[1..], c');
  }

  lemma {:induction false} LateAfterwards(c: Cluster, dead: string, steps: seq<Step>, c': Cluster)
    requires Path(c, dead, steps, c') && Late(c)
    ensures Late(c') && Timely(c, dead, steps, c')
    decreases |steps|
  {
    if steps != [] { LateAfterwards(After(c, dead, steps[0]), dead, steps[1..], c'); }
  }

  /** Until the first tombstone runs out nothing has to be assumed. */
  lemma {:induction false} BeforeLate(c: Cluster, dead: string, steps: seq<Step>, c': Cluster)
    requires Dropped(c, dead) && Path(c, dead, steps, c') && !Late(c')
    ensures Dropped(c', dead)
    decreases |steps|
  {
    if Late(c) { LateAfterwards(c, dead, steps, c'); }
    if steps != [] {
      StepKeeps(c, dead, steps[0]);
      BeforeLate(After(c, dead, steps[0]), dead, steps[1..], c');
    }
  }

  ghost predicate NeverComesBack(c: Cluster, dead: string) {
    forall steps, c' :: Path(c, dead, steps, c') ==> StaysDead(c', dead)
  }

  /** Exactly when the dead node stays dead: take any run up to the tick on which the first tombstone runs
      out. Every continuation leaves it dead if and only if no node holds it at that moment. */
  lemma StaysDeadIff(c0: Cluster, dead: string, steps: seq<Step>, c: Cluster, t: int, ord: MapOrder)
    requires c0.first == None && c0.dropped == {} && Path(c0, dead, steps, c) && !Late(c) && c.dropped != {}
    requires OwnIDs(c, dead) && (forall n :: n in c.nodes ==> KeyedState(c.nodes[n]))
    requires t >= c.now && Late(c.(now := t))
    ensures NeverComesBack(c.(now := t), dead) <==> NobodyHolds(c.(now := t), dead)
  {
    BeforeLate(c0, dead, steps, c);
    var c1 := After(c, dead, Tick(t));
    StepKeeps(c, dead, Tick(t));
    if NobodyHolds(c1, dead) {
      forall more, c' | Path(c1, dead, more, c') ensures StaysDead(c', dead) {
        LateAfterwards(c1, dead, more, c');
        DeadNodesStayDead(c1, dead, more, c');
      }
    } else {
      var src :| src in c1.nodes && dead in c1.nodes[src].nodes;
      var dst :| dst in c1.dropped;
      assert ForgottenBy(c1, dead, dst);
      var c' := HolderBringsBack(c1, dead, src, dst, ord);
      assert Path(c1, dead, AsksHolder(c1, dead, src, dst, ord), c') && !StaysDead(c', dead);
    }
  }

  // ---------- By packets alone ----------

  ghost predicate Truthful(s: State, d: DigestEntry) {
    d.id in s.nodes && d == DigestEntryOf(s.nodes[d.id])
  }

  /** What packets carry: a digest tells the truth about the nodes its sender knows, and a delta only answers a
      digest of the receiver, so that it is about nodes the receiver knows. Only a joining node asks for more. */
  ghost predicate ByPacket(c: Cluster, step: Step) {
    step.Exchange? && step.src in c.nodes && step.dst in c.nodes ==>
      && (forall i :: 0 <= i < |step.digest| ==> Truthful(c.nodes[step.src], step.digest[i]))
      && (forall i :: 0 <= i < |step.delta| ==> step.delta[i].id in c.nodes[step.dst].nodes)
  }

  ghost predicate PacketPath(c: Cluster, dead: string, steps: seq<Step>, c': Cluster)
    decreases |steps|
  {
    if steps == [] then c == c'
    else
      CanStep(c, dead, steps[0]) && ByPacket(c, steps[0]) && PacketPath(After(c, dead, steps[0]), dead, steps[1..], c')
  }

  /** Whoever holds the dead node has it marked as left. */
  ghost predicate MarkedAt(s: State, dead: string) {
    dead in s.nodes ==> s.nodes[dead].id == dead && s.nodes[dead].left
  }

  ghost predicate OnlyMarked(c: Cluster, dead: string) {
    forall n :: n in c.nodes ==> MarkedAt(c.nodes[n], dead)
  }

  /** The node does not come to hold the dead one, and if it holds it, it keeps the mark. */
  ghost predicate Quietly(s: State, s': State, dead: string) {
    && (dead in s'.nodes ==> dead in s.nodes)
    && (MarkedAt(s, dead) ==> MarkedAt(s', dead))
  }

  lemma {:induction false} DigestQuiet(s: State, sender: string, digest: Digest, dead: string)
    requires forall i :: 0 <= i < |digest| ==> digest[i].id == dead ==> digest[i].left
    ensures Quietly(s, ApplyDigest(s, sender, digest), dead)
    ensures s.nodes.Keys <= ApplyDigest(s, sender, digest).nodes.Keys
    decreases |digest|
  {
    if digest != [] { DigestQuiet(ApplyDigestEntry(s, sender, digest[0]), sender, digest[1..], dead); }
  }

  lemma {:induction false} EntriesKeepMark(w: Work, es: seq<Entry>, now: int, ord: MapOrder)
    ensures var ns := ApplyEntries(w, es, now, ord).ns; ns.id == w.ns.id && (w.ns.left ==> ns.left)
    decreases |es|
  {
    if es != [] && !Ends(w.ns.version, es[0]) { EntriesKeepMark(ApplyEntry(w, es[0], now, ord), es[1..], now, ord); }
  }

  lemma PartQuiet(s: State, sender: string, de: DeltaEntry, now: int, ord: MapOrder, dead: string)
    requires de.id == dead ==> dead in s.nodes
    ensures Quietly(s, ApplyDeltaEntry(s, sender, de, now, ord), dead)
    ensures s.nodes.Keys <= ApplyDeltaEntry(s, sender, de, now, ord).nodes.Keys
  {
    if !Discards(s, sender, de.id) {
      EntriesKeepMark(WorkOf(Discovered(s, de.id, de.addr), de.id), de.entries, now, ord);
    }
  }

  lemma {:induction false} DeltaQuiet(s: State, sender: string, delta: Delta, now: int, ord: MapOrder, dead: string)
    requires forall i :: 0 <= i < |delta| ==> delta[i].id == dead ==> dead in s.nodes
    ensures Quietly(s, ApplyDelta(s, sender, delta, now, ord), dead)
    decreases |delta|
  {
    if delta != [] {
      PartQuiet(s, sender, delta[0], now, ord, dead);
      DeltaQuiet(ApplyDeltaEntry(s, sender, delta[0], now, ord), sender, delta[1..], now, ord, dead);
    }
  }

  lemma {:induction false} LivenessQuiet(s: State, ids: seq<string>, suspected: set<string>, now: int, dead: string)
    requires forall id :: id in ids ==> id in s.nodes
    ensures Quietly(s, UpdateNodes(s, ids, suspected, now), dead)
    decreases |ids|
  {
    if ids != [] { LivenessQuiet(UpdateNode(s, ids[0], suspected, now), ids[1..], suspected, now, dead); }
  }

  lemma {:induction false} RemovalQuiet(s: State, ids: seq<string>, t: int, dead: string)
    ensures Quietly(s, RemoveNodes(s, ids, t), dead)
    decreases |ids|
  {
    if ids != [] { RemovalQuiet(RemoveNode(s, ids[0], t), ids[1..], t, dead); }
  }

  lemma ExchangeQuiet(c: Cluster, dead: string, step: Step)
    requires step.Exchange? && CanStep(c, dead, step) && ByPacket(c, step) && OnlyMarked(c, dead)
    ensures Quietly(c.nodes[step.dst], After(c, dead, step).nodes[step.dst], dead)
  {
    var s := c.nodes[step.dst];
    assert MarkedAt(c.nodes[step.src], dead);
    DigestQuiet(s, step.src, step.digest, dead);
    DeltaQuiet(ApplyDigest(s, step.src, step.digest), step.src, step.delta, c.now, step.ord, dead);
  }

  /** By packets, marked nodes do not spread and the mark stays. */
  lemma PacketQuiet(c: Cluster, dead: string, step: Step, n: string)
    requires CanStep(c, dead, step) && ByPacket(c, step) && OnlyMarked(c, dead) && n in c.nodes
    ensures n in After(c, dead, step).nodes && Quietly(c.nodes[n], After(c, dead, step).nodes[n], dead)
  {
    match step
    case Exchange(_, dst, _, _, _) => if n == dst { ExchangeQuiet(c, dead, step); }
    case Expire(m, ord) =>
      var s := c.nodes[m];
      RemovalQuiet(s.(tombstones := ForgetTombstones(s.tombstones, c.now)), Range(ord, ExpiredIDs(s, c.now)), c.now, dead);
    case Liveness(m, suspected, ord) =>
      LivenessQuiet(c.nodes[m], Range(ord, c.nodes[m].nodes.Keys), suspected, c.now, dead);
    case _ =>
  }

  /** As long as everybody who holds the dead node has it marked, packets bring it back to nobody. */
  lemma {:induction false} PacketsStayDead(c: Cluster, dead: string, steps: seq<Step>, c': Cluster)
    requires PacketPath(c, dead, steps, c') && OnlyMarked(c, dead) && StaysDead(c, dead)
    ensures StaysDead(c', dead)
    decreases |steps|
  {
    if steps != [] {
      var c1 := After(c, dead, steps[0]);
      forall n | n in c1.nodes ensures MarkedAt(c1.nodes[n], dead) {
        assert MarkedAt(c.nodes[n], dead);
        PacketQuiet(c, dead, steps[0], n);
      }
      forall n | n in c1.dropped ensures n in c1.nodes && dead !in c1.nodes[n].nodes {
        PacketQuiet(c, dead, steps[0], n);
      }
      PacketsStayDead(c1, dead, steps[1..], c');
    }
  }

  /** A holder that has it unmarked brings it back with its next digest. */
  lemma UnmarkedBringsBack(c: Cluster, dead: string, src: string, dst: string, ord: MapOrder)
    returns (steps: seq<Step>, c': Cluster)
    requires dead !in c.nodes && src in c.nodes && dst in c.nodes && src != dst
    requires dead in c.nodes[src].nodes && c.nodes[src].nodes[dead].id == dead && !c.nodes[src].nodes[dead].left
    requires dead !in c.nodes[dst].nodes
    ensures PacketPath(c, dead, steps, c') && dst in c'.nodes && dead in c'.nodes[dst].nodes && c'.dropped == c.dropped
  {
    var s := c.nodes[dst];
    var t := if dead in s.tombstones && s.tombstones[dead] > c.now then s.tombstones[dead] else c.now;
    var tick, expire := Tick(t + NODE_TOMBSTONE_EXPIRY + 1), Expire(dst, ord);
    var c1 := After(c, dead, tick);
    var c2 := After(c1, dead, expire);
    ExpiryOf(s, c1.now, ord, dead);
    var d := DigestEntryOf(c.nodes[src].nodes[dead]);
    var exchange := Exchange(src, dst, [d], [], ord);
    c' := After(c2, dead, exchange);
    DigestTells(c2.nodes[dst], src, d, c2.now, ord);
    steps := [tick, expire, exchange];
    assert steps[1..] == [expire, exchange] && steps[1..][1..] == [exchange] && [exchange][1..] == [];
    assert PacketPath(c2, dead, [exchange], c') && PacketPath(c1, dead, steps[1..], c');
  }

  lemma DigestTells(s: State, sender: string, d: DigestEntry, now: int, ord: MapOrder)
    requires !d.left && !Tombstoned(s, d.id, sender)
    ensures d.id in ApplyDelta(ApplyDigest(s, sender, [d]), sender, [], now, ord).nodes
  {
    assert [d][1..] == [] && ApplyDigest(ApplyDigestEntry(s, sender, d), sender, []) == ApplyDigestEntry(s, sender, d);
  }

  ghost predicate NeverComesBackByPacket(c: Cluster, dead: string) {
    forall steps, c' :: PacketPath(c, dead, steps, c') ==> StaysDead(c', dead)
  }

  /** Among nodes that are up and do not join again, exactly when the dead node stays dead: every continuation by
      packets leaves it dead if and only if, when the first tombstone runs out, everybody who still holds it has
      it marked as left. */
  lemma PacketsStaysDeadIff(c0: Cluster, dead: string, steps: seq<Step>, c: Cluster, t: int, ord: MapOrder)
    requires c0.first == None && c0.dropped == {} && Path(c0, dead, steps, c) && !Late(c) && c.dropped != {}
    requires OwnIDs(c, dead) && (forall n :: n in c.nodes ==> KeyedState(c.nodes[n]))
    requires t >= c.now && Late(c.(now := t))
    ensures NeverComesBackByPacket(c.(now := t), dead) <==> OnlyMarked(c.(now := t), dead)
  {
    BeforeLate(c0, dead, steps, c);
    var c1 := After(c, dead, Tick(t));
    StepKeeps(c, dead, Tick(t));
    forall n | n in c1.dropped ensures n in c1.nodes && dead !in c1.nodes[n].nodes { assert ForgottenBy(c1, dead, n); }
    if OnlyMarked(c1, dead) {
      forall more, c' | PacketPath(c1, dead, more, c') ensures StaysDead(c', dead) {
        PacketsStayDead(c1, dead, more, c');
      }
    } else {
      var src :| src in c1.nodes && !MarkedAt(c1.nodes[src], dead);
      var dst :| dst in c1.dropped;
      var more, c' := UnmarkedBringsBack(c1, dead, src, dst, ord);
      assert PacketPath(c1, dead, more, c') && !StaysDead(c', dead);
    }
  }
}
