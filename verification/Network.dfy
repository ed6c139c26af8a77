/** Any number of nodes exchanging deltas, directly or through relays. Messages are never taken off the
    network, so they may be lost, duplicated, delayed and reordered; a message may be any truncation of
    what its sender knows. Every mutex-holding method is one atomic step. */
module Network {
  import opened Strconv
  import opened GossipState
  import opened Runs
  import opened Membership
  import opened Metrics
  import opened Replica

  /** `froms` records, for each node in the delta, the version the entries start above: the version in the
      digest the delta answers, or 0. The program does not send it; it exists to state the theorem. */
  datatype Message = Message(dst: string, sender: string, delta: Delta, froms: seq<nat>)

  /** `hist` collects every entry a node ever stored about itself; it too exists for the theorem only. */
  datatype Net = Net(nodes: map<string, State>, msgs: set<Message>, hist: map<string, set<Entry>>)

  function Owner(net: Net, id: string): NodeState {
    if id in net.nodes && id in net.nodes[id].nodes then net.nodes[id].nodes[id] else Fresh(id, "")
  }

  function Hist(net: Net, id: string): set<Entry> {
    if id in net.hist then net.hist[id] else {}
  }

  datatype NetStep =
    | LocalUpdate(n: string, op: Op)
    | Quiet(n: string, op: Op)
    | Send(n: string, m: Message)
    | Deliver(m: Message, now: int, ord: MapOrder)

  /** Each part of the delta is a prefix of what the node has above the version it starts from. */
  ghost predicate Sendable(s: State, delta: Delta, froms: seq<nat>) {
    && |froms| == |delta|
    && forall i :: 0 <= i < |delta| ==>
         delta[i].id in s.nodes && delta[i].entries <= Ascending(s.nodes[delta[i].id].entries, froms[i])
  }

  /** The part starts no later than the receiver's version of the node, or the node has nothing current in
      between, or the receiver will discard it. A receiver that has not removed the node since it asked is at
      the version it asked from, or later. */
  ghost predicate TakesPart(net: Net, s: State, sender: string, de: DeltaEntry, from: nat) {
    Discards(s, sender, de.id) || !LeavesOut(Owner(net, de.id), KnownVersion(s, de.id), from)
  }

  ghost predicate UpToDate(net: Net, s: State, sender: string, delta: Delta, froms: seq<nat>) {
    |froms| == |delta| && forall i :: 0 <= i < |delta| ==> TakesPart(net, s, sender, delta[i], froms[i])
  }

  ghost predicate CanDo(net: Net, step: NetStep) {
    match step
    case LocalUpdate(n, op) =>
      && n in net.nodes && IsLocal(op) && Enabled(net.nodes[n], op)
      && (op.Upsert? || op.Delete? ==> !ReservedKey(op.key))
      && (op.Compact? ==> Owner(net, n).version <= MAX_UINT64)
    case Quiet(n, op) => n in net.nodes && (op.ReceiveDigest? || op.RemoveExpired? || op.CheckLiveness?)
      && Enabled(net.nodes[n], op)
    case Send(n, m) => n in net.nodes && m.sender == n && Sendable(net.nodes[n], m.delta, m.froms)
    case Deliver(m, _, _) =>
      && m in net.msgs && m.dst in net.nodes
      && UpToDate(net, net.nodes[m.dst], m.sender, m.delta, m.froms)
  }

  ghost function Do(net: Net, step: NetStep): Net
    requires CanDo(net, step)
  {
    match step
    case LocalUpdate(n, op) =>
      var s' := Step(net.nodes[n], op);
      net.(nodes := net.nodes[n := s'],
           hist := net.hist[n := Hist(net, n) + if n in s'.nodes then s'.nodes[n].entries.Values else {}])
    case Quiet(n, op) => net.(nodes := net.nodes[n := Step(net.nodes[n], op)])
    case Send(n, m) => net.(msgs := net.msgs + {m})
    case Deliver(m, now, ord) =>
      net.(nodes := net.nodes[m.dst := ApplyDelta(net.nodes[m.dst], m.sender, m.delta, now, ord)])
  }

  ghost function Start(addrs: map<string, string>): Net {
    Net(map id | id in addrs :: Init(id, addrs[id]), {}, map[])
  }

  ghost predicate Leads(net: Net, steps: seq<NetStep>, net': Net)
    decreases |steps|
  {
    if steps == [] then net == net'
    else CanDo(net, steps[0]) && Leads(Do(net, steps[0]), steps[1..], net')
  }

  // ---------- The invariant ----------

  ghost predicate OwnerAt(net: Net, id: string) {
    OwnerOk(Owner(net, id), Hist(net, id))
  }

  ghost predicate ViewAt(net: Net, s: State, id: string) {
    id in s.nodes ==> ViewOk(s.nodes[id], Owner(net, id), Hist(net, id))
  }

  ghost predicate PartAt(net: Net, de: DeltaEntry, from: nat) {
    DeltaOk(de.entries, from, Owner(net, de.id), Hist(net, de.id))
  }

  /** What the node holds about every node follows that node. */
  ghost predicate Follows(s: State, net: Net) {
    forall id :: ViewAt(net, s, id)
  }

  ghost predicate InFlight(delta: Delta, froms: seq<nat>, net: Net) {
    |froms| == |delta| && forall i :: 0 <= i < |delta| ==> PartAt(net, delta[i], froms[i])
  }

  ghost predicate OwnersOk(net: Net) {
    forall id :: OwnerAt(net, id)
  }

  ghost predicate NodeOk(net: Net, n: string)
    requires n in net.nodes
  {
    net.nodes[n].localID == n && MemberInv(net.nodes[n]) && Follows(net.nodes[n], net)
  }

  ghost predicate NetInv(net: Net) {
    && OwnersOk(net)
    && (forall n {:trigger NodeOk(net, n)} :: n in net.nodes ==> NodeOk(net, n))
    && (forall m :: m in net.msgs ==> InFlight(m.delta, m.froms, net))
  }

  // ---------- Steps that leave every owner as it is ----------

  ghost predicate SameOwners(net: Net, net': Net) {
    forall id :: Owner(net', id) == Owner(net, id) && Hist(net', id) == Hist(net, id)
  }

  lemma FollowsSame(s: State, net: Net, net': Net)
    requires Follows(s, net) && SameOwners(net, net')
    ensures Follows(s, net')
  {
    forall id ensures ViewAt(net', s, id) { assert ViewAt(net, s, id); }
  }

  lemma InFlightSame(delta: Delta, froms: seq<nat>, net: Net, net': Net)
    requires InFlight(delta, froms, net) && SameOwners(net, net')
    ensures InFlight(delta, froms, net')
  {
    forall i | 0 <= i < |delta| ensures PartAt(net', delta[i], froms[i]) { assert PartAt(net, delta[i], froms[i]); }
  }

  lemma OwnersSame(net: Net, net': Net)
    requires OwnersOk(net) && SameOwners(net, net')
    ensures OwnersOk(net')
  {
    forall id ensures OwnerAt(net', id) { assert OwnerAt(net, id); }
  }

  /** With the same owners, the invariant is left to check for what changed. */
  lemma SameOwnersOk(net: Net, net': Net)
    requires NetInv(net) && SameOwners(net, net')
    requires forall n :: n in net'.nodes ==> (n in net.nodes && net'.nodes[n] == net.nodes[n]) || NodeOk(net', n)
    requires forall m :: m in net'.msgs ==> m in net.msgs || InFlight(m.delta, m.froms, net')
    ensures NetInv(net')
  {
    OwnersSame(net, net');
    forall n | n in net'.nodes ensures NodeOk(net', n) {
      if !NodeOk(net', n) {
        assert NodeOk(net, n);
        FollowsSame(net.nodes[n], net, net');
      }
    }
    forall m | m in net'.msgs ensures InFlight(m.delta, m.froms, net') {
      if m in net.msgs { InFlightSame(m.delta, m.froms, net, net'); }
    }
  }

  /** A node may change what it holds about others, as long as it still follows them. */
  lemma PutNode(net: Net, n: string, s: State)
    requires NetInv(net) && n in net.nodes && NodeOk(net, n)
    requires s.localID == n && MemberInv(s) && Follows(s, net)
    requires n in s.nodes && n in net.nodes[n].nodes && s.nodes[n] == net.nodes[n].nodes[n]
    ensures NetInv(net.(nodes := net.nodes[n := s]))
  {
    var net' := net.(nodes := net.nodes[n := s]);
    assert SameOwners(net, net');
    FollowsSame(s, net, net');
    SameOwnersOk(net, net');
  }

  ghost predicate QuietInv(s: State, net: Net, n: string, own: NodeState) {
    s.localID == n && MemberInv(s) && Follows(s, net) && s.nodes[n] == own
  }

  lemma QuietFollows(s: State, net: Net, m: Micro)
    requires OwnersOk(net) && Follows(s, net) && Guard(s, m) && QuietKind(m)
    ensures Follows(MicroStep(s, m), net)
  {
    forall id ensures ViewAt(net, MicroStep(s, m), id) {
      assert ViewAt(net, s, id);
      if m.MDiscover? && m.did == id {
        assert OwnerAt(net, id);
        FreshIsView(id, m.addr, Owner(net, id), Hist(net, id));
      }
    }
  }

  lemma QuietMicro(s: State, net: Net, n: string, own: NodeState, m: Micro)
    requires OwnersOk(net) && QuietInv(s, net, n, own) && Guard(s, m) && QuietKind(m)
    ensures QuietInv(MicroStep(s, m), net, n, own)
  {
    MicroKeepsMembers(s, m);
    QuietFollows(s, net, m);
    if m.MExpire? { assert ExpiryOk(s, m.xid); }
  }

  lemma QuietClosed(net: Net, n: string, own: NodeState)
    requires OwnersOk(net)
    ensures Closed((t: State) => QuietInv(t, net, n, own), (m: Micro) => QuietKind(m))
  {
    forall t, m | QuietInv(t, net, n, own) && QuietKind(m) && Guard(t, m)
      ensures QuietInv(MicroStep(t, m), net, n, own)
    {
      QuietMicro(t, net, n, own, m);
    }
  }

  lemma QuietOk(net: Net, n: string, op: Op)
    requires NetInv(net) && CanDo(net, Quiet(n, op))
    ensures NetInv(Do(net, Quiet(n, op)))
  {
    var s := net.nodes[n];
    assert NodeOk(net, n);
    QuietClosed(net, n, s.nodes[n]);
    StepKeeps((t: State) => QuietInv(t, net, n, s.nodes[n]), (m: Micro) => QuietKind(m), s, op);
    PutNode(net, n, Step(s, op));
  }

  // ---------- Sending ----------

  lemma SendableInFlight(net: Net, s: State, delta: Delta, froms: seq<nat>)
    requires Follows(s, net) && Sendable(s, delta, froms)
    ensures InFlight(delta, froms, net)
  {
    forall i | 0 <= i < |delta| ensures PartAt(net, delta[i], froms[i]) {
      var id := delta[i].id;
      assert ViewAt(net, s, id);
      PrefixIsDelta(s.nodes[id], Owner(net, id), Hist(net, id), froms[i], delta[i].entries);
    }
  }

  lemma SendOk(net: Net, n: string, m: Message)
    requires NetInv(net) && CanDo(net, Send(n, m))
    ensures NetInv(Do(net, Send(n, m)))
  {
    var net' := Do(net, Send(n, m));
    assert NodeOk(net, n);
    SendableInFlight(net, net.nodes[n], m.delta, m.froms);
    assert SameOwners(net, net');
    InFlightSame(m.delta, m.froms, net, net');
    SameOwnersOk(net, net');
  }

  // ---------- Delivery ----------

  /** The receiver's own state is not touched, its versions do not go back, and it discards no less. */
  ghost predicate Receives(s: State, s': State, sender: string) {
    && s'.localID == s.localID && s.localID in s'.nodes && s.localID in s.nodes
    && s'.nodes[s.localID] == s.nodes[s.localID]
    && (forall id :: KnownVersion(s, id) <= KnownVersion(s', id))
    && (forall id :: Discards(s, sender, id) ==> Discards(s', sender, id))
  }

  lemma DeliverPart(s: State, net: Net, sender: string, de: DeltaEntry, from: nat, now: int, ord: MapOrder)
    requires OwnerAt(net, de.id) && ViewAt(net, s, de.id) && PartAt(net, de, from)
    requires !Discards(s, sender, de.id) && TakesPart(net, s, sender, de, from)
    ensures var s1 := Discovered(s, de.id, de.addr);
      var ns := ApplyEntries(WorkOf(s1, de.id), de.entries, now, ord).ns;
      ViewOk(ns, Owner(net, de.id), Hist(net, de.id)) && ns.version >= KnownVersion(s, de.id)
  {
    var own, hist := Owner(net, de.id), Hist(net, de.id);
    FreshIsView(de.id, de.addr, own, hist);
    TakenOk(WorkOf(Discovered(s, de.id, de.addr), de.id), own, hist, de.entries, from, now, ord);
  }

  lemma DeliverReceives(s: State, sender: string, de: DeltaEntry, now: int, ord: MapOrder)
    requires s.localID in s.nodes && !Discards(s, sender, de.id)
    requires ApplyEntries(WorkOf(Discovered(s, de.id, de.addr), de.id), de.entries, now, ord).ns.version
             >= KnownVersion(s, de.id)
    ensures Receives(s, ApplyDeltaEntry(s, sender, de, now, ord), sender)
  {
  }

  lemma DeliverEntry(s: State, net: Net, sender: string, de: DeltaEntry, from: nat, now: int, ord: MapOrder)
    requires OwnersOk(net) && Follows(s, net) && s.localID in s.nodes && PartAt(net, de, from)
    requires TakesPart(net, s, sender, de, from)
    ensures var s' := ApplyDeltaEntry(s, sender, de, now, ord);
      Follows(s', net) && Receives(s, s', sender)
  {
    if !Discards(s, sender, de.id) {
      var s' := ApplyDeltaEntry(s, sender, de, now, ord);
      assert OwnerAt(net, de.id) && ViewAt(net, s, de.id);
      DeliverPart(s, net, sender, de, from, now, ord);
      DeliverReceives(s, sender, de, now, ord);
      forall id ensures ViewAt(net, s', id) { assert ViewAt(net, s, id); }
    }
  }

  lemma {:induction false} DeliverDelta(s: State, net: Net, sender: string, delta: Delta, froms: seq<nat>, now: int, ord: MapOrder)
    requires OwnersOk(net) && Follows(s, net) && s.localID in s.nodes
    requires UpToDate(net, s, sender, delta, froms) && InFlight(delta, froms, net)
    ensures var s' := ApplyDelta(s, sender, delta, now, ord);
      Follows(s', net) && Receives(s, s', sender)
    decreases |delta|
  {
    if delta != [] {
      var s' := ApplyDeltaEntry(s, sender, delta[0], now, ord);
      DeliverEntry(s, net, sender, delta[0], froms[0], now, ord);
      forall i | 0 < i < |delta| ensures TakesPart(net, s', sender, delta[i], froms[i]) {
        assert TakesPart(net, s, sender, delta[i], froms[i]);
        assert KnownVersion(s, delta[i].id) <= KnownVersion(s', delta[i].id);
      }
      DeliverDelta(s', net, sender, delta[1..], froms[1..], now, ord);
    }
  }

  lemma DeliveryOk(net: Net, m: Message, now: int, ord: MapOrder)
    requires NetInv(net) && CanDo(net, Deliver(m, now, ord))
    ensures NetInv(Do(net, Deliver(m, now, ord)))
  {
    var s := net.nodes[m.dst];
    assert NodeOk(net, m.dst) && InFlight(m.delta, m.froms, net);
    DeliverDelta(s, net, m.sender, m.delta, m.froms, now, ord);
    DeltaKeepsMembers(s, m.sender, m.delta, now, ord);
    PutNode(net, m.dst, ApplyDelta(s, m.sender, m.delta, now, ord));
  }

  lemma DeltaKeepsMembers(s: State, sender: string, delta: Delta, now: int, ord: MapOrder)
    requires MemberInv(s)
    ensures MemberInv(ApplyDelta(s, sender, delta, now, ord))
  {
    MembersClosed();
    StepKeeps((s: State) => MemberInv(s), (m: Micro) => true, s, ReceiveDelta(sender, delta, now, ord));
  }

  // ---------- The owner moves on ----------

  lemma OwnerStep(own: NodeState, op: Op, hist: set<Entry>)
    requires OwnerOk(own, hist) && IsLocal(op) && (op.Upsert? || op.Delete? ==> !ReservedKey(op.key))
    requires op.Compact? ==> !CompactPanics(own, op.threshold) && own.version <= MAX_UINT64
    ensures var own' := LocalNode(own, op);
      OwnerOk(own', hist + own'.entries.Values) && Advances(own, own')
  {
    match op
    case Upsert(key, value) => UpsertOk(own, key, value, hist);
    case Delete(key) => DeleteOk(own, key, hist);
    case Leave => LeaveOk(own, hist);
    case Compact(threshold) => CompactOk(own, threshold, hist);
  }

  /** The owner is the same or has moved on. */
  ghost predicate AdvancesAt(net: Net, net': Net, id: string) {
    Advances(Owner(net, id), Owner(net', id)) && Hist(net, id) <= Hist(net', id)
  }

  ghost predicate OwnersAdvance(net: Net, net': Net) {
    forall id :: AdvancesAt(net, net', id)
  }

  lemma FollowsAdvance(s: State, net: Net, net': Net)
    requires Follows(s, net) && OwnersAdvance(net, net')
    ensures Follows(s, net')
  {
    forall id ensures ViewAt(net', s, id) {
      assert ViewAt(net, s, id) && AdvancesAt(net, net', id);
      if id in s.nodes {
        ViewSurvives(s.nodes[id], Owner(net, id), Owner(net', id), Hist(net, id), Hist(net', id));
      }
    }
  }

  lemma InFlightAdvance(delta: Delta, froms: seq<nat>, net: Net, net': Net)
    requires InFlight(delta, froms, net) && OwnersOk(net) && OwnersAdvance(net, net')
    ensures InFlight(delta, froms, net')
  {
    forall i | 0 <= i < |delta| ensures PartAt(net', delta[i], froms[i]) {
      var id := delta[i].id;
      assert OwnerAt(net, id) && PartAt(net, delta[i], froms[i]) && AdvancesAt(net, net', id);
      DeltaSurvives(delta[i].entries, froms[i], Owner(net, id), Owner(net', id), Hist(net, id), Hist(net', id));
    }
  }

  /** A local update changes the owner's record of itself and nobody else's. */
  lemma LocalEffect(net: Net, n: string, op: Op)
    requires CanDo(net, LocalUpdate(n, op)) && net.nodes[n].localID == n
    ensures var net', own' := Do(net, LocalUpdate(n, op)), LocalNode(Owner(net, n), op);
      && net'.nodes[n].nodes == net.nodes[n].nodes[n := own'] && net'.nodes[n].localID == n
      && Owner(net', n) == own' && Hist(net', n) == Hist(net, n) + own'.entries.Values
      && (forall id :: id != n ==> Owner(net', id) == Owner(net, id) && Hist(net', id) == Hist(net, id))
  {
    Membership.LocalStep(net.nodes[n], op);
  }

  lemma SameAdvances(own: NodeState)
    ensures Advances(own, own)
  {
  }

  lemma LocalOwners(net: Net, n: string, op: Op)
    requires OwnersOk(net) && CanDo(net, LocalUpdate(n, op)) && net.nodes[n].localID == n
    ensures var net' := Do(net, LocalUpdate(n, op)); OwnersAdvance(net, net') && OwnersOk(net')
  {
    var net', own := Do(net, LocalUpdate(n, op)), Owner(net, n);
    LocalEffect(net, n, op);
    assert OwnerAt(net, n);
    OwnerStep(own, op, Hist(net, n));
    forall id ensures AdvancesAt(net, net', id) {
      if id != n { SameAdvances(Owner(net, id)); }
    }
    forall id ensures OwnerAt(net', id) {
      if id != n { assert OwnerAt(net, id); }
    }
  }

  lemma LocalFollows(net: Net, n: string, op: Op)
    requires OwnersOk(net) && CanDo(net, LocalUpdate(n, op)) && NodeOk(net, n)
    ensures Follows(Do(net, LocalUpdate(n, op)).nodes[n], Do(net, LocalUpdate(n, op)))
  {
    var net' := Do(net, LocalUpdate(n, op));
    LocalEffect(net, n, op);
    LocalOwners(net, n, op);
    FollowsAdvance(net.nodes[n], net, net');
    forall id ensures ViewAt(net', net'.nodes[n], id) {
      if id == n {
        assert OwnerAt(net', n);
        OwnerIsView(Owner(net', n), Hist(net', n));
      } else {
        assert ViewAt(net', net.nodes[n], id);
      }
    }
  }

  lemma LocalOk(net: Net, n: string, op: Op)
    requires NetInv(net) && CanDo(net, LocalUpdate(n, op))
    ensures NetInv(Do(net, LocalUpdate(n, op)))
  {
    var net' := Do(net, LocalUpdate(n, op));
    assert NodeOk(net, n);
    LocalOwners(net, n, op);
    LocalFollows(net, n, op);
    LocalEffect(net, n, op);
    MicroKeepsMembers(net.nodes[n], MLocal(op));
    forall p | p in net'.nodes ensures NodeOk(net', p) {
      if p != n {
        assert NodeOk(net, p);
        FollowsAdvance(net.nodes[p], net, net');
      }
    }
    forall m | m in net'.msgs ensures InFlight(m.delta, m.froms, net') {
      InFlightAdvance(m.delta, m.froms, net, net');
    }
  }

  // ---------- All runs ----------

  lemma NetStepOk(net: Net, step: NetStep)
    requires NetInv(net) && CanDo(net, step)
    ensures NetInv(Do(net, step))
  {
    match step
    case LocalUpdate(n, op) => LocalOk(net, n, op);
    case Quiet(n, op) => QuietOk(net, n, op);
    case Send(n, m) => SendOk(net, n, m);
    case Deliver(m, now, ord) => DeliveryOk(net, m, now, ord);
  }

  lemma QuietKeepsOwner(net: Net, n: string, op: Op)
    requires NetInv(net) && CanDo(net, Quiet(n, op))
    ensures var s' := Step(net.nodes[n], op); n in s'.nodes && s'.nodes[n] == Owner(net, n)
  {
    assert NodeOk(net, n);
    QuietClosed(net, n, net.nodes[n].nodes[n]);
    StepKeeps((t: State) => QuietInv(t, net, n, net.nodes[n].nodes[n]), (m: Micro) => QuietKind(m), net.nodes[n], op);
  }

  lemma DeliveryKeepsOwner(net: Net, m: Message, now: int, ord: MapOrder)
    requires NetInv(net) && CanDo(net, Deliver(m, now, ord))
    ensures var s' := ApplyDelta(net.nodes[m.dst], m.sender, m.delta, now, ord);
      m.dst in s'.nodes && s'.nodes[m.dst] == Owner(net, m.dst)
  {
    assert NodeOk(net, m.dst) && InFlight(m.delta, m.froms, net);
    DeliverDelta(net.nodes[m.dst], net, m.sender, m.delta, m.froms, now, ord);
  }

  /** Only a local update changes an owner. */
  lemma OnlyLocalUpdates(net: Net, step: NetStep)
    requires NetInv(net) && CanDo(net, step) && !step.LocalUpdate?
    ensures SameOwners(net, Do(net, step))
  {
    match step
    case Quiet(n, op) =>
      assert NodeOk(net, n);
      QuietKeepsOwner(net, n, op);
    case Send(n, m) =>
    case Deliver(m, now, ord) =>
      assert NodeOk(net, m.dst);
      DeliveryKeepsOwner(net, m, now, ord);
  }

  lemma StartOk(addrs: map<string, string>)
    ensures NetInv(Start(addrs))
  {
    var net := Start(addrs);
    forall id ensures OwnerAt(net, id) {
      assert Owner(net, id).entries == map[] && Hist(net, id) == {};
    }
    forall n | n in net.nodes ensures NodeOk(net, n) {
      assert net.nodes[n] == Init(n, addrs[n]);
      forall id ensures ViewAt(net, net.nodes[n], id) {
        assert OwnerAt(net, id);
        FreshIsView(id, addrs[n], Owner(net, id), Hist(net, id));
      }
    }
  }

  lemma {:induction false} RunOk(net: Net, steps: seq<NetStep>, net': Net)
    requires NetInv(net) && Leads(net, steps, net')
    ensures NetInv(net')
    decreases |steps|
  {
    if steps != [] {
      NetStepOk(net, steps[0]);
      RunOk(Do(net, steps[0]), steps[1..], net');
    }
  }

  /** In every run: a replica is never ahead of its owner, holds every current entry up to its own version
      unchanged, is marked left only if the owner left, and at the owner's version is the owner's state. */
  lemma ReplicasConverge(addrs: map<string, string>, steps: seq<NetStep>, net: Net, r: string, o: string)
    requires Leads(Start(addrs), steps, net)
    requires r in net.nodes && o in net.nodes && o in net.nodes[r].nodes
    ensures o in net.nodes[o].nodes
    ensures var view, own := net.nodes[r].nodes[o], net.nodes[o].nodes[o];
      && view.version <= own.version
      && (forall k :: k in own.entries && own.entries[k].version <= view.version ==>
            k in view.entries && view.entries[k] == own.entries[k])
      && (view.left ==> own.left)
      && (view.version == own.version ==> view.entries == own.entries && view.left == own.left)
  {
    StartOk(addrs);
    RunOk(Start(addrs), steps, net);
    assert NodeOk(net, r) && NodeOk(net, o);
    var view, own := net.nodes[r].nodes[o], Owner(net, o);
    assert OwnerAt(net, o) && ViewAt(net, net.nodes[r], o);
    if view.version == own.version {
      EqualVersionEqualState(view, own, Hist(net, o));
    }
  }
}
