/** In the network: a node that keeps exchanging with an owner that does not change, or with a node that has the
    owner's version, ends up with the owner's state, whatever else happens meanwhile. */
module CatchUp {
  import opened GossipState
  import opened Runs
  import opened Membership
  import opened Codec
  import opened Network
  import opened Replica
  import opened Progress
  import opened Exchange

  // ---------- Meanwhile ----------

  /** Any step of anyone, except that the owner `o` does not update itself, and neither the receiver `r` nor the
      node `q` it asks forgets the owner. */
  ghost predicate Calm(net: Net, step: NetStep, r: string, q: string, o: string) {
    && CanDo(net, step) && !(step.LocalUpdate? && step.n == o)
    && r in Do(net, step).nodes && o in Do(net, step).nodes[r].nodes
    && q in Do(net, step).nodes && o in Do(net, step).nodes[q].nodes
  }

  ghost predicate Meanwhile(net: Net, steps: seq<NetStep>, net': Net, r: string, q: string, o: string)
    decreases |steps|
  {
    if steps == [] then net == net'
    else Calm(net, steps[0], r, q, o) && Meanwhile(Do(net, steps[0]), steps[1..], net', r, q, o)
  }

  ghost predicate Knows(net: Net, n: string, o: string) {
    n in net.nodes && o in net.nodes && o in net.nodes[n].nodes
  }

  /** The receiver knows the owner, and the node it asks has the owner's version: it is the owner, or a relay. */
  ghost predicate Holds(net: Net, r: string, q: string, o: string) {
    && NetInv(net) && r != o && r != q && Knows(net, r, o) && Knows(net, q, o)
    && KnownVersion(net.nodes[q], o) == Owner(net, o).version
  }

  /** The owner is the same and the receiver's view of it has not gone back. */
  ghost predicate NoWorse(net: Net, net': Net, r: string, o: string)
    requires r in net.nodes && r in net'.nodes
  {
    Owner(net', o) == Owner(net, o) && KnownVersion(net.nodes[r], o) <= KnownVersion(net'.nodes[r], o)
  }

  lemma OwnerStays(net: Net, step: NetStep, o: string)
    requires NetInv(net) && CanDo(net, step) && o in net.nodes && !(step.LocalUpdate? && step.n == o)
    ensures Owner(Do(net, step), o) == Owner(net, o) && o in Do(net, step).nodes
  {
    if step.LocalUpdate? {
      assert NodeOk(net, step.n);
      LocalEffect(net, step.n, step.op);
    } else {
      OnlyLocalUpdates(net, step);
    }
  }

  lemma ViewGrows(s: State, op: Op, o: string)
    requires MemberInv(s) && Enabled(s, op) && o in s.nodes && o in Step(s, op).nodes
    ensures KnownVersion(s, o) <= KnownVersion(Step(s, op), o)
  {
    StepGrows(s, op);
  }

  lemma VersionStays(net: Net, step: NetStep, n: string, o: string)
    requires NetInv(net) && CanDo(net, step) && Knows(net, n, o) && Knows(Do(net, step), n, o)
    ensures KnownVersion(net.nodes[n], o) <= KnownVersion(Do(net, step).nodes[n], o)
  {
    assert NodeOk(net, n);
    match step
    case LocalUpdate(p, op) => if p == n { ViewGrows(net.nodes[n], op, o); }
    case Quiet(p, op) => if p == n { ViewGrows(net.nodes[n], op, o); }
    case Send(_, _) =>
    case Deliver(m, now, ord) =>
      if m.dst == n { ViewGrows(net.nodes[n], ReceiveDelta(m.sender, m.delta, now, ord), o); }
  }

  lemma NeverAhead(net: Net, n: string, o: string)
    requires NetInv(net) && Knows(net, n, o)
    ensures KnownVersion(net.nodes[n], o) <= Owner(net, o).version
  {
    assert NodeOk(net, n) && ViewAt(net, net.nodes[n], o);
  }

  lemma CalmKeeps(net: Net, step: NetStep, r: string, q: string, o: string)
    requires Holds(net, r, q, o) && Calm(net, step, r, q, o)
    ensures Holds(Do(net, step), r, q, o) && NoWorse(net, Do(net, step), r, o)
  {
    NetStepOk(net, step);
    OwnerStays(net, step, o);
    VersionStays(net, step, r, o);
    VersionStays(net, step, q, o);
    NeverAhead(Do(net, step), q, o);
  }

  lemma {:induction false} MeanwhileKeeps(net: Net, steps: seq<NetStep>, net': Net, r: string, q: string, o: string)
    requires Holds(net, r, q, o) && Meanwhile(net, steps, net', r, q, o)
    ensures Holds(net', r, q, o) && NoWorse(net, net', r, o)
    decreases |steps|
  {
    if steps != [] {
      CalmKeeps(net, steps[0], r, q, o);
      MeanwhileKeeps(Do(net, steps[0]), steps[1..], net', r, q, o);
    }
  }

  // ---------- What the answer holds ----------

  /** Every part of an answer about the owner is what the owner has above the version that was asked from. */
  lemma {:induction false} PartOfAnswer(s: State, a: State, ids: seq<string>, o: string, i: nat)
    requires forall k :: 0 <= k < |ids| ==> ids[k] in a.nodes && a.nodes[ids[k]].id == ids[k]
    requires forall id :: id in s.nodes ==> s.nodes[id].id == id
    requires i < |Answer(s, a, ids)| && Answer(s, a, ids)[i].id == o
    ensures o in s.nodes && Answer(s, a, ids)[i] == DeltaEntryOf(s.nodes[o], KnownVersion(a, o))
    decreases |ids|
  {
    if ids != [] {
      DigestTail(a, ids);
      var rest := Answer(s, a, ids[1..]);
      if |Answer(s, a, ids)| == |rest| {
        PartOfAnswer(s, a, ids[1..], o, i);
      } else if i > 0 {
        PartOfAnswer(s, a, ids[1..], o, i - 1);
      }
    }
  }

  /** There is such a part when the owner was asked about itself and has something newer. */
  lemma {:induction false} AnswerTells(s: State, a: State, ids: seq<string>, o: string)
    requires forall k :: 0 <= k < |ids| ==> ids[k] in a.nodes && a.nodes[ids[k]].id == ids[k]
    requires o in s.nodes && s.nodes[o].id == o && o in ids && NewerKeys(s.nodes[o].entries, KnownVersion(a, o)) != {}
    ensures Tells(Answer(s, a, ids), o)
    decreases |ids|
  {
    DigestTail(a, ids);
    var answer, rest := Answer(s, a, ids), Answer(s, a, ids[1..]);
    if ids[0] == o {
      NothingNewer(s.nodes[o].entries, KnownVersion(a, o));
      assert answer[0].id == o;
    } else {
      AnswerTells(s, a, ids[1..], o);
      var i :| 0 <= i < |rest| && rest[i].id == o && rest[i].entries != [];
      assert answer[|answer| - |rest| + i] == rest[i];
    }
  }

  /** The delta has entries about the node. */
  ghost predicate Tells(delta: Delta, o: string) {
    exists i :: 0 <= i < |delta| && delta[i].id == o && delta[i].entries != []
  }

  lemma {:induction false} PartTaken(r: State, sender: string, delta: Delta, now: int, ord: MapOrder, i: nat)
    requires i < |delta| && delta[i].entries != [] && delta[i].id in r.nodes && delta[i].id != r.localID
    ensures KnownVersion(ApplyDelta(r, sender, delta, now, ord), delta[i].id) >= delta[i].entries[0].version
    decreases |delta|
  {
    if i == 0 {
      FirstTaken(r, sender, delta, now, ord);
    } else {
      EntryAhead(r, sender, delta[0], now, ord);
      assert delta[1..][i - 1] == delta[i];
      PartTaken(ApplyDeltaEntry(r, sender, delta[0], now, ord), sender, delta[1..], now, ord, i - 1);
    }
  }

  // ---------- One exchange ----------

  /** The receiver takes a digest of some nodes, the owner among them; later the node it asks handles it and sends
      what fits of the answer; later still that arrives. Any steps may come before and in between. */
  datatype RoundTrip = RoundTrip(
    before: seq<NetStep>, ask: Net, ids: seq<string>,
    between: seq<NetStep>, answer: Net, m: Message,
    after: seq<NetStep>, taking: Net, now: int, ord: MapOrder, end: Net)

  /** What arrives is a truncation of the answer; if the answer tells of the owner, so does what arrives. */
  ghost predicate Carries(answer: Delta, sent: Delta, o: string) {
    Truncates(answer, sent) && (Tells(answer, o) ==> Tells(sent, o))
  }

  ghost predicate Asks(rd: RoundTrip, r: string, o: string) {
    && r in rd.ask.nodes && o in rd.ids
    && forall i :: 0 <= i < |rd.ids| ==> rd.ids[i] in rd.ask.nodes[r].nodes
  }

  ghost function Digested(rd: RoundTrip, r: string, q: string, o: string): NetStep
    requires Asks(rd, r, o)
  {
    Quiet(q, ReceiveDigest(r, DigestOf(rd.ask.nodes[r], rd.ids)))
  }

  ghost predicate Answered(rd: RoundTrip, r: string, q: string, o: string)
    requires Asks(rd, r, o)
  {
    && Calm(rd.answer, Digested(rd, r, q, o), r, q, o)
    && var s := Do(rd.answer, Digested(rd, r, q, o));
       && Calm(s, Send(q, rd.m), r, q, o) && rd.m.dst == r
       && Carries(Answer(s.nodes[q], rd.ask.nodes[r], rd.ids), rd.m.delta, o)
       && Meanwhile(Do(s, Send(q, rd.m)), rd.after, rd.taking, r, q, o)
  }

  ghost predicate Exchanges(net: Net, rd: RoundTrip, r: string, q: string, o: string) {
    && Meanwhile(net, rd.before, rd.ask, r, q, o) && Asks(rd, r, o)
    && Meanwhile(rd.ask, rd.between, rd.answer, r, q, o) && Answered(rd, r, q, o)
    && Calm(rd.taking, Deliver(rd.m, rd.now, rd.ord), r, q, o)
    && rd.end == Do(rd.taking, Deliver(rd.m, rd.now, rd.ord))
  }

  /** Once a first entry newer than what the receiver asked from is taken, less is missing than when it asked. */
  lemma TakenIsLess(own: NodeState, asked: nat, sent: seq<Entry>, v: nat)
    requires EntriesWf(own.entries) && sent != [] && sent <= Ascending(own.entries, asked) && sent[0].version <= v
    ensures asked <= v && |NewerKeys(own.entries, v)| < |NewerKeys(own.entries, asked)|
  {
    AscendingLists(own.entries, asked);
    var e := sent[0];
    assert e == Ascending(own.entries, asked)[0] && own.entries[e.key] == e;
    NewerSubset(own.entries, asked, v);
  }

  /** What arrives of the answer, if the owner had something newer than the receiver asked from. */
  lemma ArrivedPart(s: State, a: State, ids: seq<string>, sent: Delta, o: string) returns (i: nat)
    requires forall k :: 0 <= k < |ids| ==> ids[k] in a.nodes && a.nodes[ids[k]].id == ids[k]
    requires forall id :: id in s.nodes ==> s.nodes[id].id == id
    requires o in s.nodes && o in ids && Carries(Answer(s, a, ids), sent, o)
    requires NewerKeys(s.nodes[o].entries, KnownVersion(a, o)) != {}
    ensures i < |sent| && sent[i].id == o && sent[i].entries != []
    ensures sent[i].entries <= Ascending(s.nodes[o].entries, KnownVersion(a, o))
  {
    AnswerTells(s, a, ids, o);
    i :| 0 <= i < |sent| && sent[i].id == o && sent[i].entries != [];
    PartOfAnswer(s, a, ids, o, i);
  }

  lemma KnowsIDs(net: Net, n: string)
    requires NetInv(net) && n in net.nodes
    ensures net.nodes[n].localID == n && forall id :: id in net.nodes[n].nodes ==> net.nodes[n].nodes[id].id == id
  {
    assert NodeOk(net, n);
  }

  /** The node with the owner's version has the owner's entries. */
  lemma HeldByRelay(net: Net, q: string, o: string)
    requires NetInv(net) && Knows(net, q, o) && KnownVersion(net.nodes[q], o) == Owner(net, o).version
    ensures net.nodes[q].nodes[o].entries == Owner(net, o).entries && EntriesWf(Owner(net, o).entries)
  {
    assert NodeOk(net, q) && OwnerAt(net, o) && ViewAt(net, net.nodes[q], o);
    EqualVersionEqualState(net.nodes[q].nodes[o], Owner(net, o), Hist(net, o));
  }

  /** A part of the delta tells of the owner, from version `v` on. */
  ghost predicate Underway(delta: Delta, i: int, own: NodeState, v: nat, o: string) {
    && 0 <= i < |delta| && delta[i].id == o && delta[i].entries != []
    && delta[i].entries <= Ascending(own.entries, v)
  }

  /** The owner answers: the receiver is no worse off, and what is in flight starts where it asked from. */
  lemma AnswerUnderway(rd: RoundTrip, r: string, q: string, o: string)
    requires Holds(rd.ask, r, q, o) && Asks(rd, r, o) && Meanwhile(rd.ask, rd.between, rd.answer, r, q, o) && Answered(rd, r, q, o)
    ensures Holds(rd.taking, r, q, o) && NoWorse(rd.ask, rd.taking, r, o) && rd.m.sender == q
    ensures var own, v := Owner(rd.ask, o), KnownVersion(rd.ask.nodes[r], o);
      NewerKeys(own.entries, v) != {} ==> exists i :: Underway(rd.m.delta, i, own, v, o)
  {
    MeanwhileKeeps(rd.ask, rd.between, rd.answer, r, q, o);
    CalmKeeps(rd.answer, Digested(rd, r, q, o), r, q, o);
    var net := Do(rd.answer, Digested(rd, r, q, o));
    CalmKeeps(net, Send(q, rd.m), r, q, o);
    MeanwhileKeeps(Do(net, Send(q, rd.m)), rd.after, rd.taking, r, q, o);
    KnowsIDs(rd.ask, r);
    KnowsIDs(net, q);
    HeldByRelay(net, q, o);
    if NewerKeys(Owner(rd.ask, o).entries, KnownVersion(rd.ask.nodes[r], o)) != {} {
      var i := ArrivedPart(net.nodes[q], rd.ask.nodes[r], rd.ids, rd.m.delta, o);
      assert Underway(rd.m.delta, i, Owner(rd.ask, o), KnownVersion(rd.ask.nodes[r], o), o);
    }
  }

  ghost function Lacks(net: Net, r: string, o: string): nat
    requires r in net.nodes
  {
    |NewerKeys(Owner(net, o).entries, KnownVersion(net.nodes[r], o))|
  }

  lemma NoWorseLacks(net: Net, net': Net, r: string, o: string)
    requires r in net.nodes && r in net'.nodes && NoWorse(net, net', r, o)
    ensures Lacks(net', r, o) <= Lacks(net, r, o)
  {
    NewerSubset(Owner(net, o).entries, KnownVersion(net.nodes[r], o), KnownVersion(net'.nodes[r], o));
  }

  lemma TakingHelps(rd: RoundTrip, r: string, q: string, o: string)
    requires Holds(rd.ask, r, q, o) && Asks(rd, r, o) && Meanwhile(rd.ask, rd.between, rd.answer, r, q, o) && Answered(rd, r, q, o)
    requires Calm(rd.taking, Deliver(rd.m, rd.now, rd.ord), r, q, o) && rd.m.dst == r
    requires rd.end == Do(rd.taking, Deliver(rd.m, rd.now, rd.ord)) && Lacks(rd.ask, r, o) > 0
    ensures r in rd.end.nodes && Lacks(rd.end, r, o) < Lacks(rd.ask, r, o)
  {
    AnswerUnderway(rd, r, q, o);
    OwnerStays(rd.taking, Deliver(rd.m, rd.now, rd.ord), o);
    var own, v, d := Owner(rd.ask, o), KnownVersion(rd.ask.nodes[r], o), rd.m.delta;
    var i :| Underway(d, i, own, v, o);
    KnowsIDs(rd.taking, r);
    HeldByRelay(rd.ask, q, o);
    PartTaken(rd.taking.nodes[r], q, d, rd.now, rd.ord, i);
    assert rd.end.nodes[r] == ApplyDelta(rd.taking.nodes[r], q, d, rd.now, rd.ord);
    TakenIsLess(own, v, d[i].entries, KnownVersion(rd.end.nodes[r], o));
  }

  /** Whatever else happens, a completed exchange leaves the receiver with less missing, or with nothing. */
  lemma RoundHelps(net: Net, rd: RoundTrip, r: string, q: string, o: string)
    requires Holds(net, r, q, o) && Exchanges(net, rd, r, q, o)
    ensures Holds(rd.end, r, q, o) && NoWorse(net, rd.end, r, o)
    ensures Lacks(rd.end, r, o) == 0 || Lacks(rd.end, r, o) < Lacks(net, r, o)
  {
    MeanwhileKeeps(net, rd.before, rd.ask, r, q, o);
    AnswerUnderway(rd, r, q, o);
    CalmKeeps(rd.taking, Deliver(rd.m, rd.now, rd.ord), r, q, o);
    NoWorseLacks(net, rd.ask, r, o);
    if Lacks(rd.ask, r, o) > 0 {
      TakingHelps(rd, r, q, o);
    } else {
      NoWorseLacks(rd.ask, rd.end, r, o);
    }
  }

  // ---------- Enough exchanges ----------

  /** The network after the first `i` exchanges. */
  ghost function AfterRounds(net: Net, rds: seq<RoundTrip>, i: nat): Net
    requires i <= |rds|
  {
    if i == 0 then net else rds[i - 1].end
  }

  ghost predicate ExchangesAt(net: Net, rds: seq<RoundTrip>, i: nat, r: string, q: string, o: string)
    requires i < |rds|
  {
    Exchanges(AfterRounds(net, rds, i), rds[i], r, q, o)
  }

  ghost predicate Chain(net: Net, rds: seq<RoundTrip>, r: string, q: string, o: string) {
    forall i :: 0 <= i < |rds| ==> ExchangesAt(net, rds, i, r, q, o)
  }

  lemma NextHelps(net: Net, rds: seq<RoundTrip>, i: nat, r: string, q: string, o: string)
    requires Chain(net, rds, r, q, o) && i < |rds| && Holds(AfterRounds(net, rds, i), r, q, o)
    ensures var a, b := AfterRounds(net, rds, i), AfterRounds(net, rds, i + 1);
      Holds(b, r, q, o) && (Lacks(b, r, o) == 0 || Lacks(b, r, o) < Lacks(a, r, o))
  {
    assert ExchangesAt(net, rds, i, r, q, o);
    RoundHelps(AfterRounds(net, rds, i), rds[i], r, q, o);
  }

  lemma {:induction false} ChainHelps(net: Net, rds: seq<RoundTrip>, i: nat, r: string, q: string, o: string)
    requires Holds(net, r, q, o) && Chain(net, rds, r, q, o) && i <= |rds|
    ensures var net' := AfterRounds(net, rds, i);
      Holds(net', r, q, o) && (Lacks(net', r, o) == 0 || Lacks(net', r, o) + i <= Lacks(net, r, o))
    decreases i
  {
    if i == 0 {
      assert AfterRounds(net, rds, 0) == net;
    } else {
      ChainHelps(net, rds, i - 1, r, q, o);
      NextHelps(net, rds, i - 1, r, q, o);
    }
  }

  /** The receiver has the owner's version, entries and left mark. */
  ghost predicate CaughtUp(net: Net, r: string, o: string) {
    && r in net.nodes && o in net.nodes && o in net.nodes[r].nodes && o in net.nodes[o].nodes
    && var view, own := net.nodes[r].nodes[o], net.nodes[o].nodes[o];
       view.version == own.version && view.entries == own.entries && view.left == own.left
  }

  lemma NothingLacking(net: Net, r: string, o: string)
    requires NetInv(net) && Knows(net, r, o) && Lacks(net, r, o) == 0
    ensures CaughtUp(net, r, o)
  {
    assert NodeOk(net, o);
    CaughtUpWithOwner(net, r, o);
  }

  lemma ChainCatchesUp(net: Net, rds: seq<RoundTrip>, r: string, q: string, o: string)
    requires Holds(net, r, q, o) && Chain(net, rds, r, q, o) && |rds| >= Lacks(net, r, o)
    ensures CaughtUp(AfterRounds(net, rds, |rds|), r, o)
  {
    ChainHelps(net, rds, |rds|, r, q, o);
    NothingLacking(AfterRounds(net, rds, |rds|), r, o);
  }

  lemma ReachableHolds(addrs: map<string, string>, steps: seq<NetStep>, net: Net, r: string, q: string, o: string)
    requires Leads(Start(addrs), steps, net) && r != o && r != q && Knows(net, r, o) && Knows(net, q, o)
    requires KnownVersion(net.nodes[q], o) == Owner(net, o).version
    ensures Holds(net, r, q, o)
  {
    StartOk(addrs);
    RunOk(Start(addrs), steps, net);
  }

  /** From any reachable network: after as many exchanges with the owner, or with any node that has the owner's
      version, as the owner has entries the receiver lacks, however little each carries and whatever else happens
      meanwhile, the receiver has the owner's version, entries and left mark. The owner does not change, nobody
      of the two forgets it, and the receiver can take each answer. */
  lemma ExchangesCatchUp(addrs: map<string, string>, steps: seq<NetStep>, net: Net, rds: seq<RoundTrip>,
                         r: string, q: string, o: string)
    requires Leads(Start(addrs), steps, net) && r != o && r != q && Knows(net, r, o) && Knows(net, q, o)
    requires KnownVersion(net.nodes[q], o) == Owner(net, o).version
    requires Chain(net, rds, r, q, o) && |rds| >= Lacks(net, r, o)
    ensures CaughtUp(AfterRounds(net, rds, |rds|), r, o)
  {
    ReachableHolds(addrs, steps, net, r, q, o);
    ChainCatchesUp(net, rds, r, q, o);
  }

  /** The owner itself always can be asked. */
  lemma OwnerHolds(net: Net, r: string, o: string)
    requires NetInv(net) && r != o && Knows(net, r, o)
    ensures Holds(net, r, o, o)
  {
    assert NodeOk(net, o);
  }

  lemma CanDigest(net: Net, r: string, q: string, o: string, digest: Digest)
    requires Holds(net, r, q, o)
    ensures var quiet := Quiet(q, ReceiveDigest(r, digest));
      && CanDo(net, quiet) && Do(net, quiet).nodes[r] == net.nodes[r]
      && Do(net, quiet).nodes[q] == ApplyDigest(net.nodes[q], r, digest)
  {
    assert NodeOk(net, q);
  }

  lemma {:induction false} DigestKeepsKnown(s: State, sender: string, digest: Digest)
    ensures s.nodes.Keys <= ApplyDigest(s, sender, digest).nodes.Keys
    decreases |digest|
  {
    if digest != [] { DigestKeepsKnown(ApplyDigestEntry(s, sender, digest[0]), sender, digest[1..]); }
  }

  lemma CanDeliver(net: Net, r: string, q: string, o: string, m: Message, now: int, ord: MapOrder)
    requires Holds(net, r, q, o) && m.dst == r && m.sender == q && Sendable(net.nodes[q], m.delta, m.froms)
    requires UpToDate(net, net.nodes[r], q, m.delta, m.froms)
    ensures Calm(net, Send(q, m), r, q, o) && Calm(Do(net, Send(q, m)), Deliver(m, now, ord), r, q, o)
  {
    DeltaAhead(net.nodes[r], q, m.delta, now, ord);
    assert SameOwners(net, Do(net, Send(q, m)));
  }

  /** Such exchanges can always take place: any part of the answer that tells of the owner can be sent and
      taken. */
  lemma CanExchange(net: Net, r: string, q: string, o: string, ids: seq<string>, sent: Delta, now: int, ord: MapOrder)
    returns (rd: RoundTrip)
    requires Holds(net, r, q, o) && o in ids && forall i :: 0 <= i < |ids| ==> ids[i] in net.nodes[r].nodes
    requires Carries(HandleDigest(net.nodes[q], r, DigestOf(net.nodes[r], ids), true, ord).delta, sent, o)
    ensures Exchanges(net, rd, r, q, o) && rd.m.delta == sent && rd.ids == ids
  {
    var digest := DigestOf(net.nodes[r], ids);
    var asked := ApplyDigest(net.nodes[q], r, digest);
    assert DeltaFor(asked, digest, false, ord) == DigestDelta(asked, digest) == Answer(asked, net.nodes[r], ids);
    CanDigest(net, r, q, o, digest);
    DigestKeepsKnown(net.nodes[q], r, digest);
    var quiet := Quiet(q, ReceiveDigest(r, digest));
    var net1 := Do(net, quiet);
    CalmKeeps(net, quiet, r, q, o);
    var froms := Sends(net1, q, digest, ord, sent);
    KnowsIDs(net, r);
    ReplyIsUpToDate(net1, net.nodes[r], net.nodes[r], ids, q, sent, froms);
    var m := Message(r, q, sent, froms);
    CanDeliver(net1, r, q, o, m, now, ord);
    var net2 := Do(net1, Send(q, m));
    rd := RoundTrip([], net, ids, [], net, m, [], net2, now, ord, Do(net2, Deliver(m, now, ord)));
  }

  lemma Sends(net: Net, q: string, digest: Digest, ord: MapOrder, sent: Delta) returns (froms: seq<nat>)
    requires NetInv(net) && q in net.nodes && Truncates(DeltaFor(net.nodes[q], digest, false, ord), sent)
    ensures Sendable(net.nodes[q], sent, froms) && AskedFor(digest, sent, froms)
  {
    assert NodeOk(net, q);
    froms := ReplyIsSendable(net.nodes[q], digest, false, ord, sent);
  }
}
