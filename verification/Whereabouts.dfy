/** The gossip addresses: whatever a node holds or says about another has the address the other started with. */
module Whereabouts {
  import opened GossipState
  import opened Runs
  import opened Membership
  import opened Network
  import opened Answering

  type Addrs = map<string, string>

  /** The address is the one the node started with. */
  predicate Right(addrs: Addrs, id: string, addr: string) {
    id in addrs && addr == addrs[id]
  }

  ghost predicate StateRight(addrs: Addrs, s: State) {
    forall id :: id in s.nodes ==> s.nodes[id].id == id && Right(addrs, id, s.nodes[id].addr)
  }

  ghost predicate DigestRight(addrs: Addrs, digest: Digest) {
    forall i :: 0 <= i < |digest| ==> Right(addrs, digest[i].id, digest[i].addr)
  }

  ghost predicate DeltaRight(addrs: Addrs, delta: Delta) {
    forall i :: 0 <= i < |delta| ==> Right(addrs, delta[i].id, delta[i].addr)
  }

  ghost predicate ViewsRight(addrs: Addrs, net: Net) {
    forall n :: n in net.nodes ==> StateRight(addrs, net.nodes[n])
  }

  ghost predicate NetRight(addrs: Addrs, net: Net) {
    ViewsRight(addrs, net) && forall m :: m in net.msgs ==> DeltaRight(addrs, m.delta)
  }

  // ---------- Runs in which nobody makes up addresses ----------

  /** Some node holds the address for the node. */
  ghost predicate HeldIn(net: Net, id: string, addr: string) {
    exists n :: n in net.nodes && id in net.nodes[n].nodes && net.nodes[n].nodes[id].addr == addr
  }

  ghost predicate HeldOnce(past: seq<Net>, id: string, addr: string) {
    exists i :: 0 <= i < |past| && HeldIn(past[i], id, addr)
  }

  /** What is sent has the addresses the sender holds; a digest has addresses some node held by then. */
  ghost predicate Honest(past: seq<Net>, net: Net, step: NetStep)
    requires CanDo(net, step)
  {
    match step
    case Send(n, m) =>
      forall i :: 0 <= i < |m.delta| ==> m.delta[i].addr == net.nodes[n].nodes[m.delta[i].id].addr
    case Quiet(_, op) =>
      op.ReceiveDigest? ==>
        forall i :: 0 <= i < |op.digest| ==> HeldOnce(past, op.digest[i].id, op.digest[i].addr)
    case _ => true
  }

  /** `past` are the networks up to and including this one. */
  ghost predicate HonestRun(past: seq<Net>, net: Net, steps: seq<NetStep>, net': Net)
    decreases |steps|
  {
    if steps == [] then net == net'
    else
      && CanDo(net, steps[0]) && Honest(past, net, steps[0])
      && HonestRun(past + [Do(net, steps[0])], Do(net, steps[0]), steps[1..], net')
  }

  // ---------- Operations ----------

  lemma {:induction false} DigestKeepsRight(addrs: Addrs, s: State, sender: string, digest: Digest)
    requires StateRight(addrs, s) && DigestRight(addrs, digest)
    ensures StateRight(addrs, ApplyDigest(s, sender, digest))
    decreases |digest|
  {
    if digest != [] {
      assert forall i :: 0 <= i < |digest[1..]| ==> digest[1..][i] == digest[i + 1];
      DigestKeepsRight(addrs, ApplyDigestEntry(s, sender, digest[0]), sender, digest[1..]);
    }
  }

  lemma {:induction false} EntriesKeepAddr(w: Work, es: seq<Entry>, now: int, ord: MapOrder)
    ensures var ns := ApplyEntries(w, es, now, ord).ns; ns.id == w.ns.id && ns.addr == w.ns.addr
    decreases |es|
  {
    if es != [] && !Ends(w.ns.version, es[0]) { EntriesKeepAddr(ApplyEntry(w, es[0], now, ord), es[1..], now, ord); }
  }

  lemma {:induction false} DeltaKeepsRight(addrs: Addrs, s: State, sender: string, delta: Delta, now: int, ord: MapOrder)
    requires StateRight(addrs, s) && DeltaRight(addrs, delta)
    ensures StateRight(addrs, ApplyDelta(s, sender, delta, now, ord))
    decreases |delta|
  {
    if delta != [] {
      var de := delta[0];
      if !Discards(s, sender, de.id) {
        EntriesKeepAddr(WorkOf(Discovered(s, de.id, de.addr), de.id), de.entries, now, ord);
      }
      assert forall i :: 0 <= i < |delta[1..]| ==> delta[1..][i] == delta[i + 1];
      DeltaKeepsRight(addrs, ApplyDeltaEntry(s, sender, de, now, ord), sender, delta[1..], now, ord);
    }
  }

  lemma {:induction false} ReversionKeepsAddr(ns: NodeState, es: seq<Entry>)
    ensures Reversion(ns, es).id == ns.id && Reversion(ns, es).addr == ns.addr
    decreases |es|
  {
    if es != [] { ReversionKeepsAddr(if Kept(es[0]) then Bump(ns, es[0]) else ns, es[1..]); }
  }

  lemma LocalKeepsAddr(ns: NodeState, op: Op)
    requires IsLocal(op) && (op.Compact? ==> !CompactPanics(ns, op.threshold))
    ensures LocalNode(ns, op).id == ns.id && LocalNode(ns, op).addr == ns.addr
  {
    if op.Compact? { ReversionKeepsAddr(ns.(entries := map[]), Ascending(ns.entries, 0)); }
  }

  lemma OtherKeepsRight(addrs: Addrs, s: State, op: Op)
    requires StateRight(addrs, s) && Enabled(s, op) && !op.ReceiveDigest? && !op.ReceiveDelta?
    ensures StateRight(addrs, Step(s, op))
  {
    var inv, ok := (t: State) => StateRight(addrs, t), (m: Micro) => !m.MDiscover? && !m.MEntry?;
    forall t, m | inv(t) && ok(m) && Guard(t, m) ensures inv(MicroStep(t, m)) {
      if m.MLocal? {
        LocalStep(t, m.op);
        LocalKeepsAddr(Local(t), m.op);
      }
    }
    StepKeeps(inv, ok, s, op);
  }

  // ---------- Steps ----------

  ghost predicate PastRight(addrs: Addrs, past: seq<Net>) {
    forall i :: 0 <= i < |past| ==> ViewsRight(addrs, past[i])
  }

  lemma HeldIsRight(addrs: Addrs, past: seq<Net>, id: string, addr: string)
    requires PastRight(addrs, past) && HeldOnce(past, id, addr)
    ensures Right(addrs, id, addr)
  {
    var i :| 0 <= i < |past| && HeldIn(past[i], id, addr);
    var n :| n in past[i].nodes && id in past[i].nodes[n].nodes && past[i].nodes[n].nodes[id].addr == addr;
    assert StateRight(addrs, past[i].nodes[n]);
  }

  lemma QuietKeepsRight(addrs: Addrs, past: seq<Net>, net: Net, n: string, op: Op)
    requires NetRight(addrs, net) && PastRight(addrs, past)
    requires CanDo(net, Quiet(n, op)) && Honest(past, net, Quiet(n, op))
    ensures StateRight(addrs, Step(net.nodes[n], op))
  {
    if op.ReceiveDigest? {
      forall i | 0 <= i < |op.digest| ensures Right(addrs, op.digest[i].id, op.digest[i].addr) {
        HeldIsRight(addrs, past, op.digest[i].id, op.digest[i].addr);
      }
      DigestKeepsRight(addrs, net.nodes[n], op.sender, op.digest);
    } else {
      OtherKeepsRight(addrs, net.nodes[n], op);
    }
  }

  lemma StepKeepsRight(addrs: Addrs, past: seq<Net>, net: Net, step: NetStep)
    requires NetRight(addrs, net) && PastRight(addrs, past) && CanDo(net, step) && Honest(past, net, step)
    ensures NetRight(addrs, Do(net, step))
  {
    match step
    case LocalUpdate(n, op) => OtherKeepsRight(addrs, net.nodes[n], op);
    case Quiet(n, op) => QuietKeepsRight(addrs, past, net, n, op);
    case Send(n, m) => assert StateRight(addrs, net.nodes[n]);
    case Deliver(m, now, ord) => DeltaKeepsRight(addrs, net.nodes[m.dst], m.sender, m.delta, now, ord);
  }

  lemma {:induction false} RunKeepsRight(addrs: Addrs, past: seq<Net>, net: Net, steps: seq<NetStep>, net': Net)
    requires NetRight(addrs, net) && PastRight(addrs, past) && HonestRun(past, net, steps, net')
    ensures NetRight(addrs, net')
    decreases |steps|
  {
    if steps != [] {
      StepKeepsRight(addrs, past, net, steps[0]);
      RunKeepsRight(addrs, past + [Do(net, steps[0])], Do(net, steps[0]), steps[1..], net');
    }
  }

  // ---------- The result ----------

  lemma SaysRight(addrs: Addrs, s: State, digest: Digest, fullDigest: bool, ord: MapOrder)
    requires StateRight(addrs, s) && StateWf(s)
    ensures DigestRight(addrs, FullDigest(s, ord)) && DeltaRight(addrs, DeltaFor(s, digest, fullDigest, ord))
  {
    var ids, d := Range(ord, s.nodes.Keys), DeltaFor(s, digest, fullDigest, ord);
    assert forall i :: 0 <= i < |ids| ==> ids[i] in ids;
    var js := MentionedParts(s, digest, fullDigest, ord);
    forall i | 0 <= i < |d| ensures Right(addrs, d[i].id, d[i].addr) {
      if i < |js| {
        assert AnswersAt(s, digest, d, js, i);
      } else {
        var k := UnmentionedParts(s, digest, ord, d[i].id);
      }
    }
  }

  /** In every run in which nobody makes up addresses: every view of a node, every part of a message about it, every
      digest and every answer has the address the node started with. */
  lemma AddressesStayRight(
    addrs: Addrs, steps: seq<NetStep>, net: Net, n: string, digest: Digest, fullDigest: bool, ord: MapOrder)
    requires HonestRun([Start(addrs)], Start(addrs), steps, net) && n in net.nodes
    ensures forall id :: id in net.nodes[n].nodes ==> Right(addrs, id, net.nodes[n].nodes[id].addr)
    ensures forall m :: m in net.msgs ==> DeltaRight(addrs, m.delta)
    ensures DigestRight(addrs, FullDigest(net.nodes[n], ord))
    ensures DeltaRight(addrs, DeltaFor(net.nodes[n], digest, fullDigest, ord))
  {
    RunKeepsRight(addrs, [Start(addrs)], Start(addrs), steps, net);
    HonestLeads([Start(addrs)], Start(addrs), steps, net);
    StartOk(addrs);
    RunOk(Start(addrs), steps, net);
    assert StateRight(addrs, net.nodes[n]) && NodeOk(net, n);
    SaysRight(addrs, net.nodes[n], digest, fullDigest, ord);
  }

  lemma {:induction false} HonestLeads(past: seq<Net>, net: Net, steps: seq<NetStep>, net': Net)
    requires HonestRun(past, net, steps, net')
    ensures Leads(net, steps, net')
    decreases |steps|
  {
    if steps != [] { HonestLeads(past + [Do(net, steps[0])], Do(net, steps[0]), steps[1..], net'); }
  }
}
