/** Joining: the new node sends what it has about itself and its full digest, and takes the whole answer. */
module Joining {
  import opened Strconv
  import opened GossipState
  import opened Runs
  import opened Idempotence
  import opened Replica
  import opened Network
  import opened Progress
  import opened Exchange
  import opened CatchUp
  import opened Answering

  /** The stream listener on a join: take the delta, discover from the digest, and answer the full digest. */
  ghost function HandleJoin(s: State, sender: string, delta: Delta, digest: Digest, now: int, ord: MapOrder): Handled {
    var s1 := ApplyDigest(ApplyDelta(s, sender, delta, now, ord), sender, digest);
    Handled(s1, DeltaFor(s1, digest, true, ord), None)
  }

  // ---------- Taking a whole part ----------

  /** A list that ends with everything the view has leads to the view's version. */
  lemma LeadsToVersion(view: NodeState, from: nat, es: seq<Entry>)
    requires NodeWf(view) && HasNewest(view) && view.version > from && Lists(view.entries, from, es)
    ensures es != [] && LastVersion(es, 0) == view.version
  {
    var k :| k in view.entries && view.entries[k].version == view.version;
    var i :| 0 <= i < |es| && es[i] == view.entries[k];
    var last := es[|es| - 1];
    assert last.key in view.entries && view.entries[last.key] == last;
  }

  ghost predicate AllReadable(es: seq<Entry>) {
    forall i :: 0 <= i < |es| ==> Readable(es[i])
  }

  lemma PartReached(r: State, sender: string, de: DeltaEntry, now: int, ord: MapOrder)
    requires !Discards(r, sender, de.id) && AllReadable(de.entries)
    ensures KnownVersion(ApplyDeltaEntry(r, sender, de, now, ord), de.id) >= LastVersion(de.entries, 0)
  {
    var w := WorkOf(Discovered(r, de.id, de.addr), de.id);
    EntriesNewest(w, de.entries, now, ord);
    ReadableCatchesUp(w.ns.version, de.entries);
  }

  lemma {:induction false} WholePartTaken(r: State, sender: string, delta: Delta, now: int, ord: MapOrder, i: nat)
    requires i < |delta| && !Discards(r, sender, delta[i].id) && AllReadable(delta[i].entries)
    ensures KnownVersion(ApplyDelta(r, sender, delta, now, ord), delta[i].id) >= LastVersion(delta[i].entries, 0)
    decreases |delta|
  {
    var r1 := ApplyDeltaEntry(r, sender, delta[0], now, ord);
    if i == 0 {
      PartReached(r, sender, delta[0], now, ord);
      DeltaAhead(r1, sender, delta[1..], now, ord);
    } else {
      StillTaken(r, sender, delta[0], now, ord, delta[i].id);
      assert delta[1..][i - 1] == delta[i];
      WholePartTaken(r1, sender, delta[1..], now, ord, i - 1);
    }
  }

  // ---------- What the answer brings ----------

  lemma DigestVersions(c: State, ord: MapOrder, id: string) returns (j: nat)
    requires (forall n :: n in c.nodes ==> c.nodes[n].id == n) && id in c.nodes
    ensures j < |FullDigest(c, ord)| && FullDigest(c, ord)[j] == DigestEntryOf(c.nodes[id])
  {
    var ids := Range(ord, c.nodes.Keys);
    assert id in ids;
    j :| 0 <= j < |ids| && ids[j] == id;
  }

  lemma DigestMentions(c: State, ord: MapOrder, id: string)
    requires forall n :: n in c.nodes ==> c.nodes[n].id == n
    ensures id in DigestIDs(FullDigest(c, ord)) <==> id in c.nodes
  {
    var ids, d := Range(ord, c.nodes.Keys), FullDigest(c, ord);
    if id in c.nodes {
      var j := DigestVersions(c, ord, id);
      MentionedIn(d, j);
    }
    if id in DigestIDs(d) {
      var j :| 0 <= j < |d| && d[j].id == id;
      assert ids[j] in ids;
    }
  }

  /** Where the answerer is ahead of the digest, or the digest does not mention the node, a part of the answer leads
      to the answerer's version. */
  lemma PartLeadsOn(s: State, c: State, ord: MapOrder, ord': MapOrder, id: string) returns (i: nat)
    requires StateWf(s) && id in s.nodes && HasNewest(s.nodes[id])
    requires (forall n :: n in c.nodes ==> c.nodes[n].id == n)
    requires id !in c.nodes || KnownVersion(s, id) > KnownVersion(c, id)
    ensures var d := DeltaFor(s, FullDigest(c, ord), true, ord');
      i < |d| && d[i].id == id && LastVersion(d[i].entries, 0) >= KnownVersion(s, id)
  {
    var digest, view := FullDigest(c, ord), s.nodes[id];
    var d := DeltaFor(s, digest, true, ord');
    DigestMentions(c, ord, id);
    if id in c.nodes {
      var j := DigestVersions(c, ord, id);
      NewerIsLacking(s, digest[j]);
      var js := MentionedParts(s, digest, true, ord');
      assert j in js;
      i :| 0 <= i < |js| && js[i] == j;
      assert AnswersAt(s, digest, d, js, i);
      LeadsToVersion(view, digest[j].version, d[i].entries);
    } else {
      i := UnmentionedParts(s, digest, ord', id);
      if view.version > 0 { LeadsToVersion(view, 0, d[i].entries); }
    }
  }

  lemma NewerIsLacking(s: State, d: DigestEntry)
    requires d.id in s.nodes && HasNewest(s.nodes[d.id]) && s.nodes[d.id].version > d.version
    ensures Lacking(s, d)
  {
  }

  // ---------- In the network ----------

  lemma HistReadable(net: Net, delta: Delta, froms: seq<nat>, i: nat)
    requires OwnersOk(net) && InFlight(delta, froms, net) && i < |delta|
    ensures AllReadable(delta[i].entries)
  {
    var es, id := delta[i].entries, delta[i].id;
    assert PartAt(net, delta[i], froms[i]) && OwnerAt(net, id);
    forall k | 0 <= k < |es| ensures Readable(es[k]) { assert es[k] in Hist(net, id) && Written(Owner(net, id), es[k]); }
  }

  /** `c` takes a digest of every node it knows; later `a` handles it and sends the whole answer; later still that
      arrives. Any steps of anyone may come in between. */
  datatype Join = Join(
    ask: Net, ord: MapOrder, between: seq<NetStep>, answer: Net, ord': MapOrder, m: Message,
    after: seq<NetStep>, taking: Net, now: int, ord'': MapOrder, end: Net)

  ghost function Digested(j: Join, c: string, a: string): NetStep
    requires c in j.ask.nodes
  {
    Quiet(a, ReceiveDigest(c, FullDigest(j.ask.nodes[c], j.ord)))
  }

  /** The network in which `a` answers. */
  ghost function AnsweredAt(j: Join, c: string, a: string): Net
    requires c in j.ask.nodes && CanDo(j.answer, Digested(j, c, a))
  {
    Do(j.answer, Digested(j, c, a))
  }

  ghost predicate Joins(j: Join, c: string, a: string) {
    && c in j.ask.nodes && Leads(j.ask, j.between, j.answer) && CanDo(j.answer, Digested(j, c, a))
    && CanDo(AnsweredAt(j, c, a), Send(a, j.m)) && j.m.dst == c
    && j.m.delta == DeltaFor(AnsweredAt(j, c, a).nodes[a], FullDigest(j.ask.nodes[c], j.ord), true, j.ord')
    && Leads(Do(AnsweredAt(j, c, a), Send(a, j.m)), j.after, j.taking)
    && CanDo(j.taking, Deliver(j.m, j.now, j.ord'')) && j.end == Do(j.taking, Deliver(j.m, j.now, j.ord''))
  }

  /** The node has not been forgotten since. */
  ghost predicate Remembers(before: State, s: State, id: string) {
    id in before.nodes ==> id in s.nodes && before.nodes[id].version <= s.nodes[id].version
  }

  /** On values: taking the whole answer. */
  lemma AnswerTaken(s: State, asked: State, r: State, ord: MapOrder, ord': MapOrder, delta: Delta, sender: string,
                    now: int, ord'': MapOrder, id: string)
    requires StateWf(s) && id in s.nodes && HasNewest(s.nodes[id])
    requires forall n :: n in asked.nodes ==> asked.nodes[n].id == n
    requires delta == DeltaFor(s, FullDigest(asked, ord), true, ord')
    requires forall i :: 0 <= i < |delta| ==> AllReadable(delta[i].entries)
    requires !Discards(r, sender, id) && Remembers(asked, r, id)
    ensures var r' := ApplyDelta(r, sender, delta, now, ord'');
      id in r'.nodes && KnownVersion(s, id) <= KnownVersion(r', id)
  {
    DeltaAhead(r, sender, delta, now, ord'');
    if id !in asked.nodes || KnownVersion(s, id) > KnownVersion(asked, id) {
      var i := PartLeadsOn(s, asked, ord, ord', id);
      PartKnown(r, sender, delta, now, ord'', i);
      WholePartTaken(r, sender, delta, now, ord'', i);
    }
  }

  lemma JoinOk(j: Join, c: string, a: string)
    requires NetInv(j.ask) && Joins(j, c, a)
    ensures NetInv(j.answer) && NetInv(AnsweredAt(j, c, a)) && NetInv(j.taking) && NetInv(j.end)
  {
    RunOk(j.ask, j.between, j.answer);
    NetStepOk(j.answer, Digested(j, c, a));
    NetStepOk(AnsweredAt(j, c, a), Send(a, j.m));
    RunOk(Do(AnsweredAt(j, c, a), Send(a, j.m)), j.after, j.taking);
    NetStepOk(j.taking, Deliver(j.m, j.now, j.ord''));
  }

  /** In every run: a node that takes the whole answer to its full digest then knows every node the answerer knew
      and it does not discard, at no lower version, if it has not forgotten it since it asked. */
  lemma JoinTellsAll(addrs: map<string, string>, steps: seq<NetStep>, j: Join, c: string, a: string, id: string)
    requires Leads(Start(addrs), steps, j.ask) && Joins(j, c, a)
    requires a in AnsweredAt(j, c, a).nodes && id in AnsweredAt(j, c, a).nodes[a].nodes
    requires !Discards(j.taking.nodes[c], a, id) && Remembers(j.ask.nodes[c], j.taking.nodes[c], id)
    ensures c in j.end.nodes && id in j.end.nodes[c].nodes
    ensures KnownVersion(AnsweredAt(j, c, a).nodes[a], id) <= KnownVersion(j.end.nodes[c], id)
  {
    StartOk(addrs);
    RunOk(Start(addrs), steps, j.ask);
    JoinOk(j, c, a);
    JoinTakes(j, c, a, id);
  }

  lemma JoinTakes(j: Join, c: string, a: string, id: string)
    requires Joins(j, c, a) && NetInv(j.ask) && NetInv(AnsweredAt(j, c, a)) && NetInv(j.taking)
    requires a in AnsweredAt(j, c, a).nodes && id in AnsweredAt(j, c, a).nodes[a].nodes
    requires !Discards(j.taking.nodes[c], a, id) && Remembers(j.ask.nodes[c], j.taking.nodes[c], id)
    ensures c in j.end.nodes && id in j.end.nodes[c].nodes
    ensures KnownVersion(AnsweredAt(j, c, a).nodes[a], id) <= KnownVersion(j.end.nodes[c], id)
  {
    var net := AnsweredAt(j, c, a);
    assert NodeOk(net, a) && ViewAt(net, net.nodes[a], id);
    assert NodeOk(j.ask, c);
    forall i | 0 <= i < |j.m.delta| ensures AllReadable(j.m.delta[i].entries) {
      HistReadable(j.taking, j.m.delta, j.m.froms, i);
    }
    AnswerTaken(net.nodes[a], j.ask.nodes[c], j.taking.nodes[c], j.ord, j.ord', j.m.delta, a, j.now, j.ord'', id);
  }

  // ---------- A join can always take place ----------

  /** `c` has sent what it has about itself, and `a` has taken it. */
  lemma Introduced(net: Net, c: string, a: string, now: int, ord: MapOrder) returns (steps: seq<NetStep>, net': Net)
    requires NetInv(net) && c in net.nodes && a in net.nodes && c != a
    ensures net.nodes[c].localID == c && c in net.nodes[c].nodes
    ensures Leads(net, steps, net') && NetInv(net')
    ensures net'.nodes == net.nodes[a := ApplyDelta(net.nodes[a], c, OwnDelta(net.nodes[c]), now, ord)]
    ensures CaughtUp(net', a, c)
  {
    assert NodeOk(net, c) && NodeOk(net, a) && OwnerAt(net, c);
    var m := Message(a, c, OwnDelta(net.nodes[c]), [0]);
    var net1 := Do(net, Send(c, m));
    NetStepOk(net, Send(c, m));
    assert CanDo(net1, Deliver(m, now, ord));
    net' := Do(net1, Deliver(m, now, ord));
    NetStepOk(net1, Deliver(m, now, ord));
    OwnStateTaken(net1, m, now, ord);
    steps := [Send(c, m), Deliver(m, now, ord)];
    assert Leads(net1, steps[1..], net');
  }

  lemma OwnStateTaken(net: Net, m: Message, now: int, ord: MapOrder)
    requires NetInv(net) && m.sender in net.nodes && m.sender != m.dst
    requires net.nodes[m.sender].localID == m.sender && m.sender in net.nodes[m.sender].nodes
    requires m.delta == OwnDelta(net.nodes[m.sender]) && CanDo(net, Deliver(m, now, ord))
    ensures CaughtUp(Do(net, Deliver(m, now, ord)), m.dst, m.sender)
  {
    var c, a, net' := m.sender, m.dst, Do(net, Deliver(m, now, ord));
    var own := Owner(net, c);
    assert NodeOk(net, c) && NodeOk(net, a) && OwnerAt(net, c);
    NetStepOk(net, Deliver(m, now, ord));
    HistReadable(net, m.delta, m.froms, 0);
    PartKnown(net.nodes[a], c, m.delta, now, ord, 0);
    WholePartTaken(net.nodes[a], c, m.delta, now, ord, 0);
    AscendingLists(own.entries, 0);
    if own.version > 0 { LeadsToVersion(own, 0, m.delta[0].entries); }
    AtVersion(net', a, c);
  }

  lemma AtVersion(net: Net, n: string, o: string)
    requires NetInv(net) && Knows(net, n, o) && KnownVersion(net.nodes[n], o) >= Owner(net, o).version
    ensures CaughtUp(net, n, o)
  {
    assert NodeOk(net, n) && NodeOk(net, o) && OwnerAt(net, o) && ViewAt(net, net.nodes[n], o);
    EqualVersionEqualState(net.nodes[n].nodes[o], Owner(net, o), Hist(net, o));
  }

  /** `a` answers the full digest of `c`, and `c` takes the answer. */
  lemma Welcomed(net: Net, c: string, a: string, now: int, ord: MapOrder) returns (j: Join)
    requires NetInv(net) && c in net.nodes && a in net.nodes && c != a
    ensures Joins(j, c, a) && j.ask == j.answer == net && j.taking == Do(AnsweredAt(j, c, a), Send(a, j.m))
    ensures j.taking.nodes[c] == net.nodes[c] && a in j.end.nodes && c in j.end.nodes
    ensures var digest := FullDigest(net.nodes[c], ord);
      var s := ApplyDigest(net.nodes[a], c, digest);
      && j.end.nodes[a] == s
      && j.end.nodes[c] == ApplyDelta(net.nodes[c], a, DeltaFor(s, digest, true, ord), now, ord)
  {
    var digest := FullDigest(net.nodes[c], ord);
    assert NodeOk(net, c) && NodeOk(net, a);
    var quiet := Quiet(a, ReceiveDigest(c, digest));
    var net1 := Do(net, quiet);
    NetStepOk(net, quiet);
    assert NodeOk(net1, a);
    var sent := DeltaFor(net1.nodes[a], digest, true, ord);
    var froms := ReplyIsSendable(net1.nodes[a], digest, true, ord, sent);
    var m := Message(c, a, sent, froms);
    var net2 := Do(net1, Send(a, m));
    ReplyIsUpToDate(net2, net.nodes[c], net.nodes[c], Range(ord, net.nodes[c].nodes.Keys), a, sent, froms);
    assert CanDo(net2, Deliver(m, now, ord));
    j := Join(net, ord, [], net, ord, m, [], net2, now, ord, Do(net2, Deliver(m, now, ord)));
  }

  lemma StillCaughtUp(net: Net, step: NetStep, n: string, o: string)
    requires NetInv(net) && CaughtUp(net, n, o) && CanDo(net, step) && !step.LocalUpdate?
    requires Knows(Do(net, step), n, o)
    ensures CaughtUp(Do(net, step), n, o)
  {
    NetStepOk(net, step);
    OnlyLocalUpdates(net, step);
    VersionStays(net, step, n, o);
    AtVersion(Do(net, step), n, o);
  }

  /** What `a` took stays. */
  lemma HostHas(j: Join, c: string, a: string)
    requires Joins(j, c, a) && NetInv(j.answer) && a != c && CaughtUp(j.answer, a, c)
    requires j.taking == Do(AnsweredAt(j, c, a), Send(a, j.m))
    ensures CaughtUp(j.end, a, c)
  {
    var net1 := AnsweredAt(j, c, a);
    DigestKeepsKnown(j.answer.nodes[a], c, FullDigest(j.ask.nodes[c], j.ord));
    StillCaughtUp(j.answer, Digested(j, c, a), a, c);
    NetStepOk(j.answer, Digested(j, c, a));
    StillCaughtUp(net1, Send(a, j.m), a, c);
    NetStepOk(net1, Send(a, j.m));
    StillCaughtUp(j.taking, Deliver(j.m, j.now, j.ord''), a, c);
  }

  /** What `c` takes: the state of `a`, and all that `a` knew. */
  lemma GuestHas(j: Join, c: string, a: string, id: string)
    requires Joins(j, c, a) && NetInv(j.answer) && a != c && a in j.answer.nodes && id in j.answer.nodes[a].nodes
    requires j.ask == j.answer && j.taking == Do(AnsweredAt(j, c, a), Send(a, j.m))
    requires j.taking.nodes[c] == j.ask.nodes[c] && !Discards(j.ask.nodes[c], a, id)
    ensures c in j.end.nodes && id in j.end.nodes[c].nodes
    ensures KnownVersion(j.answer.nodes[a], id) <= KnownVersion(j.end.nodes[c], id)
  {
    JoinOk(j, c, a);
    DigestKeepsKnown(j.answer.nodes[a], c, FullDigest(j.ask.nodes[c], j.ord));
    assert NodeOk(j.answer, a);
    ViewGrows(j.answer.nodes[a], Digested(j, c, a).op, id);
    JoinTakes(j, c, a, id);
  }

  lemma GuestHasHost(j: Join, c: string, a: string)
    requires Joins(j, c, a) && NetInv(j.answer) && a != c && a in j.answer.nodes
    requires j.ask == j.answer && j.taking == Do(AnsweredAt(j, c, a), Send(a, j.m))
    requires j.taking.nodes[c] == j.ask.nodes[c]
    ensures CaughtUp(j.end, c, a)
  {
    JoinOk(j, c, a);
    assert NodeOk(j.answer, a) && NodeOk(j.answer, c);
    GuestHas(j, c, a, a);
    OnlyLocalUpdates(j.answer, Digested(j, c, a));
    OnlyLocalUpdates(AnsweredAt(j, c, a), Send(a, j.m));
    OnlyLocalUpdates(j.taking, Deliver(j.m, j.now, j.ord''));
    AtVersion(j.end, c, a);
  }

  /** The five steps of a join: both sides have done what the program does. */
  lemma JoinSteps(net: Net, c: string, a: string, now: int, ord: MapOrder)
    returns (steps: seq<NetStep>, net1: Net, j: Join)
    requires NetInv(net) && c in net.nodes && a in net.nodes && c != a
    ensures net.nodes[c].localID == c && c in net.nodes[c].nodes && a in j.end.nodes && c in j.end.nodes
    ensures Leads(net, steps, j.end) && Joins(j, c, a) && NetInv(net1) && CaughtUp(net1, a, c)
    ensures net1.nodes == net.nodes[a := ApplyDelta(net.nodes[a], c, OwnDelta(net.nodes[c]), now, ord)]
    ensures j.ask == net1 == j.answer && j.taking == Do(AnsweredAt(j, c, a), Send(a, j.m))
    ensures j.taking.nodes[c] == net.nodes[c]
    ensures var h := HandleJoin(net.nodes[a], c, OwnDelta(net.nodes[c]), FullDigest(net.nodes[c], ord), now, ord);
      j.end.nodes[a] == h.state && j.end.nodes[c] == ApplyDelta(net.nodes[c], a, h.delta, now, ord)
  {
    var first;
    first, net1 := Introduced(net, c, a, now, ord);
    j := Welcomed(net1, c, a, now, ord);
    steps := first + [Digested(j, c, a), Send(a, j.m), Deliver(j.m, j.now, j.ord'')];
    JoinLeads(j, c, a);
    LeadsOn(net, first, net1, [Digested(j, c, a), Send(a, j.m), Deliver(j.m, j.now, j.ord'')], j.end);
  }

  lemma JoinLeads(j: Join, c: string, a: string)
    requires Joins(j, c, a) && j.taking == Do(AnsweredAt(j, c, a), Send(a, j.m))
    ensures Leads(j.answer, [Digested(j, c, a), Send(a, j.m), Deliver(j.m, j.now, j.ord'')], j.end)
  {
    var steps := [Digested(j, c, a), Send(a, j.m), Deliver(j.m, j.now, j.ord'')];
    assert steps[1..] == [Send(a, j.m), Deliver(j.m, j.now, j.ord'')] && steps[1..][1..] == steps[2..];
    assert Leads(j.taking, steps[2..], j.end) && Leads(AnsweredAt(j, c, a), steps[1..], j.end);
  }

  lemma {:induction false} LeadsOn(net: Net, steps: seq<NetStep>, net1: Net, more: seq<NetStep>, net2: Net)
    requires Leads(net, steps, net1) && Leads(net1, more, net2)
    ensures Leads(net, steps + more, net2)
    decreases |steps|
  {
    if steps == [] {
      assert steps + more == more;
    } else {
      assert (steps + more)[0] == steps[0] && (steps + more)[1..] == steps[1..] + more;
      LeadsOn(Do(net, steps[0]), steps[1..], net1, more, net2);
    }
  }

  /** In any reachable network a join by `c` at `a` can take place: it is a run of the network, `a` does what the
      stream listener does, and afterwards `a` has the state of `c`, `c` has the state of `a`, and `c` knows every
      other node that `a` knew and it does not discard, at no lower version. */
  lemma JoinIsRun(net: Net, c: string, a: string, now: int, ord: MapOrder)
    returns (steps: seq<NetStep>, net': Net)
    requires NetInv(net) && c in net.nodes && a in net.nodes && c != a
    ensures net.nodes[c].localID == c && c in net.nodes[c].nodes
    ensures Leads(net, steps, net') && a in net'.nodes && c in net'.nodes
    ensures var h := HandleJoin(net.nodes[a], c, OwnDelta(net.nodes[c]), FullDigest(net.nodes[c], ord), now, ord);
      net'.nodes[a] == h.state && net'.nodes[c] == ApplyDelta(net.nodes[c], a, h.delta, now, ord)
    ensures CaughtUp(net', a, c) && CaughtUp(net', c, a)
    ensures forall id :: id in net.nodes[a].nodes && !Discards(net.nodes[c], a, id) ==>
      id in net'.nodes[c].nodes && KnownVersion(net.nodes[a], id) <= KnownVersion(net'.nodes[c], id)
  {
    var net1, j;
    steps, net1, j := JoinSteps(net, c, a, now, ord);
    net' := j.end;
    HostHas(j, c, a);
    GuestHasHost(j, c, a);
    DeltaAhead(net.nodes[a], c, OwnDelta(net.nodes[c]), now, ord);
    forall id | id in net.nodes[a].nodes && !Discards(net.nodes[c], a, id)
      ensures id in net'.nodes[c].nodes && KnownVersion(net.nodes[a], id) <= KnownVersion(net'.nodes[c], id)
    {
      GuestHas(j, c, a, id);
    }
  }
}
