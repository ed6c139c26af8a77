/** Why a delta must not be older than the receiver's memory: a run in which a node expires another while a
    delta for it is under way, and what the late delta then does. */
module LateDelivery {
  import opened Strconv
  import opened GossipState
  import opened Runs
  import opened Network
  import Metrics

  const A := Entry("a", "x", 1, false, false)
  const B := Entry("b", "y", 2, false, false)

  const ONE := Fresh("o", "").(version := 1, entries := map["a" := A])
  const TWO := Fresh("o", "").(version := 2, entries := map["a" := A, "b" := B])

  function First(): Message {
    Message("r", "o", [DeltaEntry("o", "", [A])], [0])
  }

  function Second(): Message {
    Message("r", "o", [DeltaEntry("o", "", [B])], [1])
  }

  /** The owner's record of itself, and what the receiver knows of the owner. */
  ghost predicate At(net: Net, own: NodeState, view: Option<NodeState>) {
    && net.nodes.Keys == {"o", "r"} && net.nodes["o"].localID == "o" && net.nodes["r"].localID == "r"
    && net.nodes["o"].nodes == map["o" := own]
    && "r" in net.nodes["r"].nodes && net.nodes["r"].nodes["r"] == Fresh("r", "")
    && net.nodes["r"].nodes.Keys == (if view.Some? then {"o", "r"} else {"r"})
    && (view.Some? ==> net.nodes["r"].nodes["o"] == view.value)
  }

  lemma Singleton(m: map<string, Entry>, k: string, from: nat)
    requires k in m && NewerKeys(m, from) == {k}
    ensures Ascending(m, from) == [m[k]]
  {
    assert k in NewerKeys(m, from);
    assert Oldest(m, from) == k;
    forall j | j in m ensures m[j].version <= m[k].version {
      if m[j].version > from { assert j in NewerKeys(m, from); }
    }
    assert NewerKeys(m, m[k].version) == {};
  }

  lemma Sent(net: Net, own: NodeState, view: Option<NodeState>, m: Message)
    requires At(net, own, view) && ((m == First() && own == ONE) || (m == Second() && own == TWO))
    ensures CanDo(net, Send("o", m)) && At(Do(net, Send("o", m)), own, view) && m in Do(net, Send("o", m)).msgs
  {
    if m == First() {
      assert NewerKeys(own.entries, 0) == {"a"};
      Singleton(own.entries, "a", 0);
    } else {
      assert NewerKeys(own.entries, 1) == {"b"};
      Singleton(own.entries, "b", 1);
    }
  }

  lemma Upserted(net: Net, own: NodeState, view: Option<NodeState>, key: string, value: string)
    requires At(net, own, view) && key !in own.entries && !Metrics.ReservedKey(key)
    ensures CanDo(net, LocalUpdate("o", Upsert(key, value)))
    ensures var net' := Do(net, LocalUpdate("o", Upsert(key, value)));
      At(net', GossipState.Upserted(own, key, value), view) && net'.msgs == net.msgs
  {
  }

  lemma One(s: State, sender: string, e: Entry, now: int, ord: MapOrder)
    requires !Discards(s, sender, "o")
    ensures var s1 := Discovered(s, "o", "");
      ApplyDelta(s, sender, [DeltaEntry("o", "", [e])], now, ord) == SetWork(s1, "o", ApplyEntry(WorkOf(s1, "o"), e, now, ord))
  {
    var de := DeltaEntry("o", "", [e]);
    assert [de][1..] == [] && [e][1..] == [];
    var s1 := Discovered(s, "o", "");
    assert ApplyEntries(WorkOf(s1, "o"), [e], now, ord) == ApplyEntry(WorkOf(s1, "o"), e, now, ord);
  }

  lemma Delivered(net: Net, own: NodeState, now: int, ord: MapOrder)
    requires At(net, own, None) && First() in net.msgs
    ensures CanDo(net, Deliver(First(), now, ord))
    ensures var net' := Do(net, Deliver(First(), now, ord)); At(net', own, Some(ONE)) && net'.msgs == net.msgs
  {
    One(net.nodes["r"], "o", A, now, ord);
  }

  lemma Marked(s: State, ids: seq<string>, now: int)
    requires Enumerates(ids, {"o", "r"}) && s.nodes.Keys == {"o", "r"} && s.localID == "r" && s.nodes["o"] == ONE
    ensures UpdateNodes(s, ids, {"o"}, now) == UpdateNode(s, "o", {"o"}, now)
  {
    EnumerationSize(ids, {"o", "r"});
    assert |{"o", "r"}| == 2;
    assert ids[0] in ids && ids[1] in ids;
    assert ids[1..] == [ids[1]] && ids[1..][1..] == [];
    var s1 := UpdateNode(s, ids[0], {"o"}, now);
    var s2 := UpdateNode(s1, ids[1], {"o"}, now);
    assert UpdateNodes(s1, [ids[1]], {"o"}, now) == UpdateNodes(s2, [], {"o"}, now) == s2;
  }

  lemma Suspected(net: Net, own: NodeState, ord: MapOrder)
    requires At(net, own, Some(ONE))
    ensures CanDo(net, Quiet("r", CheckLiveness({"o"}, 0, ord)))
    ensures var net' := Do(net, Quiet("r", CheckLiveness({"o"}, 0, ord)));
      At(net', own, Some(ONE.(unreachable := true, expiry := Some(NODE_EXPIRY)))) && net'.msgs == net.msgs
  {
    Marked(net.nodes["r"], Range(ord, net.nodes["r"].nodes.Keys), 0);
  }

  lemma Expired(net: Net, own: NodeState, ord: MapOrder)
    requires At(net, own, Some(ONE.(unreachable := true, expiry := Some(NODE_EXPIRY))))
    ensures CanDo(net, Quiet("r", RemoveExpired(NODE_EXPIRY + 1, ord)))
    ensures var net' := Do(net, Quiet("r", RemoveExpired(NODE_EXPIRY + 1, ord)));
      At(net', own, None) && net'.msgs == net.msgs
  {
    var s, t := net.nodes["r"], NODE_EXPIRY + 1;
    assert ExpiredIDs(s, t) == {"o"};
    var ids := Range(ord, {"o"});
    EnumerationSize(ids, {"o"});
    assert |{"o"}| == 1 && ids[0] in ids && ids == ["o"] && ids[1..] == [];
    var s0 := s.(tombstones := ForgetTombstones(s.tombstones, t));
    assert RemoveNodes(s0, ids, t) == RemoveNodes(RemoveNode(s0, "o", t), [], t) == RemoveNode(s0, "o", t);
    assert (s.nodes - {"o"}).Keys == {"r"};
  }

  lemma {:induction false} LeadsOn(a: Net, steps: seq<NetStep>, b: Net, step: NetStep)
    requires Leads(a, steps, b) && CanDo(b, step)
    ensures Leads(a, steps + [step], Do(b, step))
    decreases |steps|
  {
    if steps == [] {
      assert steps + [step] == [step] && [step][1..] == [];
      assert Leads(Do(b, step), [], Do(b, step));
    } else {
      assert (steps + [step])[0] == steps[0] && (steps + [step])[1..] == steps[1..] + [step];
      LeadsOn(Do(a, steps[0]), steps[1..], b, step);
    }
  }

  /** The second message, taken now, brings the receiver to the owner's version without the owner's state. */
  lemma TakenLate(net: Net, now: int, ord: MapOrder)
    requires At(net, TWO, None)
    ensures var s, m := net.nodes["r"], Second();
      && !UpToDate(net, s, m.sender, m.delta, m.froms)
      && var s' := ApplyDelta(s, m.sender, m.delta, now, ord);
         "o" in s'.nodes && s'.nodes["o"].version == TWO.version && s'.nodes["o"].entries == map["b" := B]
  {
    One(net.nodes["r"], "o", B, now, ord);
    var m := Second();
    assert "a" in TWO.entries && 0 < TWO.entries["a"].version <= m.froms[0];
    assert !TakesPart(net, net.nodes["r"], m.sender, m.delta[0], m.froms[0]);
  }

  lemma CaughtUp(ord: MapOrder) returns (steps: seq<NetStep>, net: Net)
    ensures Leads(Start(map["o" := "", "r" := ""]), steps, net) && At(net, ONE, Some(ONE))
  {
    var n0, up := Start(map["o" := "", "r" := ""]), LocalUpdate("o", Upsert("a", "x"));
    Upserted(n0, Fresh("o", ""), None, "a", "x");
    LeadsOn(n0, [], n0, up);
    var n1 := Do(n0, up);
    Sent(n1, ONE, None, First());
    LeadsOn(n0, [up], n1, Send("o", First()));
    var n2 := Do(n1, Send("o", First()));
    Delivered(n2, ONE, 0, ord);
    steps := [up] + [Send("o", First())];
    LeadsOn(n0, steps, n2, Deliver(First(), 0, ord));
    steps, net := steps + [Deliver(First(), 0, ord)], Do(n2, Deliver(First(), 0, ord));
  }

  lemma Behind(ord: MapOrder) returns (steps: seq<NetStep>, net: Net)
    ensures Leads(Start(map["o" := "", "r" := ""]), steps, net) && At(net, TWO, Some(ONE)) && Second() in net.msgs
  {
    var n0, up := Start(map["o" := "", "r" := ""]), LocalUpdate("o", Upsert("b", "y"));
    steps, net := CaughtUp(ord);
    Upserted(net, ONE, Some(ONE), "b", "y");
    LeadsOn(n0, steps, net, up);
    steps, net := steps + [up], Do(net, up);
    Sent(net, TWO, Some(ONE), Second());
    LeadsOn(n0, steps, net, Send("o", Second()));
    steps, net := steps + [Send("o", Second())], Do(net, Send("o", Second()));
  }

  lemma Forgotten(ord: MapOrder) returns (steps: seq<NetStep>, net: Net)
    ensures Leads(Start(map["o" := "", "r" := ""]), steps, net) && At(net, TWO, None) && Second() in net.msgs
  {
    var n0 := Start(map["o" := "", "r" := ""]);
    var suspect, expire := Quiet("r", CheckLiveness({"o"}, 0, ord)), Quiet("r", RemoveExpired(NODE_EXPIRY + 1, ord));
    steps, net := Behind(ord);
    Suspected(net, TWO, ord);
    LeadsOn(n0, steps, net, suspect);
    steps, net := steps + [suspect], Do(net, suspect);
    Expired(net, TWO, ord);
    LeadsOn(n0, steps, net, expire);
    steps, net := steps + [expire], Do(net, expire);
  }

  /** The excluded delivery can come up, and breaks convergence: after this run a delta is in flight that the
      receiver would take, after which it is at the owner's version and lacks one of the owner's entries. */
  lemma LateDeltaBreaksConvergence(ord: MapOrder) returns (steps: seq<NetStep>, net: Net, m: Message)
    ensures Leads(Start(map["o" := "", "r" := ""]), steps, net)
    ensures m in net.msgs && m.dst in net.nodes && m.sender in net.nodes && m.sender in net.nodes[m.sender].nodes
    ensures !CanDo(net, Deliver(m, 0, ord))
    ensures var s', own := ApplyDelta(net.nodes[m.dst], m.sender, m.delta, 0, ord), net.nodes[m.sender].nodes[m.sender];
      && m.sender in s'.nodes && s'.nodes[m.sender].version == own.version
      && s'.nodes[m.sender].entries != own.entries
  {
    steps, net := Forgotten(ord);
    m := Second();
    TakenLate(net, 0, ord);
    assert "a" in TWO.entries && "a" !in map["b" := B];
  }
}
