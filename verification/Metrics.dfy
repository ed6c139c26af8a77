/** The entries gauge is conserved: it always equals the number of stored entries of each class. */
module Metrics {
  import opened GossipState
  import opened Compaction
  import opened Runs

  /** The stored keys whose entry belongs to the class. */
  ghost function Class(m: map<string, Entry>, internal: bool, deleted: bool): set<string> {
    set k | k in m && m[k].internal == internal && m[k].deleted == deleted
  }

  ghost function Count(m: map<string, Entry>, l: Label): nat {
    |Class(m, l.internal, l.deleted)|
  }

  /** The gauges of the node count its entries. */
  ghost predicate Agrees(g: Gauges, id: string, m: map<string, Entry>) {
    forall l: Label :: l.id == id ==> Read(g, l) == Count(m, l)
  }

  /** Gauges of other nodes are the same. */
  ghost predicate OthersSame(g: Gauges, g': Gauges, id: string) {
    forall l: Label :: l.id != id ==> Read(g', l) == Read(g, l)
  }

  predicate Fits(e: Entry, l: Label) {
    e.internal == l.internal && e.deleted == l.deleted
  }

  function One(b: bool): int {
    if b then 1 else 0
  }

  lemma CountRemove(m: map<string, Entry>, k: string, l: Label)
    requires k in m
    ensures Count(m - {k}, l) == Count(m, l) - One(Fits(m[k], l))
  {
    assert Class(m - {k}, l.internal, l.deleted) == Class(m, l.internal, l.deleted) - {k};
  }

  lemma CountNew(m: map<string, Entry>, k: string, e: Entry, l: Label)
    requires k !in m
    ensures Count(m[k := e], l) == Count(m, l) + One(Fits(e, l))
  {
    CountRemove(m[k := e], k, l);
    assert m[k := e] - {k} == m;
  }

  lemma CountPut(m: map<string, Entry>, k: string, e: Entry, l: Label)
    requires k in m
    ensures Count(m[k := e], l) == Count(m, l) - One(Fits(m[k], l)) + One(Fits(e, l))
  {
    CountRemove(m, k, l);
    CountNew(m - {k}, k, e, l);
    assert (m - {k})[k := e] == m[k := e];
  }

  /** Counting an upsert is right exactly when the key is not empty, or nothing is stored under it: the empty
      key of the stored entry reads as no entry. */
  lemma UpsertAgreesIff(g: Gauges, id: string, m: map<string, Entry>, e: Entry)
    requires Keyed(m) && Agrees(g, id, m)
    ensures var g' := UpsertEntry(g, id, e, Lookup(m, e.key));
      && OthersSame(g, g', id)
      && (Agrees(g', id, m[e.key := e]) <==> e.key != "" || "" !in m)
  {
    if e.key != "" {
      UpsertAgrees(g, id, m, e);
    } else if "" !in m {
      AddAgrees(g, id, m, e);
    } else {
      var l := LabelOf(id, m[""]);
      CountPut(m, "", e, l);
      assert Read(UpsertEntry(g, id, e, Lookup(m, "")), l) != Count(m[e.key := e], l);
    }
  }

  lemma UpsertAgrees(g: Gauges, id: string, m: map<string, Entry>, e: Entry)
    requires Keyed(m) && e.key != "" && Agrees(g, id, m)
    ensures var g' := UpsertEntry(g, id, e, Lookup(m, e.key));
      Agrees(g', id, m[e.key := e]) && OthersSame(g, g', id)
  {
    var g' := UpsertEntry(g, id, e, Lookup(m, e.key));
    forall l: Label | l.id == id ensures Read(g', l) == Count(m[e.key := e], l) {
      if e.key in m { CountPut(m, e.key, e, l); } else { CountNew(m, e.key, e, l); }
    }
  }

  lemma AddAgrees(g: Gauges, id: string, m: map<string, Entry>, e: Entry)
    requires e.key !in m && Agrees(g, id, m)
    ensures Agrees(AddEntry(g, id, e), id, m[e.key := e]) && OthersSame(g, AddEntry(g, id, e), id)
  {
    forall l: Label | l.id == id ensures Read(AddEntry(g, id, e), l) == Count(m[e.key := e], l) {
      CountNew(m, e.key, e, l);
    }
  }

  lemma DeleteAgrees(g: Gauges, id: string, m: map<string, Entry>, k: string)
    requires k in m && Agrees(g, id, m)
    ensures Agrees(DeleteEntry(g, id, m[k]), id, m - {k}) && OthersSame(g, DeleteEntry(g, id, m[k]), id)
  {
    forall l: Label | l.id == id ensures Read(DeleteEntry(g, id, m[k]), l) == Count(m - {k}, l) {
      CountRemove(m, k, l);
    }
  }

  /** Dropping entries one by one, in any order, counts down to what is left. */
  lemma {:induction false} DropAgrees(g: Gauges, id: string, m: map<string, Entry>, left: map<string, Entry>, ks: seq<string>)
    requires Agrees(g, id, left)
    requires forall i :: 0 <= i < |ks| ==> ks[i] in m && ks[i] in left && left[ks[i]] == m[ks[i]]
    requires forall i, j :: 0 <= i < j < |ks| ==> ks[i] != ks[j]
    ensures forall k :: k in ks ==> k in m
    ensures var g' := DropGauges(g, id, m, ks);
      Agrees(g', id, left - (set k | k in ks)) && OthersSame(g, g', id)
    decreases |ks|
  {
    if ks == [] {
      assert left - (set k | k in ks) == left;
    } else {
      DeleteAgrees(g, id, left, ks[0]);
      DropAgrees(DeleteEntry(g, id, m[ks[0]]), id, m, left - {ks[0]}, ks[1..]);
      assert left - (set k | k in ks) == left - {ks[0]} - (set k | k in ks[1..]);
    }
  }

  lemma {:induction false} ReversionAgrees(g: Gauges, ns: NodeState, es: seq<Entry>)
    requires NewKeys(ns, es) && Agrees(g, ns.id, ns.entries)
    ensures var g', r := ReversionGauges(g, ns.id, es), Reversion(ns, es);
      Agrees(g', ns.id, r.entries) && OthersSame(g, g', ns.id)
    decreases |es|
  {
    if es != [] {
      if Kept(es[0]) {
        AddAgrees(g, ns.id, ns.entries, es[0].(version := ns.version + 1));
        ReversionAgrees(AddEntry(g, ns.id, es[0]), Bump(ns, es[0]), es[1..]);
      } else {
        ReversionAgrees(g, ns, es[1..]);
      }
    }
  }

  lemma ClearAgrees(g: Gauges, id: string)
    ensures Agrees(ClearNode(g, id), id, map[]) && OthersSame(g, ClearNode(g, id), id)
  {
    assert forall l: Label :: Class(map[], l.internal, l.deleted) == {};
  }

  // ---------- Over runs ----------

  predicate ReservedKey(k: string) {
    k == LEFT_KEY || k == COMPACT_KEY
  }

  ghost predicate Conserved(s: State) {
    && (forall id :: id in s.nodes ==> Agrees(s.gauges, id, s.nodes[id].entries))
    && (forall l: Label :: l.id !in s.nodes ==> Read(s.gauges, l) == 0)
  }

  /** A change to one node and its own gauges keeps conservation. */
  lemma ConservedPut(s: State, s': State, id: string)
    requires Conserved(s) && id in s'.nodes && s'.nodes == s.nodes[id := s'.nodes[id]]
    requires Agrees(s'.gauges, id, s'.nodes[id].entries) && OthersSame(s.gauges, s'.gauges, id)
    ensures Conserved(s')
  {
    forall j | j in s'.nodes ensures Agrees(s'.gauges, j, s'.nodes[j].entries) {
      if j != id { assert Agrees(s.gauges, j, s.nodes[j].entries); }
    }
  }

  ghost function CompactedGauges(g: Gauges, ns: NodeState): Gauges {
    AddEntry(ReversionGauges(ClearNode(g, ns.id), ns.id, Ascending(ns.entries, 0)), ns.id, CompactEntry(Cutoff(ns)))
  }

  lemma RemovalConserved(s: State, id: string, t: int)
    requires Conserved(s)
    ensures Conserved(RemoveNode(s, id, t))
  {
    var s' := RemoveNode(s, id, t);
    ClearAgrees(s.gauges, id);
    forall j | j in s'.nodes ensures Agrees(s'.gauges, j, s'.nodes[j].entries) {
      assert Agrees(s.gauges, j, s.nodes[j].entries);
    }
    forall l: Label | l.id !in s'.nodes ensures Read(s'.gauges, l) == 0 {
      if l.id == id { assert Class(map[], l.internal, l.deleted) == {}; }
    }
  }

  lemma DiscoverConserved(s: State, id: string, addr: string)
    requires Conserved(s) && id !in s.nodes
    ensures Conserved(Discover(s, id, addr))
  {
    assert forall l: Label :: Class(map[], l.internal, l.deleted) == {};
    ConservedPut(s, Discover(s, id, addr), id);
  }

  lemma LivenessConserved(s: State, m: Micro)
    requires Conserved(s) && m.MLiveness? && Guard(s, m)
    ensures Conserved(MicroStep(s, m))
  {
    ConservedPut(s, MicroStep(s, m), m.lid);
  }

  lemma InitConserved(localID: string, addr: string)
    ensures Conserved(Init(localID, addr))
  {
    assert forall l: Label :: Class(map[], l.internal, l.deleted) == {};
  }

  /** Why keys must be non-empty: storing the empty key twice is counted twice. */
  lemma EmptyKeyIsMiscounted()
    ensures var s := UpsertLocal(UpsertLocal(Init("n", ""), "", "a"), "", "b");
      Read(s.gauges, Label("n", false, false)) == 2 && |Class(Local(s).entries, false, false)| == 1
  {
    var s := UpsertLocal(UpsertLocal(Init("n", ""), "", "a"), "", "b");
    assert Class(Local(s).entries, false, false) == {""};
  }
}
