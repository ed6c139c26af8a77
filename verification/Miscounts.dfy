/** Exactly when an operation leaves the entries gauge right. What goes wrong is always a surplus: an entry is
    counted in without the one it replaces being counted out. */
module Miscounts {
  import opened Strconv
  import opened GossipState
  import opened Compaction
  import opened Runs
  import opened Membership
  import opened Metrics

  // ---------- Surplus ----------

  /** All that is counted for the node. */
  function Total(g: Gauges, id: string): int {
    Read(g, Label(id, false, false)) + Read(g, Label(id, false, true))
    + Read(g, Label(id, true, false)) + Read(g, Label(id, true, true))
  }

  function Excess(g: Gauges, id: string, m: map<string, Entry>): int {
    Total(g, id) - |m|
  }

  lemma ClassesCover(m: map<string, Entry>)
    ensures |m| == |Class(m, false, false)| + |Class(m, false, true)| + |Class(m, true, false)| + |Class(m, true, true)|
  {
    var live, gone := Class(m, false, false) + Class(m, true, false), Class(m, false, true) + Class(m, true, true);
    assert m.Keys == live + gone && live !! gone;
  }

  lemma NoExcess(g: Gauges, id: string, m: map<string, Entry>)
    requires Agrees(g, id, m)
    ensures Excess(g, id, m) == 0
  {
    ClassesCover(m);
  }

  lemma SizeOfPut(m: map<string, Entry>, k: string, e: Entry)
    ensures |m[k := e]| == |m| + One(k !in m)
  {
    assert m[k := e].Keys == m.Keys + {k};
    assert |m[k := e].Keys| == |m[k := e]| && |m.Keys| == |m|;
  }

  lemma TotalOf(g: Gauges, id: string, e: Entry)
    ensures Total(AddEntry(g, id, e), id) == Total(g, id) + 1
    ensures Total(DeleteEntry(g, id, e), id) == Total(g, id) - 1
  {
    var l := LabelOf(id, e);
    assert l in {Label(id, false, false), Label(id, false, true), Label(id, true, false), Label(id, true, true)};
  }

  lemma UpsertExcess(g: Gauges, id: string, m: map<string, Entry>, e: Entry)
    requires Keyed(m)
    ensures Excess(UpsertEntry(g, id, e, Lookup(m, e.key)), id, m[e.key := e])
         == Excess(g, id, m) + One(e.key == "" && "" in m)
  {
    SizeOfPut(m, e.key, e);
    if e.key in m && e.key != "" {
      TotalOf(g, id, m[e.key]);
      TotalOf(DeleteEntry(g, id, m[e.key]), id, e);
    } else {
      TotalOf(g, id, e);
    }
  }

  lemma {:induction false} DropTotal(g: Gauges, id: string, m: map<string, Entry>, ks: seq<string>)
    requires forall k :: k in ks ==> k in m
    ensures Total(DropGauges(g, id, m, ks), id) == Total(g, id) - |ks|
    decreases |ks|
  {
    if ks != [] {
      TotalOf(g, id, m[ks[0]]);
      DropTotal(DeleteEntry(g, id, m[ks[0]]), id, m, ks[1..]);
    }
  }

  // ---------- What decides it ----------

  /** All that matters about a view: its version, and the version of what it stores under the empty key. */
  datatype Mark = Mark(version: nat, empty: Option<nat>)

  function MarkOf(ns: NodeState): Mark {
    Mark(ns.version, if "" in ns.entries then Some(ns.entries[""].version) else None)
  }

  function Known(s: State, id: string): Mark {
    if id in s.nodes then MarkOf(s.nodes[id]) else Mark(0, None)
  }

  function Next(mk: Mark, e: Entry): Mark {
    var c := CompactVersion(e);
    if e.version <= mk.version then mk
    else if e.key == "" then Mark(e.version, Some(e.version))
    else if c.Some? && mk.empty.Some? && mk.empty.value <= c.value then Mark(e.version, None)
    else Mark(e.version, mk.empty)
  }

  function After(mk: Mark, es: seq<Entry>): Mark
    decreases |es|
  {
    if es == [] then mk else if Ends(mk.version, es[0]) then Next(mk, es[0]) else After(Next(mk, es[0]), es[1..])
  }

  /** How many entries with an empty key are taken while one is stored. */
  function Repeats(mk: Mark, es: seq<Entry>): nat
    decreases |es|
  {
    if es == [] || Ends(mk.version, es[0]) then 0
    else
      (if es[0].version > mk.version && es[0].key == "" && mk.empty.Some? then 1 else 0)
      + Repeats(Next(mk, es[0]), es[1..])
  }

  /** The same over the parts of a delta about the node. */
  function DeltaRepeats(mk: Mark, delta: Delta, id: string): nat
    decreases |delta|
  {
    if delta == [] then 0
    else if delta[0].id != id then DeltaRepeats(mk, delta[1..], id)
    else Repeats(mk, delta[0].entries) + DeltaRepeats(After(mk, delta[0].entries), delta[1..], id)
  }

  /** The operation will count something twice. */
  ghost predicate Miscounts(s: State, op: Op)
    requires Enabled(s, op)
  {
    var ns := Local(s);
    match op
    case Upsert(key, value) => key == "" && "" in ns.entries && !UpsertIgnored(ns, key, value)
    case Delete(key) => key == "" && !DeleteIgnored(ns, key)
    case Leave => !ns.left && LEFT_KEY in ns.entries
    case Compact(threshold) =>
      |DeletedKeys(ns.entries)| >= threshold && COMPACT_KEY in ns.entries && Kept(ns.entries[COMPACT_KEY])
    case ReceiveDelta(sender, delta, _, _) =>
      exists id :: CountsTwice(s, sender, delta, id)
    case _ => false
  }

  // ---------- Entries ----------

  lemma AppliedMark(ns: NodeState, e: Entry, now: int)
    requires e.version > ns.version
    ensures MarkOf(Applied(ns, e, now)) == Next(MarkOf(ns), e)
  {
  }

  lemma AppliedKeyed(ns: NodeState, e: Entry, now: int)
    requires Keyed(ns.entries)
    ensures Applied(ns, e, now).id == ns.id && Keyed(Applied(ns, e, now).entries)
  {
  }

  /** An empty key taken over a stored one. */
  predicate Twice(ns: NodeState, e: Entry) {
    e.key == "" && "" in ns.entries
  }

  lemma DropExcess(g: Gauges, id: string, m: map<string, Entry>, c: nat, ord: MapOrder)
    ensures forall k :: k in Range(ord, StaleKeys(m, c)) ==> k in m
    ensures Excess(DropGauges(g, id, m, Range(ord, StaleKeys(m, c))), id, m - StaleKeys(m, c)) == Excess(g, id, m)
  {
    var stale := StaleKeys(m, c);
    DropTotal(g, id, m, Range(ord, stale));
    EnumerationSize(Range(ord, stale), stale);
    assert (m - stale).Keys == m.Keys - stale && |m.Keys| == |m.Keys - stale| + |stale|;
    assert |(m - stale).Keys| == |m - stale| && |m.Keys| == |m|;
  }

  lemma EntryExcess(ns: NodeState, g: Gauges, e: Entry, now: int, ord: MapOrder)
    requires Keyed(ns.entries)
    ensures Excess(EntryGauges(g, ns, e, ord), ns.id, Applied(ns, e, now).entries)
         == Excess(g, ns.id, ns.entries) + One(Twice(ns, e))
  {
    var g1, m1 := UpsertEntry(g, ns.id, e, Lookup(ns.entries, e.key)), Stored(ns, e).entries;
    assert Excess(g1, ns.id, m1) == Excess(g, ns.id, ns.entries) + One(Twice(ns, e)) by {
      UpsertExcess(g, ns.id, ns.entries, e);
    }
    if CompactVersion(e).Some? {
      DropExcess(g1, ns.id, m1, CompactVersion(e).value, ord);
    }
  }

  lemma EntryAgrees(ns: NodeState, g: Gauges, e: Entry, now: int, ord: MapOrder)
    requires Keyed(ns.entries) && Agrees(g, ns.id, ns.entries) && !Twice(ns, e)
    ensures Agrees(EntryGauges(g, ns, e, ord), ns.id, Applied(ns, e, now).entries)
  {
    UpsertAgreesIff(g, ns.id, ns.entries, e);
    if CompactVersion(e).Some? {
      var m := Stored(ns, e).entries;
      var stale := StaleKeys(m, CompactVersion(e).value);
      var ks := Range(ord, stale);
      assert (set k | k in ks) == stale;
      forall i | 0 <= i < |ks| ensures ks[i] in m { assert ks[i] in stale; }
      DropAgrees(UpsertEntry(g, ns.id, e, Lookup(ns.entries, e.key)), ns.id, m, m, ks);
    }
  }

  lemma {:induction false} DropOthers(g: Gauges, id: string, m: map<string, Entry>, ks: seq<string>)
    requires forall k :: k in ks ==> k in m
    ensures OthersSame(g, DropGauges(g, id, m, ks), id)
    decreases |ks|
  {
    if ks != [] { DropOthers(DeleteEntry(g, id, m[ks[0]]), id, m, ks[1..]); }
  }

  lemma EntryOthers(ns: NodeState, g: Gauges, e: Entry, ord: MapOrder)
    ensures OthersSame(g, EntryGauges(g, ns, e, ord), ns.id)
  {
    if CompactVersion(e).Some? {
      var m := Stored(ns, e).entries;
      DropOthers(UpsertEntry(g, ns.id, e, Lookup(ns.entries, e.key)), ns.id, m,
                 Range(ord, StaleKeys(m, CompactVersion(e).value)));
    }
  }

  lemma {:induction false} EntriesKeyed(w: Work, es: seq<Entry>, now: int, ord: MapOrder)
    requires Keyed(w.ns.entries)
    ensures var ns := ApplyEntries(w, es, now, ord).ns; ns.id == w.ns.id && Keyed(ns.entries)
    decreases |es|
  {
    if es != [] {
      AppliedKeyed(w.ns, es[0], now);
      if !Ends(w.ns.version, es[0]) { EntriesKeyed(ApplyEntry(w, es[0], now, ord), es[1..], now, ord); }
    }
  }

  /** The surplus grows by exactly what is counted twice. */
  lemma {:induction false} EntriesExcess(w: Work, es: seq<Entry>, now: int, ord: MapOrder)
    requires Keyed(w.ns.entries)
    ensures var w' := ApplyEntries(w, es, now, ord);
      && w'.ns.id == w.ns.id && Keyed(w'.ns.entries) && MarkOf(w'.ns) == After(MarkOf(w.ns), es)
      && Excess(w'.gauges, w.ns.id, w'.ns.entries)
         == Excess(w.gauges, w.ns.id, w.ns.entries) + Repeats(MarkOf(w.ns), es)
    decreases |es|
  {
    if es != [] {
      if es[0].version > w.ns.version {
        EntryExcess(w.ns, w.gauges, es[0], now, ord);
        AppliedKeyed(w.ns, es[0], now);
        AppliedMark(w.ns, es[0], now);
      }
      if !Ends(w.ns.version, es[0]) { EntriesExcess(ApplyEntry(w, es[0], now, ord), es[1..], now, ord); }
    }
  }

  lemma {:induction false} EntriesOthers(w: Work, es: seq<Entry>, now: int, ord: MapOrder)
    ensures OthersSame(w.gauges, ApplyEntries(w, es, now, ord).gauges, w.ns.id)
    decreases |es|
  {
    if es != [] {
      EntryOthers(w.ns, w.gauges, es[0], ord);
      if !Ends(w.ns.version, es[0]) { EntriesOthers(ApplyEntry(w, es[0], now, ord), es[1..], now, ord); }
    }
  }

  /** With nothing counted twice a right count stays right. */
  lemma {:induction false} EntriesAgree(w: Work, es: seq<Entry>, now: int, ord: MapOrder)
    requires Keyed(w.ns.entries) && Agrees(w.gauges, w.ns.id, w.ns.entries) && Repeats(MarkOf(w.ns), es) == 0
    ensures var w' := ApplyEntries(w, es, now, ord); Agrees(w'.gauges, w.ns.id, w'.ns.entries)
    decreases |es|
  {
    if es != [] {
      var w1 := ApplyEntry(w, es[0], now, ord);
      if es[0].version > w.ns.version {
        EntryAgrees(w.ns, w.gauges, es[0], now, ord);
        AppliedKeyed(w.ns, es[0], now);
        AppliedMark(w.ns, es[0], now);
      }
      if !Ends(w.ns.version, es[0]) { EntriesAgree(w1, es[1..], now, ord); }
    }
  }

  // ---------- Deltas ----------

  /** The surplus of a node, known or not. */
  function Surplus(s: State, id: string): int {
    Excess(s.gauges, id, if id in s.nodes then s.nodes[id].entries else map[])
  }

  lemma ConservedSurplus(s: State, id: string)
    requires Conserved(s)
    ensures Surplus(s, id) == 0
  {
    if id in s.nodes {
      assert Agrees(s.gauges, id, s.nodes[id].entries);
      NoExcess(s.gauges, id, s.nodes[id].entries);
    }
  }

  lemma DiscoveredSame(s: State, id: string, addr: string, other: string)
    ensures var s1 := Discovered(s, id, addr);
      Known(s1, other) == Known(s, other) && Surplus(s1, other) == Surplus(s, other)
  {
  }

  /** One part of a delta counts for its own node and for no other. */
  lemma PartSurplus(s: State, sender: string, de: DeltaEntry, now: int, ord: MapOrder)
    requires KeyedState(s) && !Discards(s, sender, de.id)
    ensures var s', mk := ApplyDeltaEntry(s, sender, de, now, ord), Known(s, de.id);
      Known(s', de.id) == After(mk, de.entries) && Surplus(s', de.id) == Surplus(s, de.id) + Repeats(mk, de.entries)
  {
    DiscoveredSame(s, de.id, de.addr, de.id);
    EntriesExcess(WorkOf(Discovered(s, de.id, de.addr), de.id), de.entries, now, ord);
  }

  lemma TotalSame(g: Gauges, g': Gauges, id: string, other: string)
    requires OthersSame(g, g', id) && other != id
    ensures Total(g', other) == Total(g, other)
  {
  }

  lemma PartOthers(s: State, sender: string, de: DeltaEntry, now: int, ord: MapOrder, id: string)
    requires KeyedState(s) && id != de.id
    ensures var s' := ApplyDeltaEntry(s, sender, de, now, ord);
      Known(s', id) == Known(s, id) && Surplus(s', id) == Surplus(s, id)
  {
    if !Discards(s, sender, de.id) {
      var w := WorkOf(Discovered(s, de.id, de.addr), de.id);
      DiscoveredSame(s, de.id, de.addr, id);
      EntriesOthers(w, de.entries, now, ord);
      assert w.ns.id == de.id;
      TotalSame(w.gauges, ApplyEntries(w, de.entries, now, ord).gauges, de.id, id);
    }
  }

  lemma PartKeyed(s: State, sender: string, de: DeltaEntry, now: int, ord: MapOrder)
    requires KeyedState(s)
    ensures KeyedState(ApplyDeltaEntry(s, sender, de, now, ord))
  {
    if !Discards(s, sender, de.id) {
      var s1 := Discovered(s, de.id, de.addr);
      assert s1.nodes[de.id].id == de.id && Keyed(s1.nodes[de.id].entries);
      EntriesKeyed(WorkOf(s1, de.id), de.entries, now, ord);
    }
  }

  lemma PartConserved(s: State, sender: string, de: DeltaEntry, now: int, ord: MapOrder)
    requires KeyedState(s) && Conserved(s) && (Discards(s, sender, de.id) || Repeats(Known(s, de.id), de.entries) == 0)
    ensures Conserved(ApplyDeltaEntry(s, sender, de, now, ord))
  {
    if !Discards(s, sender, de.id) {
      var s1, s' := Discovered(s, de.id, de.addr), ApplyDeltaEntry(s, sender, de, now, ord);
      if de.id !in s.nodes { DiscoverConserved(s, de.id, de.addr); }
      assert Agrees(s1.gauges, de.id, s1.nodes[de.id].entries);
      EntriesAgree(WorkOf(s1, de.id), de.entries, now, ord);
      EntriesOthers(WorkOf(s1, de.id), de.entries, now, ord);
      EntriesExcess(WorkOf(s1, de.id), de.entries, now, ord);
      ConservedPut(s1, s', de.id);
    }
  }

  lemma DiscardsStays(s: State, sender: string, de: DeltaEntry, now: int, ord: MapOrder, id: string)
    ensures Discards(ApplyDeltaEntry(s, sender, de, now, ord), sender, id) <==> Discards(s, sender, id)
  {
  }

  lemma {:induction false} DeltaSurplus(s: State, sender: string, delta: Delta, now: int, ord: MapOrder, id: string)
    requires KeyedState(s) && !Discards(s, sender, id)
    ensures Surplus(ApplyDelta(s, sender, delta, now, ord), id) == Surplus(s, id) + DeltaRepeats(Known(s, id), delta, id)
    decreases |delta|
  {
    if delta != [] {
      var s1 := ApplyDeltaEntry(s, sender, delta[0], now, ord);
      if delta[0].id == id {
        PartSurplus(s, sender, delta[0], now, ord);
      } else {
        PartOthers(s, sender, delta[0], now, ord, id);
      }
      PartKeyed(s, sender, delta[0], now, ord);
      DiscardsStays(s, sender, delta[0], now, ord, id);
      DeltaSurplus(s1, sender, delta[1..], now, ord, id);
    }
  }

  ghost predicate CountsTwice(s: State, sender: string, delta: Delta, id: string) {
    !Discards(s, sender, id) && DeltaRepeats(Known(s, id), delta, id) > 0
  }

  lemma {:induction false} DeltaConserved(s: State, sender: string, delta: Delta, now: int, ord: MapOrder)
    requires KeyedState(s) && Conserved(s) && forall id :: !CountsTwice(s, sender, delta, id)
    ensures Conserved(ApplyDelta(s, sender, delta, now, ord))
    decreases |delta|
  {
    if delta != [] {
      var de, s1 := delta[0], ApplyDeltaEntry(s, sender, delta[0], now, ord);
      assert !CountsTwice(s, sender, delta, de.id);
      PartConserved(s, sender, de, now, ord);
      PartKeyed(s, sender, de, now, ord);
      forall id ensures !CountsTwice(s1, sender, delta[1..], id) {
        assert !CountsTwice(s, sender, delta, id);
        DiscardsStays(s, sender, de, now, ord, id);
        if id != de.id {
          PartOthers(s, sender, de, now, ord, id);
        } else if !Discards(s, sender, id) {
          PartSurplus(s, sender, de, now, ord);
        }
      }
      DeltaConserved(s1, sender, delta[1..], now, ord);
    }
  }

  /** A delta leaves the gauge right if and only if it counts nothing twice. */
  lemma DeltaConservedIff(s: State, sender: string, delta: Delta, now: int, ord: MapOrder)
    requires KeyedState(s) && Conserved(s)
    ensures Conserved(ApplyDelta(s, sender, delta, now, ord)) <==> forall id :: !CountsTwice(s, sender, delta, id)
  {
    var s' := ApplyDelta(s, sender, delta, now, ord);
    if forall id :: !CountsTwice(s, sender, delta, id) {
      DeltaConserved(s, sender, delta, now, ord);
    } else {
      var id :| CountsTwice(s, sender, delta, id);
      DeltaSurplus(s, sender, delta, now, ord, id);
      ConservedSurplus(s, id);
      if Conserved(s') { ConservedSurplus(s', id); }
    }
  }

  // ---------- Local operations ----------

  /** Adding without counting out is right exactly when the key is new. */
  lemma AddAgreesIff(g: Gauges, id: string, m: map<string, Entry>, e: Entry)
    requires Agrees(g, id, m)
    ensures Agrees(AddEntry(g, id, e), id, m[e.key := e]) <==> e.key !in m
  {
    if e.key !in m {
      AddAgrees(g, id, m, e);
    } else {
      NoExcess(g, id, m);
      TotalOf(g, id, e);
      SizeOfPut(m, e.key, e);
      if Agrees(AddEntry(g, id, e), id, m[e.key := e]) { NoExcess(AddEntry(g, id, e), id, m[e.key := e]); }
    }
  }

  /** Conservation is decided by the one node that changes. */
  lemma ConservedIff(s: State, s': State, id: string)
    requires Conserved(s) && id in s'.nodes && s'.nodes == s.nodes[id := s'.nodes[id]]
    requires OthersSame(s.gauges, s'.gauges, id)
    ensures Conserved(s') <==> Agrees(s'.gauges, id, s'.nodes[id].entries)
  {
    if Agrees(s'.gauges, id, s'.nodes[id].entries) { ConservedPut(s, s', id); }
  }

  /** Leaving counts right exactly when nothing is stored under the left key yet. */
  lemma LeaveConservedIff(s: State)
    requires MemberInv(s) && Conserved(s)
    ensures Conserved(LeaveLocal(s)) <==> !Miscounts(s, Leave)
  {
    var ns := Local(s);
    if !ns.left {
      assert Agrees(s.gauges, ns.id, ns.entries);
      AddAgreesIff(s.gauges, ns.id, ns.entries, Departed(ns).entries[LEFT_KEY]);
      ConservedIff(s, LeaveLocal(s), s.localID);
    }
  }

  lemma UpsertConservedIff(s: State, key: string, value: string)
    requires MemberInv(s) && Conserved(s)
    ensures Conserved(UpsertLocal(s, key, value)) <==> !Miscounts(s, Upsert(key, value))
  {
    var ns := Local(s);
    if !UpsertIgnored(ns, key, value) {
      assert Agrees(s.gauges, ns.id, ns.entries);
      UpsertAgreesIff(s.gauges, ns.id, ns.entries, Upserted(ns, key, value).entries[key]);
      ConservedIff(s, UpsertLocal(s, key, value), s.localID);
    }
  }

  lemma DeleteConservedIff(s: State, key: string)
    requires MemberInv(s) && Conserved(s)
    ensures Conserved(DeleteLocal(s, key)) <==> !Miscounts(s, Delete(key))
  {
    var ns := Local(s);
    if !DeleteIgnored(ns, key) {
      assert Agrees(s.gauges, ns.id, ns.entries);
      UpsertAgreesIff(s.gauges, ns.id, ns.entries, Deleted(ns, key).entries[key]);
      ConservedIff(s, DeleteLocal(s, key), s.localID);
    }
  }

  lemma CarriesCompact(ns: NodeState)
    requires NodeWf(ns)
    ensures COMPACT_KEY in Carryover(ns).entries <==> COMPACT_KEY in ns.entries && Kept(ns.entries[COMPACT_KEY])
  {
    if COMPACT_KEY in Carryover(ns).entries { CarriedFrom(ns, COMPACT_KEY); }
    if COMPACT_KEY in ns.entries && Kept(ns.entries[COMPACT_KEY]) { CarriedIn(ns, COMPACT_KEY); }
  }

  lemma CarryoverAgrees(g: Gauges, ns: NodeState)
    requires NodeWf(ns)
    ensures var g' := ReversionGauges(ClearNode(g, ns.id), ns.id, Ascending(ns.entries, 0));
      Agrees(g', ns.id, Carryover(ns).entries) && OthersSame(g, g', ns.id)
  {
    ClearAgrees(g, ns.id);
    ListedKeysNew(ns);
    ReversionAgrees(ClearNode(g, ns.id), ns.(entries := map[]), Ascending(ns.entries, 0));
  }

  /** A compaction that takes place counts right exactly when no user entry sits under the compact key. */
  lemma CompactAgreesIff(g: Gauges, ns: NodeState)
    requires NodeWf(ns)
    ensures OthersSame(g, CompactedGauges(g, ns), ns.id)
    ensures Agrees(CompactedGauges(g, ns), ns.id, Bump(Carryover(ns), CompactEntry(Cutoff(ns))).entries)
       <==> !(COMPACT_KEY in ns.entries && Kept(ns.entries[COMPACT_KEY]))
  {
    var g', r := ReversionGauges(ClearNode(g, ns.id), ns.id, Ascending(ns.entries, 0)), Carryover(ns);
    var e := CompactEntry(Cutoff(ns)).(version := r.version + 1);
    CarryoverAgrees(g, ns);
    CarriesCompact(ns);
    AddAgreesIff(g', ns.id, r.entries, e);
    assert CompactedGauges(g, ns) == AddEntry(g', ns.id, e);
    assert Bump(r, CompactEntry(Cutoff(ns))).entries == r.entries[e.key := e];
  }

  lemma CompactConservedIff(s: State, threshold: int)
    requires MemberInv(s) && Conserved(s) && Enabled(s, Compact(threshold))
    ensures Conserved(CompactLocal(s, threshold)) <==> !Miscounts(s, Compact(threshold))
  {
    var ns := Local(s);
    if |DeletedKeys(ns.entries)| >= threshold {
      CompactAgreesIff(s.gauges, ns);
      ConservedIff(s, CompactLocal(s, threshold), s.localID);
    }
  }

  // ---------- Every operation, every run ----------

  lemma QuietConserved(s: State, op: Op)
    requires MemberInv(s) && Conserved(s) && Enabled(s, op)
    requires op.ReceiveDigest? || op.RemoveExpired? || op.CheckLiveness?
    ensures Conserved(Step(s, op))
  {
    var inv := (t: State) => Conserved(t);
    var ok := (m: Micro) => QuietKind(m);
    forall t, m | inv(t) && ok(m) && Guard(t, m) ensures inv(MicroStep(t, m)) {
      match m
      case MDiscover(id, addr) => DiscoverConserved(t, id, addr);
      case MExpire(id, x) => RemovalConserved(t, id, x);
      case MForget(_) =>
      case MLiveness(_, _, _) => LivenessConserved(t, m);
    }
    StepKeeps(inv, ok, s, op);
  }

  /** Every operation, whatever its inputs, keeps the gauge right if and only if it counts nothing twice. */
  lemma StepConservedIff(s: State, op: Op)
    requires MemberInv(s) && Conserved(s) && Enabled(s, op)
    ensures Conserved(Step(s, op)) <==> !Miscounts(s, op)
  {
    match op
    case Upsert(key, value) => UpsertConservedIff(s, key, value);
    case Delete(key) => DeleteConservedIff(s, key);
    case Leave => LeaveConservedIff(s);
    case Compact(threshold) => CompactConservedIff(s, threshold);
    case ReceiveDelta(sender, delta, now, ord) => DeltaConservedIff(s, sender, delta, now, ord);
    case _ => QuietConserved(s, op);
  }

  ghost predicate AlwaysConserved(s: State, ops: seq<Op>)
    decreases |ops|
  {
    Conserved(s) && (ops != [] ==> Enabled(s, ops[0]) && AlwaysConserved(Step(s, ops[0]), ops[1..]))
  }

  ghost predicate NeverMiscounts(s: State, ops: seq<Op>)
    decreases |ops|
  {
    ops != [] ==> Enabled(s, ops[0]) && !Miscounts(s, ops[0]) && NeverMiscounts(Step(s, ops[0]), ops[1..])
  }

  lemma {:induction false} RunConservedIff(s: State, ops: seq<Op>, s': State)
    requires MemberInv(s) && Conserved(s) && Reaches(s, ops, s')
    ensures AlwaysConserved(s, ops) <==> NeverMiscounts(s, ops)
    decreases |ops|
  {
    if ops != [] {
      StepConservedIff(s, ops[0]);
      MembersClosed();
      StepKeeps((t: State) => MemberInv(t), (m: Micro) => true, s, ops[0]);
      if Conserved(Step(s, ops[0])) { RunConservedIff(Step(s, ops[0]), ops[1..], s'); }
    }
  }

  /** For every run from the start, with any keys at all: the gauge is right after each operation if and only
      if none of them counts something twice. */
  lemma AlwaysConservedIff(localID: string, addr: string, ops: seq<Op>, s: State)
    requires Reaches(Init(localID, addr), ops, s)
    ensures AlwaysConserved(Init(localID, addr), ops) <==> NeverMiscounts(Init(localID, addr), ops)
  {
    InitConserved(localID, addr);
    RunConservedIff(Init(localID, addr), ops, s);
  }

  // ---------- Proper keys ----------

  /** Callers use non-empty keys and leave the two internal keys to gossip; so does every delta. */
  ghost predicate ProperOp(op: Op) {
    match op
    case Upsert(key, _) => key != "" && !ReservedKey(key)
    case Delete(key) => !ReservedKey(key)
    case ReceiveDelta(_, delta, _, _) =>
      forall i, j :: 0 <= i < |delta| && 0 <= j < |delta[i].entries| ==> delta[i].entries[j].key != ""
    case _ => true
  }

  ghost predicate ProperMicro(m: Micro) {
    match m
    case MEntry(_, e, _, _) => e.key != ""
    case MLocal(op) => ProperOp(op)
    case _ => true
  }

  /** The local node uses the internal keys for their own purpose. */
  ghost predicate ProperLocal(ns: NodeState) {
    && "" !in ns.entries && (LEFT_KEY in ns.entries ==> ns.left)
    && (COMPACT_KEY in ns.entries ==> IsCompact(ns.entries[COMPACT_KEY]))
  }

  /** Nobody has an entry under the empty key. */
  ghost predicate Proper(s: State) {
    && s.localID in s.nodes && ProperLocal(s.nodes[s.localID])
    && forall id :: id in s.nodes ==> "" !in s.nodes[id].entries
  }

  lemma ProperLocalKept(ns: NodeState, op: Op)
    requires NodeWf(ns) && ProperLocal(ns) && IsLocal(op) && ProperOp(op)
    requires op.Compact? ==> !CompactPanics(ns, op.threshold)
    ensures ProperLocal(LocalNode(ns, op))
  {
    if op.Compact? && |DeletedKeys(ns.entries)| >= op.threshold {
      var r := Compacted(ns, op.threshold);
      LocalKeepsNode(ns, op);
      CompactionPreservesMeaning(ns, op.threshold);
      CompactedEntries(ns, op.threshold);
      assert LEFT_KEY in r.entries ==> LEFT_KEY in ns.entries;
    }
  }

  lemma ProperPut(s: State, s': State, id: string, ns: NodeState)
    requires Proper(s) && s'.localID == s.localID && s'.nodes == s.nodes[id := ns] && "" !in ns.entries
    requires id == s.localID ==> ProperLocal(ns)
    ensures Proper(s')
  {
  }

  lemma MicroProper(s: State, m: Micro)
    requires MemberInv(s) && Proper(s) && Guard(s, m) && ProperMicro(m)
    ensures Proper(MicroStep(s, m))
  {
    var s' := MicroStep(s, m);
    match m
    case MLocal(op) =>
      LocalStep(s, op);
      ProperLocalKept(Local(s), op);
      ProperPut(s, s', s.localID, LocalNode(Local(s), op));
    case MEntry(id, e, now, _) => ProperPut(s, s', id, Applied(s.nodes[id], e, now));
    case MLiveness(id, _, _) => ProperPut(s, s', id, s'.nodes[id]);
    case MDiscover(id, addr) => ProperPut(s, s', id, Fresh(id, addr));
    case MExpire(id, _) => assert ExpiryOk(s, id);
    case MForget(_) =>
  }

  lemma StepProper(s: State, op: Op)
    requires MemberInv(s) && Proper(s) && Enabled(s, op) && ProperOp(op)
    ensures Proper(Step(s, op)) && MemberInv(Step(s, op))
  {
    var inv := (t: State) => MemberInv(t) && Proper(t);
    var ok := (m: Micro) => ProperMicro(m);
    assert Closed(inv, ok) by {
      forall t, m | inv(t) && ok(m) && Guard(t, m) ensures inv(MicroStep(t, m)) {
        MicroKeepsMembers(t, m);
        MicroProper(t, m);
      }
    }
    StepKeeps(inv, ok, s, op);
  }

  lemma {:induction false} NoRepeats(mk: Mark, es: seq<Entry>)
    requires mk.empty == None && forall j :: 0 <= j < |es| ==> es[j].key != ""
    ensures Repeats(mk, es) == 0 && After(mk, es).empty == None
    decreases |es|
  {
    if es != [] { NoRepeats(Next(mk, es[0]), es[1..]); }
  }

  lemma {:induction false} NoDeltaRepeats(mk: Mark, delta: Delta, id: string)
    requires mk.empty == None
    requires forall i, j :: 0 <= i < |delta| && 0 <= j < |delta[i].entries| ==> delta[i].entries[j].key != ""
    ensures DeltaRepeats(mk, delta, id) == 0
    decreases |delta|
  {
    if delta != [] {
      NoRepeats(mk, delta[0].entries);
      NoDeltaRepeats(if delta[0].id == id then After(mk, delta[0].entries) else mk, delta[1..], id);
    }
  }

  lemma ProperCounts(s: State, op: Op)
    requires Proper(s) && Enabled(s, op) && ProperOp(op)
    ensures !Miscounts(s, op)
  {
    if op.ReceiveDelta? {
      forall id ensures !CountsTwice(s, op.sender, op.delta, id) { NoDeltaRepeats(Known(s, id), op.delta, id); }
    }
  }

  lemma {:induction false} ProperRun(s: State, ops: seq<Op>, s': State)
    requires MemberInv(s) && Proper(s) && Conserved(s) && Reaches(s, ops, s')
    requires forall i :: 0 <= i < |ops| ==> ProperOp(ops[i])
    ensures Conserved(s')
    decreases |ops|
  {
    if ops != [] {
      ProperCounts(s, ops[0]);
      StepConservedIff(s, ops[0]);
      StepProper(s, ops[0]);
      ProperRun(Step(s, ops[0]), ops[1..], s');
    }
  }

  /** After any run in which no key is empty and callers do not use the two internal keys, the gauge of every
      label counts the stored entries of its class. */
  lemma GaugesConserved(localID: string, addr: string, ops: seq<Op>, s: State)
    requires Reaches(Init(localID, addr), ops, s)
    requires forall i :: 0 <= i < |ops| ==> ProperOp(ops[i])
    ensures Conserved(s)
  {
    InitConserved(localID, addr);
    ProperRun(Init(localID, addr), ops, s);
  }

  /** A caller that uses the left key itself is enough: then leaving counts an entry that is not there. */
  lemma LeftKeyIsMiscounted(localID: string, addr: string, value: string)
    ensures var s := UpsertLocal(Init(localID, addr), LEFT_KEY, value);
      Conserved(s) && !Conserved(LeaveLocal(s))
  {
    UpsertsReserved(localID, addr, LEFT_KEY, value);
    LeaveConservedIff(UpsertLocal(Init(localID, addr), LEFT_KEY, value));
  }

  lemma UpsertsReserved(localID: string, addr: string, key: string, value: string)
    ensures var s := UpsertLocal(Init(localID, addr), key, value);
      && MemberInv(s) && Conserved(s) && !Local(s).left
      && key in Local(s).entries && Kept(Local(s).entries[key])
  {
    var s0 := Init(localID, addr);
    InitConserved(localID, addr);
    UpsertConservedIff(s0, key, value);
    MicroKeepsMembers(s0, MLocal(Upsert(key, value)));
  }

  /** A caller that uses the compact key itself is enough too: then compacting does. */
  lemma CompactKeyIsMiscounted(localID: string, addr: string, value: string)
    ensures var s := UpsertLocal(Init(localID, addr), COMPACT_KEY, value);
      Conserved(s) && Enabled(s, Compact(0)) && !Conserved(CompactLocal(s, 0))
  {
    UpsertsReserved(localID, addr, COMPACT_KEY, value);
    CompactConservedIff(UpsertLocal(Init(localID, addr), COMPACT_KEY, value), 0);
  }
}
