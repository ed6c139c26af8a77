/** The gossip state of one node, as values, and what each locked method of `clusterState` does to it.

    Go's map iteration order is arbitrary, so every operation that ranges over a map takes a
    `MapOrder`; `time.Now()` and the failure detector's verdicts are parameters too. */
module GossipState {
  import opened Strconv

  const LEFT_KEY := "_internal:left"
  const COMPACT_KEY := "_internal:compact"

  // Durations and times are in nanoseconds.
  const NODE_EXPIRY: int := 60_000_000_000
  const NODE_TOMBSTONE_EXPIRY: int := NODE_EXPIRY * 2

  datatype Entry = Entry(key: string, value: string, version: nat, internal: bool, deleted: bool)

  datatype NodeState = NodeState(
    id: string, addr: string, version: nat, left: bool, unreachable: bool,
    expiry: Option<int>, entries: map<string, Entry>)

  datatype DigestEntry = DigestEntry(id: string, addr: string, version: nat, left: bool)
  datatype DeltaEntry = DeltaEntry(id: string, addr: string, entries: seq<Entry>)
  type Digest = seq<DigestEntry>
  type Delta = seq<DeltaEntry>

  /** A call to the watcher. */
  datatype Event =
    | OnJoin(id: string)
    | OnLeave(id: string)
    | OnReachable(id: string)
    | OnUnreachable(id: string)
    | OnUpsertKey(id: string, key: string, value: string)
    | OnDeleteKey(id: string, key: string)
    | OnExpired(id: string)

  /** The labels of the entries gauge. */
  datatype Label = Label(id: string, internal: bool, deleted: bool)
  type Gauges = map<Label, int>

  datatype State = State(
    localID: string, nodes: map<string, NodeState>, tombstones: map<string, int>,
    gauges: Gauges, trace: seq<Event>)

  // ---------- Map iteration order ----------

  ghost predicate Enumerates(ks: seq<string>, s: set<string>) {
    && (forall k :: k in ks <==> k in s)
    && (forall i, j :: 0 <= i < j < |ks| ==> ks[i] != ks[j])
  }

  ghost predicate ValidOrder(ord: set<string> -> seq<string>) {
    forall s: set<string> :: Enumerates(ord(s), s)
  }

  ghost function AnyOrder(s: set<string>): (ks: seq<string>)
    ensures Enumerates(ks, s)
  {
    if s == {} then [] else var k :| k in s; [k] + AnyOrder(s - {k})
  }

  ghost function SomeOrder(): (ord: set<string> -> seq<string>)
    ensures ValidOrder(ord)
  {
    (s: set<string>) => AnyOrder(s)
  }

  type MapOrder = ord: set<string> -> seq<string> | ValidOrder(ord) ghost witness SomeOrder()

  /** The order in which a loop visits the keys. */
  function Range(ord: MapOrder, s: set<string>): (ks: seq<string>)
    ensures Enumerates(ks, s)
  {
    ord(s)
  }

  lemma {:induction false} EnumerationSize(ks: seq<string>, s: set<string>)
    requires Enumerates(ks, s)
    ensures |ks| == |s|
    decreases |ks|
  {
    if ks != [] {
      assert forall i :: 0 < i < |ks| ==> ks[1..][i - 1] == ks[i];
      EnumerationSize(ks[1..], s - {ks[0]});
    }
  }

  // ---------- Entries gauge ----------

  function Read(g: Gauges, l: Label): int {
    if l in g then g[l] else 0
  }

  function LabelOf(id: string, e: Entry): Label {
    Label(id, e.internal, e.deleted)
  }

  function AddEntry(g: Gauges, id: string, e: Entry): Gauges {
    g[LabelOf(id, e) := Read(g, LabelOf(id, e)) + 1]
  }

  function DeleteEntry(g: Gauges, id: string, e: Entry): Gauges {
    g[LabelOf(id, e) := Read(g, LabelOf(id, e)) - 1]
  }

  /** `existing` is absent when the key was not stored; an empty key reads as absent too. */
  function UpsertEntry(g: Gauges, id: string, e: Entry, existing: Option<Entry>): Gauges {
    if existing.Some? && existing.value.key != "" then AddEntry(DeleteEntry(g, id, existing.value), id, e)
    else AddEntry(g, id, e)
  }

  function ClearNode(g: Gauges, id: string): Gauges {
    map l | l in g && l.id != id :: g[l]
  }

  function Lookup(m: map<string, Entry>, k: string): Option<Entry> {
    if k in m then Some(m[k]) else None
  }

  // ---------- Updates of the local node ----------

  function Fresh(id: string, addr: string): NodeState {
    NodeState(id, addr, 0, false, false, None, map[])
  }

  function Init(localID: string, addr: string): State {
    State(localID, map[localID := Fresh(localID, addr)], map[], map[], [])
  }

  /** Stores `e` under the next version. */
  function Bump(ns: NodeState, e: Entry): NodeState {
    ns.(version := ns.version + 1, entries := ns.entries[e.key := e.(version := ns.version + 1)])
  }

  predicate UpsertIgnored(ns: NodeState, key: string, value: string) {
    key in ns.entries && ns.entries[key].value == value
  }

  function Upserted(ns: NodeState, key: string, value: string): NodeState {
    if UpsertIgnored(ns, key, value) then ns else Bump(ns, Entry(key, value, 0, false, false))
  }

  predicate DeleteIgnored(ns: NodeState, key: string) {
    key !in ns.entries || ns.entries[key].deleted
  }

  function Deleted(ns: NodeState, key: string): NodeState {
    if DeleteIgnored(ns, key) then ns
    else
      var e := Entry(ns.entries[key].key, "", ns.version + 1, ns.entries[key].internal, true);
      ns.(version := ns.version + 1, entries := ns.entries[key := e])
  }

  function Departed(ns: NodeState): NodeState {
    if ns.left then ns else Bump(ns, Entry(LEFT_KEY, "", 0, true, false)).(left := true)
  }

  ghost function DeletedKeys(m: map<string, Entry>): set<string> {
    set k | k in m && m[k].deleted
  }

  /** Whether compaction carries the entry over under a new version. */
  predicate Kept(e: Entry) {
    !e.deleted && !(e.internal && e.key == COMPACT_KEY)
  }

  /** Stores the entries worth keeping, in order, each under the next version. */
  function Reversion(ns: NodeState, es: seq<Entry>): NodeState
    decreases |es|
  {
    if es == [] then ns
    else Reversion(if Kept(es[0]) then Bump(ns, es[0]) else ns, es[1..])
  }

  function ReversionGauges(g: Gauges, id: string, es: seq<Entry>): Gauges
    decreases |es|
  {
    if es == [] then g
    else ReversionGauges(if Kept(es[0]) then AddEntry(g, id, es[0]) else g, id, es[1..])
  }

  /** CompactLocal indexes the last entry, so compacting an empty node panics. */
  predicate CompactPanics(ns: NodeState, threshold: int) {
    threshold <= 0 && ns.entries == map[]
  }

  function CompactEntry(c: nat): Entry {
    Entry(COMPACT_KEY, FormatUint(c), 0, true, false)
  }

  ghost function Compacted(ns: NodeState, threshold: int): NodeState
    requires !CompactPanics(ns, threshold)
  {
    if |DeletedKeys(ns.entries)| < threshold then ns
    else
      var es := Ascending(ns.entries, 0);
      Bump(Reversion(ns.(entries := map[]), es), CompactEntry(LastVersion(es, 0)))
  }

  // ---------- Entries in version order ----------

  ghost function NewerKeys(m: map<string, Entry>, from: nat): set<string> {
    set k | k in m && m[k].version > from
  }

  ghost predicate IsOldest(m: map<string, Entry>, from: nat, k: string) {
    k in NewerKeys(m, from) && forall j :: j in NewerKeys(m, from) ==> m[k].version <= m[j].version
  }

  lemma OldestExists(m: map<string, Entry>, from: nat, ks: set<string>) returns (k: string)
    requires ks != {} && ks <= m.Keys
    ensures k in ks && forall j :: j in ks ==> m[k].version <= m[j].version
    decreases ks
  {
    k :| k in ks;
    if ks != {k} {
      var r := OldestExists(m, from, ks - {k});
      if m[r].version < m[k].version { k := r; }
    }
  }

  ghost function Oldest(m: map<string, Entry>, from: nat): (k: string)
    requires NewerKeys(m, from) != {}
    ensures IsOldest(m, from, k)
  {
    assert exists k :: IsOldest(m, from, k) by {
      var k := OldestExists(m, from, NewerKeys(m, from));
      assert IsOldest(m, from, k);
    }
    var k :| IsOldest(m, from, k);
    k
  }

  /** The entries newer than `from`, sorted by version. */
  ghost function Ascending(m: map<string, Entry>, from: nat): seq<Entry>
    decreases NewerKeys(m, from)
  {
    if NewerKeys(m, from) == {} then []
    else
      var k := Oldest(m, from);
      assert k in NewerKeys(m, from) && k !in NewerKeys(m, m[k].version);
      [m[k]] + Ascending(m, m[k].version)
  }

  function LastVersion(es: seq<Entry>, default: nat): nat {
    if es == [] then default else es[|es| - 1].version
  }

  ghost predicate Keyed(m: map<string, Entry>) {
    forall k :: k in m ==> m[k].key == k
  }

  ghost predicate DistinctVersions(m: map<string, Entry>) {
    forall j, k :: j in m && k in m && m[j].version == m[k].version ==> j == k
  }

  ghost predicate EntriesWf(m: map<string, Entry>) {
    Keyed(m) && DistinctVersions(m)
  }

  /** Entries sit under their own key, no two share a version, and none is newer than the node. */
  ghost predicate NodeWf(ns: NodeState) {
    && EntriesWf(ns.entries)
    && forall k :: k in ns.entries ==> 0 < ns.entries[k].version <= ns.version
  }

  ghost predicate KeyedState(s: State) {
    forall id :: id in s.nodes ==> s.nodes[id].id == id && Keyed(s.nodes[id].entries)
  }

  ghost predicate StateWf(s: State) {
    s.localID in s.nodes && forall id :: id in s.nodes ==> s.nodes[id].id == id && NodeWf(s.nodes[id])
  }

  predicate Increasing(es: seq<Entry>, from: nat) {
    && (forall i :: 0 <= i < |es| ==> es[i].version > from)
    && (forall i, j :: 0 <= i < j < |es| ==> es[i].version < es[j].version)
  }

  /** `es` is exactly the part of `m` newer than `from`, oldest first. */
  ghost predicate Lists(m: map<string, Entry>, from: nat, es: seq<Entry>) {
    && Increasing(es, from)
    && (forall i :: 0 <= i < |es| ==> es[i].key in m && m[es[i].key] == es[i])
    && (forall k :: k in m && m[k].version > from ==> m[k] in es)
  }

  /** The oldest entry followed by the list of what is newer is the list. */
  lemma ListsFrom(m: map<string, Entry>, from: nat, k: string, rest: seq<Entry>)
    requires EntriesWf(m) && IsOldest(m, from, k) && Lists(m, m[k].version, rest)
    ensures Lists(m, from, [m[k]] + rest)
  {
    var es := [m[k]] + rest;
    assert k in NewerKeys(m, from);
    forall j | j in m && m[j].version > from ensures m[j] in es {
      assert j in NewerKeys(m, from);
      if m[j].version == m[k].version { assert es[0] == m[j]; }
    }
  }

  lemma {:induction false} AscendingLists(m: map<string, Entry>, from: nat)
    requires EntriesWf(m)
    ensures Lists(m, from, Ascending(m, from))
    decreases NewerKeys(m, from)
  {
    if NewerKeys(m, from) == {} {
      forall j | j in m ensures m[j].version <= from { assert j !in NewerKeys(m, from); }
    } else {
      var k := Oldest(m, from);
      assert k in NewerKeys(m, from) && k !in NewerKeys(m, m[k].version);
      AscendingLists(m, m[k].version);
      ListsFrom(m, from, k, Ascending(m, m[k].version));
    }
  }

  // ---------- The local methods on the whole state ----------

  function Local(s: State): NodeState
    requires s.localID in s.nodes
  {
    s.nodes[s.localID]
  }

  function SetLocal(s: State, ns: NodeState, g: Gauges): State {
    s.(nodes := s.nodes[s.localID := ns], gauges := g)
  }

  function UpsertLocal(s: State, key: string, value: string): State
    requires s.localID in s.nodes
  {
    var ns := Local(s);
    if UpsertIgnored(ns, key, value) then s
    else
      var ns' := Upserted(ns, key, value);
      SetLocal(s, ns', UpsertEntry(s.gauges, ns.id, ns'.entries[key], Lookup(ns.entries, key)))
  }

  function DeleteLocal(s: State, key: string): State
    requires s.localID in s.nodes
  {
    var ns := Local(s);
    if DeleteIgnored(ns, key) then s
    else
      var ns' := Deleted(ns, key);
      SetLocal(s, ns', UpsertEntry(s.gauges, ns.id, ns'.entries[key], Lookup(ns.entries, key)))
  }

  function LeaveLocal(s: State): State
    requires s.localID in s.nodes
  {
    var ns := Local(s);
    if ns.left then s
    else SetLocal(s, Departed(ns), AddEntry(s.gauges, ns.id, Departed(ns).entries[LEFT_KEY]))
  }

  ghost function CompactLocal(s: State, threshold: int): State
    requires s.localID in s.nodes && !CompactPanics(Local(s), threshold)
  {
    var ns := Local(s);
    if |DeletedKeys(ns.entries)| < threshold then s
    else
      var es := Ascending(ns.entries, 0);
      var g := ReversionGauges(ClearNode(s.gauges, ns.id), ns.id, es);
      SetLocal(s, Compacted(ns, threshold), AddEntry(g, ns.id, CompactEntry(LastVersion(es, 0))))
  }

  // ---------- Digests and deltas ----------

  function DigestEntryOf(ns: NodeState): DigestEntry {
    DigestEntry(ns.id, ns.addr, ns.version, ns.left)
  }

  function DigestOf(s: State, ids: seq<string>): Digest
    requires forall id :: id in ids ==> id in s.nodes
  {
    seq(|ids|, i requires 0 <= i < |ids| => DigestEntryOf(s.nodes[ids[i]]))
  }

  /** The digest of every node the node knows. */
  function FullDigest(s: State, ord: MapOrder): Digest {
    DigestOf(s, Range(ord, s.nodes.Keys))
  }

  ghost function DeltaEntryOf(ns: NodeState, from: nat): DeltaEntry {
    DeltaEntry(ns.id, ns.addr, Ascending(ns.entries, from))
  }

  /** Everything the node has about itself. */
  ghost function OwnDelta(s: State): Delta
    requires s.localID in s.nodes
  {
    [DeltaEntryOf(Local(s), 0)]
  }

  function DigestIDs(digest: Digest): set<string> {
    set i | 0 <= i < |digest| :: digest[i].id
  }

  /** The delta for the nodes in the digest; nodes with nothing new are left out. */
  ghost function DigestDelta(s: State, digest: Digest): Delta {
    if digest == [] then []
    else if digest[0].id !in s.nodes then DigestDelta(s, digest[1..])
    else
      var de := DeltaEntryOf(s.nodes[digest[0].id], digest[0].version);
      (if |de.entries| > 0 then [de] else []) + DigestDelta(s, digest[1..])
  }

  /** The delta for nodes the digest does not mention. */
  ghost function FullDelta(s: State, ids: seq<string>): Delta
    requires forall id :: id in ids ==> id in s.nodes
  {
    seq(|ids|, i requires 0 <= i < |ids| => DeltaEntryOf(s.nodes[ids[i]], 0))
  }

  ghost function DeltaFor(s: State, digest: Digest, fullDigest: bool, ord: MapOrder): Delta {
    DigestDelta(s, digest)
    + if fullDigest then FullDelta(s, Range(ord, s.nodes.Keys - DigestIDs(digest))) else []
  }

  // ---------- Discovery ----------

  /** Whether the node was removed as expired and the sender may not bring it back. */
  predicate Tombstoned(s: State, id: string, sender: string) {
    id in s.tombstones && id != sender
  }

  function Discover(s: State, id: string, addr: string): State {
    s.(nodes := s.nodes[id := Fresh(id, addr)],
       tombstones := s.tombstones - {id},
       trace := s.trace + [OnJoin(id)])
  }

  function ApplyDigestEntry(s: State, sender: string, d: DigestEntry): State {
    if d.id in s.nodes || d.left || Tombstoned(s, d.id, sender) then s
    else Discover(s, d.id, d.addr)
  }

  function ApplyDigest(s: State, sender: string, digest: Digest): State
    decreases |digest|
  {
    if digest == [] then s
    else ApplyDigest(ApplyDigestEntry(s, sender, digest[0]), sender, digest[1..])
  }

  // ---------- Applying deltas ----------

  function StaleKeys(m: map<string, Entry>, c: nat): set<string> {
    set k | k in m && m[k].version <= c
  }

  predicate IsLeft(e: Entry) {
    e.internal && e.key == LEFT_KEY
  }

  predicate IsCompact(e: Entry) {
    e.internal && e.key == COMPACT_KEY
  }

  /** The version a compact entry lets viewers discard, when it parses. */
  function CompactVersion(e: Entry): Option<nat> {
    if IsCompact(e) then ParseUint(e.value) else None
  }

  function Stored(ns: NodeState, e: Entry): NodeState {
    ns.(entries := ns.entries[e.key := e], version := e.version)
  }

  /** The view after taking a newer entry. */
  function Applied(ns: NodeState, e: Entry, now: int): NodeState {
    var ns1 := Stored(ns, e);
    if IsLeft(e) then ns1.(left := true, expiry := Some(now + NODE_EXPIRY))
    else if CompactVersion(e).Some? then
      ns1.(entries := ns1.entries - StaleKeys(ns1.entries, CompactVersion(e).value))
    else ns1
  }

  function DropEvents(id: string, m: map<string, Entry>, ks: seq<string>): seq<Event>
    requires forall k :: k in ks ==> k in m
  {
    if ks == [] then []
    else (if m[ks[0]].deleted then [] else [OnDeleteKey(id, ks[0])]) + DropEvents(id, m, ks[1..])
  }

  function DropGauges(g: Gauges, id: string, m: map<string, Entry>, ks: seq<string>): Gauges
    requires forall k :: k in ks ==> k in m
    decreases |ks|
  {
    if ks == [] then g
    else DropGauges(DeleteEntry(g, id, m[ks[0]]), id, m, ks[1..])
  }

  function EntryEvents(ns: NodeState, e: Entry, ord: MapOrder): seq<Event> {
    if !e.internal then
      [if e.deleted then OnDeleteKey(ns.id, e.key) else OnUpsertKey(ns.id, e.key, e.value)]
    else if IsLeft(e) then [OnLeave(ns.id)]
    else if CompactVersion(e).Some? then
      var m := Stored(ns, e).entries;
      DropEvents(ns.id, m, Range(ord, StaleKeys(m, CompactVersion(e).value)))
    else []
  }

  function EntryGauges(g: Gauges, ns: NodeState, e: Entry, ord: MapOrder): Gauges {
    var g1 := UpsertEntry(g, ns.id, e, Lookup(ns.entries, e.key));
    if CompactVersion(e).Some? then
      var m := Stored(ns, e).entries;
      DropGauges(g1, ns.id, m, Range(ord, StaleKeys(m, CompactVersion(e).value)))
    else g1
  }

  /** The state of one remote node while a delta entry is applied to it. */
  datatype Work = Work(ns: NodeState, gauges: Gauges, trace: seq<Event>)

  function ApplyEntry(w: Work, e: Entry, now: int, ord: MapOrder): Work {
    if e.version <= w.ns.version then w
    else Work(Applied(w.ns, e, now), EntryGauges(w.gauges, w.ns, e, ord), w.trace + EntryEvents(w.ns, e, ord))
  }

  /** A newer compact entry whose value does not parse ends the loop over the entries. */
  predicate Ends(v: nat, e: Entry) {
    e.version > v && IsCompact(e) && CompactVersion(e).None?
  }

  function ApplyEntries(w: Work, es: seq<Entry>, now: int, ord: MapOrder): Work
    decreases |es|
  {
    if es == [] then w
    else
      var w' := ApplyEntry(w, es[0], now, ord);
      if Ends(w.ns.version, es[0]) then w' else ApplyEntries(w', es[1..], now, ord)
  }

  predicate Discards(s: State, sender: string, id: string) {
    id == s.localID || (id !in s.nodes && Tombstoned(s, id, sender))
  }

  function Discovered(s: State, id: string, addr: string): State {
    if id in s.nodes then s else Discover(s, id, addr)
  }

  function WorkOf(s: State, id: string): Work
    requires id in s.nodes
  {
    Work(s.nodes[id], s.gauges, s.trace)
  }

  /** The version the node has of another, 0 if it does not know it. */
  function KnownVersion(s: State, id: string): nat {
    if id in s.nodes then s.nodes[id].version else 0
  }

  function SetWork(s: State, id: string, w: Work): State {
    s.(nodes := s.nodes[id := w.ns], gauges := w.gauges, trace := w.trace)
  }

  function ApplyDeltaEntry(s: State, sender: string, de: DeltaEntry, now: int, ord: MapOrder): State {
    if Discards(s, sender, de.id) then s
    else
      var s1 := Discovered(s, de.id, de.addr);
      SetWork(s1, de.id, ApplyEntries(WorkOf(s1, de.id), de.entries, now, ord))
  }

  function ApplyDelta(s: State, sender: string, delta: Delta, now: int, ord: MapOrder): State
    decreases |delta|
  {
    if delta == [] then s
    else ApplyDelta(ApplyDeltaEntry(s, sender, delta[0], now, ord), sender, delta[1..], now, ord)
  }

  lemma AppliedWf(ns: NodeState, e: Entry, now: int)
    requires NodeWf(ns) && e.version > ns.version
    ensures NodeWf(Applied(ns, e, now))
  {
  }

  // ---------- Liveness and expiry ----------

  function ForgetTombstones(tombstones: map<string, int>, t: int): map<string, int> {
    map id | id in tombstones && !(t > tombstones[id] + NODE_TOMBSTONE_EXPIRY) :: tombstones[id]
  }

  predicate IsExpired(ns: NodeState, t: int) {
    ns.expiry.Some? && t > ns.expiry.value
  }

  function ExpiredIDs(s: State, t: int): set<string> {
    set id | id in s.nodes && IsExpired(s.nodes[id], t)
  }

  function RemoveNode(s: State, id: string, t: int): State {
    s.(nodes := s.nodes - {id},
       tombstones := s.tombstones[id := t],
       gauges := ClearNode(s.gauges, id),
       trace := s.trace + [OnExpired(id)])
  }

  function RemoveNodes(s: State, ids: seq<string>, t: int): State
    decreases |ids|
  {
    if ids == [] then s else RemoveNodes(RemoveNode(s, ids[0], t), ids[1..], t)
  }

  function RemoveExpiredAt(s: State, t: int, ord: MapOrder): State {
    RemoveNodes(s.(tombstones := ForgetTombstones(s.tombstones, t)), Range(ord, ExpiredIDs(s, t)), t)
  }

  /** One turn of UpdateLiveness; `suspected` are the nodes whose suspicion level is over the threshold. */
  function UpdateNode(s: State, id: string, suspected: set<string>, now: int): State
    requires id in s.nodes
  {
    var ns := s.nodes[id];
    if id == s.localID || ns.left || ns.unreachable == (id in suspected) then s
    else if id in suspected then
      s.(nodes := s.nodes[id := ns.(unreachable := true, expiry := Some(now + NODE_EXPIRY))],
         trace := s.trace + [OnUnreachable(id)])
    else
      s.(nodes := s.nodes[id := ns.(unreachable := false, expiry := None)],
         trace := s.trace + [OnReachable(id)])
  }

  function UpdateNodes(s: State, ids: seq<string>, suspected: set<string>, now: int): State
    requires forall id :: id in ids ==> id in s.nodes
    decreases |ids|
  {
    if ids == [] then s
    else UpdateNodes(UpdateNode(s, ids[0], suspected, now), ids[1..], suspected, now)
  }

  function UpdateLiveness(s: State, suspected: set<string>, now: int, ord: MapOrder): State {
    UpdateNodes(s, Range(ord, s.nodes.Keys), suspected, now)
  }
}
