/** The gossip state as the program keeps it: an object whose locked methods update maps in place.
    Every method is proved to do exactly what the function of the same name in `GossipState` does. */
module ClusterState {
  import opened Strconv
  import opened GossipState
  import opened Compaction

  /** Collects the entries newer than `from` and sorts them by version. */
  method SortedEntries(m: map<string, Entry>, from: nat) returns (es: seq<Entry>)
    requires EntriesWf(m)
    ensures es == Ascending(m, from)
  {
    es := [];
    var last := from;
    var newer := set k | k in m && m[k].version > from;
    while newer != {}
      invariant newer == NewerKeys(m, last)
      invariant es + Ascending(m, last) == Ascending(m, from)
    {
      var next := FirstEntry(m, newer);
      assert IsOldest(m, last, next);
      assert Oldest(m, last) == next;
      es := es + [m[next]];
      last := m[next].version;
      newer := set k | k in newer && m[k].version > last;
    }
  }

  /** The key of the entry with the smallest version. */
  method FirstEntry(m: map<string, Entry>, ks: set<string>) returns (next: string)
    requires ks != {} && ks <= m.Keys
    ensures next in ks && forall k :: k in ks ==> m[next].version <= m[k].version
  {
    next :| next in ks;
    var rest := ks - {next};
    while rest != {}
      invariant next in ks && rest <= ks
      invariant forall k :: k in ks - rest ==> m[next].version <= m[k].version
    {
      var k :| k in rest;
      if m[k].version < m[next].version { next := k; }
      rest := rest - {k};
    }
  }

  method CountDeleted(m: map<string, Entry>, ord: MapOrder) returns (deleted: nat)
    ensures deleted == |DeletedKeys(m)|
  {
    deleted := 0;
    var keys := Range(ord, m.Keys);
    ghost var counted: set<string> := {};
    for i := 0 to |keys|
      invariant counted == set k | k in keys[..i] && m[k].deleted
      invariant deleted == |counted|
    {
      assert keys[..i + 1] == keys[..i] + [keys[i]];
      if m[keys[i]].deleted {
        deleted := deleted + 1;
        counted := counted + {keys[i]};
      }
    }
    assert keys[..|keys|] == keys;
    assert counted == DeletedKeys(m);
  }

  /** Stores the entries that survive a compaction again, each under a new version. */
  method Rebuild(start: NodeState, startGauges: Gauges, entries: seq<Entry>)
    returns (state: NodeState, gauges: Gauges)
    ensures state == Reversion(start, entries)
    ensures gauges == ReversionGauges(startGauges, start.id, entries)
    ensures state.id == start.id
  {
    state, gauges := start, startGauges;
    for i := 0 to |entries|
      invariant state.id == start.id
      invariant Reversion(state, entries[i..]) == Reversion(start, entries)
      invariant ReversionGauges(gauges, start.id, entries[i..]) == ReversionGauges(startGauges, start.id, entries)
    {
      assert entries[i..][1..] == entries[i + 1..];
      if entries[i].deleted {
        continue;
      }
      if entries[i].internal && entries[i].key == COMPACT_KEY {
        continue;
      }
      var version := state.version + 1;
      var entry := entries[i].(version := version);
      state := state.(version := version, entries := state.entries[entry.key := entry]);
      gauges := AddEntry(gauges, state.id, entry);
    }
  }

  /** The loop over the entries of a delta, for the node they belong to. */
  method UpdateEntries(start: NodeState, startGauges: Gauges, startTrace: seq<Event>,
                       es: seq<Entry>, now: int, ord: MapOrder)
    returns (state: NodeState, gauges: Gauges, trace: seq<Event>)
    requires Keyed(start.entries)
    ensures Work(state, gauges, trace) == ApplyEntries(Work(start, startGauges, startTrace), es, now, ord)
    ensures state.id == start.id && Keyed(state.entries)
  {
    state, gauges, trace := start, startGauges, startTrace;
    for i := 0 to |es|
      invariant state.id == start.id && Keyed(state.entries)
      invariant ApplyEntries(Work(state, gauges, trace), es[i..], now, ord)
             == ApplyEntries(Work(start, startGauges, startTrace), es, now, ord)
    {
      assert es[i..][1..] == es[i + 1..];
      var abort;
      state, gauges, trace, abort := UpdateEntry(state, gauges, trace, es[i], now, ord);
      if abort {
        return;
      }
    }
  }

  /** One turn of that loop; reports whether the loop must stop. */
  method UpdateEntry(start: NodeState, startGauges: Gauges, startTrace: seq<Event>,
                     e: Entry, now: int, ord: MapOrder)
    returns (state: NodeState, gauges: Gauges, trace: seq<Event>, abort: bool)
    requires Keyed(start.entries)
    ensures Work(state, gauges, trace) == ApplyEntry(Work(start, startGauges, startTrace), e, now, ord)
    ensures abort == Ends(start.version, e)
    ensures state.id == start.id && Keyed(state.entries)
  {
    state, gauges, trace, abort := start, startGauges, startTrace, false;
    if e.version <= state.version {
      return;
    }
    var existing := Lookup(state.entries, e.key);
    state := state.(entries := state.entries[e.key := e], version := e.version);
    gauges := UpsertEntry(gauges, state.id, e, existing);

    if e.internal {
      if e.key == LEFT_KEY {
        state := state.(left := true, expiry := Some(now + NODE_EXPIRY));
        trace := trace + [OnLeave(state.id)];
      } else if e.key == COMPACT_KEY {
        var compactVersion := ParseUint(e.value);
        if compactVersion.None? {
          abort := true;
          return;
        }
        var m;
        m, gauges, trace := DropEntries(state.id, state.entries, gauges, trace, compactVersion.value, ord);
        state := state.(entries := m);
      }
    } else {
      if e.deleted {
        trace := trace + [OnDeleteKey(state.id, e.key)];
      } else {
        trace := trace + [OnUpsertKey(state.id, e.key, e.value)];
      }
    }
  }

  /** Discards every entry up to the compacted version. */
  method DropEntries(id: string, m: map<string, Entry>, startGauges: Gauges, startTrace: seq<Event>,
                     compactVersion: nat, ord: MapOrder)
    returns (m': map<string, Entry>, gauges: Gauges, trace: seq<Event>)
    requires Keyed(m)
    ensures m' == m - StaleKeys(m, compactVersion)
    ensures gauges == DropGauges(startGauges, id, m, Range(ord, StaleKeys(m, compactVersion)))
    ensures trace == startTrace + DropEvents(id, m, Range(ord, StaleKeys(m, compactVersion)))
  {
    m', gauges, trace := m, startGauges, startTrace;
    var stale := StaleKeys(m, compactVersion);
    var ks := Range(ord, stale);
    for i := 0 to |ks|
      invariant forall k :: k in ks[i..] ==> k in m
      invariant m' == m - (set k | k in ks[..i])
      invariant DropGauges(gauges, id, m, ks[i..]) == DropGauges(startGauges, id, m, ks)
      invariant trace + DropEvents(id, m, ks[i..]) == startTrace + DropEvents(id, m, ks)
    {
      assert ks[i] in stale;
      var e := m[ks[i]];
      DropEventsStep(id, m, ks, i, trace);
      gauges := DeleteEntry(gauges, id, e);
      m' := m' - {e.key};
      if !e.deleted {
        trace := trace + [OnDeleteKey(id, e.key)];
      }
    }
    assert ks[..|ks|] == ks;
    assert (set k | k in ks) == stale;
  }

  lemma DropEventsStep(id: string, m: map<string, Entry>, ks: seq<string>, i: nat, trace: seq<Event>)
    requires i < |ks| && forall k :: k in ks ==> k in m
    ensures ks[i..][1..] == ks[i + 1..] && ks[..i + 1] == ks[..i] + [ks[i]]
    ensures trace + DropEvents(id, m, ks[i..])
         == trace + (if m[ks[i]].deleted then [] else [OnDeleteKey(id, ks[i])]) + DropEvents(id, m, ks[i + 1..])
  {
    assert ks[i..][1..] == ks[i + 1..];
  }

  class ClusterState {
    const localID: string
    var nodes: map<string, NodeState>
    var tombstones: map<string, int>
    var gauges: Gauges
    var trace: seq<Event>

    ghost function Abstract(): State
      reads this
    {
      State(localID, nodes, tombstones, gauges, trace)
    }

    /** The local node is known. Every other fact about the state is proved of its abstract value. */
    ghost predicate Valid()
      reads this
    {
      localID in nodes
    }

    constructor (localID: string, localAddr: string)
      ensures Valid() && Abstract() == Init(localID, localAddr)
    {
      this.localID := localID;
      nodes := map[localID := Fresh(localID, localAddr)];
      tombstones := map[];
      gauges := map[];
      trace := [];
    }

    method UpsertLocal(key: string, value: string)
      requires Valid()
      modifies this
      ensures Valid() && Abstract() == GossipState.UpsertLocal(old(Abstract()), key, value)
    {
      var state := nodes[localID];
      var existing := Lookup(state.entries, key);
      if existing.Some? && existing.value.value == value {
        return;
      }
      var version := state.version + 1;
      var entry := Entry(key, value, version, false, false);
      nodes := nodes[localID := state.(version := version, entries := state.entries[key := entry])];
      gauges := UpsertEntry(gauges, state.id, entry, existing);
    }

    method DeleteLocal(key: string)
      requires Valid()
      modifies this
      ensures Valid() && Abstract() == GossipState.DeleteLocal(old(Abstract()), key)
    {
      var state := nodes[localID];
      var existing := Lookup(state.entries, key);
      if existing.None? || existing.value.deleted {
        return;
      }
      var version := state.version + 1;
      var entry := Entry(existing.value.key, "", version, existing.value.internal, true);
      nodes := nodes[localID := state.(version := version, entries := state.entries[key := entry])];
      gauges := UpsertEntry(gauges, state.id, entry, existing);
    }

    method LeaveLocal()
      requires Valid()
      modifies this
      ensures Valid() && Abstract() == GossipState.LeaveLocal(old(Abstract()))
    {
      var state := nodes[localID];
      if state.left {
        return;
      }
      var version := state.version + 1;
      var entry := Entry(LEFT_KEY, "", version, true, false);
      nodes := nodes[localID := state.(left := true, version := version,
                                       entries := state.entries[LEFT_KEY := entry])];
      gauges := AddEntry(gauges, state.id, entry);
    }

    method CompactLocal(threshold: int, ord: MapOrder)
      requires StateWf(Abstract())
      requires !CompactPanics(nodes[localID], threshold)
      modifies this
      ensures Valid() && Abstract() == GossipState.CompactLocal(old(Abstract()), threshold)
    {
      var state := nodes[localID];
      var deleted := CountDeleted(state.entries, ord);
      if deleted < threshold {
        return;
      }

      var entries := SortedEntries(state.entries, 0);
      CompactableNotEmpty(state, threshold);
      var compactVersion := entries[|entries| - 1].version;

      var state', gauges' := Rebuild(state.(entries := map[]), ClearNode(gauges, state.id), entries);

      var version := state'.version + 1;
      var entry := Entry(COMPACT_KEY, FormatUint(compactVersion), version, true, false);
      nodes := nodes[localID := state'.(version := version, entries := state'.entries[COMPACT_KEY := entry])];
      gauges := AddEntry(gauges', state'.id, entry);
    }

    /** Reads the digest of every known node, in map order. */
    method Digest(ord: MapOrder) returns (digest: Digest)
      requires Valid()
      ensures digest == FullDigest(Abstract(), ord)
    {
      digest := [];
      var ids := Range(ord, nodes.Keys);
      for i := 0 to |ids|
        invariant digest == DigestOf(Abstract(), ids[..i])
      {
        var state := nodes[ids[i]];
        digest := digest + [DigestEntry(state.id, state.addr, state.version, state.left)];
      }
      assert ids[..|ids|] == ids;
    }

    method Delta(digest: Digest, fullDigest: bool, ord: MapOrder) returns (delta: Delta)
      requires StateWf(Abstract())
      ensures delta == DeltaFor(Abstract(), digest, fullDigest, ord)
    {
      var digestNodes;
      delta, digestNodes := KnownEntries(digest);
      if fullDigest {
        var unknown := FullEntries(Range(ord, nodes.Keys - digestNodes));
        delta := delta + unknown;
      }
    }

    method LocalDelta() returns (delta: Delta)
      requires StateWf(Abstract())
      ensures delta == OwnDelta(Abstract())
    {
      var state := nodes[localID];
      var entries := SortedEntries(state.entries, 0);
      delta := [DeltaEntry(state.id, state.addr, entries)];
    }

    /** What is newer than the digest says, and the nodes the digest mentions. */
    method KnownEntries(digest: Digest) returns (delta: Delta, digestNodes: set<string>)
      requires StateWf(Abstract())
      ensures delta == DigestDelta(Abstract(), digest) && digestNodes == DigestIDs(digest)
    {
      delta, digestNodes := [], {};
      for i := 0 to |digest|
        invariant digestNodes == DigestIDs(digest[..i])
        invariant delta + DigestDelta(Abstract(), digest[i..]) == DigestDelta(Abstract(), digest)
      {
        DigestIDsStep(digest, i);
        DigestDeltaStep(Abstract(), digest, i, delta);
        digestNodes := digestNodes + {digest[i].id};
        var part := NewerPart(digest[i]);
        delta := delta + part;
      }
      assert digest[..|digest|] == digest;
    }

    /** What is newer about the node than the digest entry says, if anything. */
    method NewerPart(d: DigestEntry) returns (part: Delta)
      requires StateWf(Abstract())
      ensures part == PartFor(Abstract(), d)
    {
      if d.id !in nodes {
        return [];
      }
      var state := nodes[d.id];
      var entries := SortedEntries(state.entries, d.version);
      if |entries| > 0 {
        return [DeltaEntry(state.id, state.addr, entries)];
      }
      return [];
    }

    /** Everything known about the nodes the digest does not mention. */
    method FullEntries(ids: seq<string>) returns (delta: Delta)
      requires StateWf(Abstract())
      requires forall id :: id in ids ==> id in nodes
      ensures delta == FullDelta(Abstract(), ids)
    {
      delta := [];
      for i := 0 to |ids|
        invariant delta == FullDelta(Abstract(), ids[..i])
      {
        var state := nodes[ids[i]];
        var entries := SortedEntries(state.entries, 0);
        delta := delta + [DeltaEntry(state.id, state.addr, entries)];
      }
      assert ids[..|ids|] == ids;
    }

    method ApplyDigest(sender: string, digest: Digest)
      requires Valid()
      modifies this
      ensures Valid() && Abstract() == GossipState.ApplyDigest(old(Abstract()), sender, digest)
    {
      for i := 0 to |digest|
        invariant Valid()
        invariant GossipState.ApplyDigest(Abstract(), sender, digest[i..])
               == GossipState.ApplyDigest(old(Abstract()), sender, digest)
      {
        var d := digest[i];
        assert digest[i..][1..] == digest[i + 1..];
        if d.id in nodes || d.left {
          continue;
        }
        var ignored := IsTombstoned(d.id, sender);
        if ignored {
          continue;
        }
        nodes := nodes[d.id := Fresh(d.id, d.addr)];
        trace := trace + [OnJoin(d.id)];
      }
    }

    /** Hearing from a removed node itself discards its tombstone. */
    method IsTombstoned(id: string, sender: string) returns (ignored: bool)
      modifies this`tombstones
      ensures ignored == Tombstoned(old(Abstract()), id, sender)
      ensures tombstones == if ignored then old(tombstones) else old(tombstones) - {id}
    {
      if id !in tombstones {
        return false;
      }
      if id == sender {
        tombstones := tombstones - {id};
        return false;
      }
      return true;
    }

    method ApplyDelta(sender: string, delta: Delta, now: int, ord: MapOrder)
      requires Valid() && KeyedState(Abstract())
      modifies this
      ensures Valid() && Abstract() == GossipState.ApplyDelta(old(Abstract()), sender, delta, now, ord)
    {
      for i := 0 to |delta|
        invariant Valid() && KeyedState(Abstract())
        invariant GossipState.ApplyDelta(Abstract(), sender, delta[i..], now, ord)
               == GossipState.ApplyDelta(old(Abstract()), sender, delta, now, ord)
      {
        assert delta[i..][1..] == delta[i + 1..];
        ApplyDeltaEntry(sender, delta[i], now, ord);
      }
    }

    method ApplyDeltaEntry(sender: string, de: DeltaEntry, now: int, ord: MapOrder)
      requires Valid() && KeyedState(Abstract())
      modifies this
      ensures Valid() && KeyedState(Abstract())
      ensures Abstract() == GossipState.ApplyDeltaEntry(old(Abstract()), sender, de, now, ord)
    {
      if de.id == localID {
        return;
      }
      if de.id !in nodes {
        var ignored := IsTombstoned(de.id, sender);
        if ignored {
          return;
        }
        nodes := nodes[de.id := Fresh(de.id, de.addr)];
        trace := trace + [OnJoin(de.id)];
      }
      assert Abstract() == Discovered(old(Abstract()), de.id, de.addr);
      var state, gauges', trace' := UpdateEntries(nodes[de.id], gauges, trace, de.entries, now, ord);
      nodes := nodes[de.id := state];
      gauges := gauges';
      trace := trace';
    }

    method RemoveExpiredAt(t: int, ord: MapOrder)
      requires Valid()
      requires nodes[localID].expiry == None
      modifies this
      ensures Valid() && Abstract() == GossipState.RemoveExpiredAt(old(Abstract()), t, ord)
    {
      ghost var before := Abstract();
      tombstones := map id | id in tombstones && !(t > tombstones[id] + NODE_TOMBSTONE_EXPIRY) :: tombstones[id];
      ghost var start := Abstract();
      var expired := set id | id in nodes && nodes[id].expiry.Some? && t > nodes[id].expiry.value;
      assert expired == ExpiredIDs(before, t);
      var ids := Range(ord, expired);
      for i := 0 to |ids|
        invariant Valid()
        invariant RemoveNodes(Abstract(), ids[i..], t) == RemoveNodes(start, ids, t)
      {
        assert ids[i] in expired;
        assert ids[i..][1..] == ids[i + 1..];
        nodes := nodes - {ids[i]};
        tombstones := tombstones[ids[i] := t];
        gauges := ClearNode(gauges, ids[i]);
        trace := trace + [OnExpired(ids[i])];
      }
    }

    method UpdateLiveness(suspected: set<string>, now: int, ord: MapOrder)
      requires Valid()
      modifies this
      ensures Valid() && Abstract() == GossipState.UpdateLiveness(old(Abstract()), suspected, now, ord)
    {
      var ids := Range(ord, nodes.Keys);
      for i := 0 to |ids|
        invariant nodes.Keys == old(nodes.Keys)
        invariant UpdateNodes(Abstract(), ids[i..], suspected, now)
               == UpdateNodes(old(Abstract()), ids, suspected, now)
      {
        assert ids[i..][1..] == ids[i + 1..];
        UpdateNode(ids[i], suspected, now);
      }
    }

    method UpdateNode(id: string, suspected: set<string>, now: int)
      requires id in nodes
      modifies this
      ensures nodes.Keys == old(nodes.Keys)
      ensures Abstract() == GossipState.UpdateNode(old(Abstract()), id, suspected, now)
    {
      var node := nodes[id];
      if id == localID || node.left {
        return;
      }
      if id in suspected {
        if !node.unreachable {
          nodes := nodes[id := node.(unreachable := true, expiry := Some(now + NODE_EXPIRY))];
          trace := trace + [OnUnreachable(id)];
        }
      } else {
        if node.unreachable {
          nodes := nodes[id := node.(unreachable := false, expiry := None)];
          trace := trace + [OnReachable(id)];
        }
      }
    }
  }

  /** What one digest entry adds to the delta. */
  ghost function PartFor(s: GossipState.State, d: DigestEntry): GossipState.Delta {
    if d.id !in s.nodes then []
    else
      var de := DeltaEntryOf(s.nodes[d.id], d.version);
      if |de.entries| > 0 then [de] else []
  }

  lemma DigestDeltaStep(s: GossipState.State, digest: GossipState.Digest, i: nat, delta: GossipState.Delta)
    requires i < |digest|
    ensures delta + DigestDelta(s, digest[i..]) == delta + PartFor(s, digest[i]) + DigestDelta(s, digest[i + 1..])
  {
    assert digest[i..][1..] == digest[i + 1..];
  }

  lemma DigestIDsStep(digest: Digest, i: nat)
    requires i < |digest|
    ensures DigestIDs(digest[..i + 1]) == DigestIDs(digest[..i]) + {digest[i].id}
  {
    forall id | id in DigestIDs(digest[..i]) + {digest[i].id} ensures id in DigestIDs(digest[..i + 1]) {
      var j :| 0 <= j <= i && digest[j].id == id;
      assert digest[..i + 1][j].id == id;
    }
    forall id | id in DigestIDs(digest[..i + 1]) ensures id in DigestIDs(digest[..i]) + {digest[i].id} {
      var j :| 0 <= j <= i && digest[..i + 1][j].id == id;
      if j < i { assert digest[..i][j].id == id; }
    }
  }
}
