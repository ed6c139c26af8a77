/** Compaction of the local node: what re-versioning keeps and what it discards. */
module Compaction {
  import opened Strconv
  import opened GossipState

  /** The keys that are not deleted, with what readers of the state see under them. */
  ghost function LiveContent(m: map<string, Entry>): map<string, (string, bool)> {
    map k | k in m && !m[k].deleted && k != COMPACT_KEY :: (m[k].value, m[k].internal)
  }

  /** The listed keys are distinct, and none of them is stored yet. */
  ghost predicate NewKeys(ns: NodeState, es: seq<Entry>) {
    && (forall i :: 0 <= i < |es| ==> es[i].key !in ns.entries)
    && (forall i, j :: 0 <= i < j < |es| ==> es[i].key != es[j].key)
  }

  /** The entry is in `r` under a version above `floor`, otherwise unchanged. */
  ghost predicate Carried(e: Entry, r: NodeState, floor: nat) {
    && e.key in r.entries
    && r.entries[e.key] == e.(version := r.entries[e.key].version)
    && r.entries[e.key].version > floor
  }

  function Next(ns: NodeState, e: Entry): NodeState {
    if Kept(e) then Bump(ns, e) else ns
  }

  /** Re-versioning only adds: nothing already stored changes, and versions only grow. */
  lemma {:induction false} ReversionFrame(ns: NodeState, es: seq<Entry>)
    requires NewKeys(ns, es)
    ensures var r := Reversion(ns, es);
      && r.version >= ns.version && r == ns.(version := r.version, entries := r.entries)
      && (forall k :: k in ns.entries ==> k in r.entries && r.entries[k] == ns.entries[k])
    decreases |es|
  {
    if es != [] {
      ReversionFrame(Next(ns, es[0]), es[1..]);
    }
  }

  lemma {:induction false} ReversionCarries(ns: NodeState, es: seq<Entry>, i: nat)
    requires NewKeys(ns, es) && i < |es| && Kept(es[i])
    ensures Carried(es[i], Reversion(ns, es), ns.version)
    decreases |es|
  {
    var ns' := Next(ns, es[0]);
    if i == 0 {
      ReversionFrame(ns', es[1..]);
    } else {
      ReversionCarries(ns', es[1..], i - 1);
    }
  }

  lemma {:induction false} ReversionOrder(ns: NodeState, es: seq<Entry>, i: nat, j: nat)
    requires NewKeys(ns, es) && i < j < |es| && Kept(es[i]) && Kept(es[j])
    ensures var r := Reversion(ns, es);
      && es[i].key in r.entries && es[j].key in r.entries
      && r.entries[es[i].key].version < r.entries[es[j].key].version
    decreases |es|
  {
    var ns' := Next(ns, es[0]);
    if i == 0 {
      ReversionFrame(ns', es[1..]);
      ReversionCarries(ns', es[1..], j - 1);
    } else {
      ReversionOrder(ns', es[1..], i - 1, j - 1);
    }
  }

  lemma {:induction false} ReversionWf(ns: NodeState, es: seq<Entry>)
    requires NodeWf(ns) && NewKeys(ns, es)
    ensures NodeWf(Reversion(ns, es))
    decreases |es|
  {
    if es != [] {
      BumpWf(ns, es[0]);
      ReversionWf(Next(ns, es[0]), es[1..]);
    }
  }

  /** Everything stored was there before, or comes from the list. */
  lemma {:induction false} ReversionOrigin(ns: NodeState, es: seq<Entry>, k: string) returns (i: nat)
    requires NewKeys(ns, es) && k in Reversion(ns, es).entries && k !in ns.entries
    ensures i < |es| && es[i].key == k && Kept(es[i])
    decreases |es|
  {
    if k in Next(ns, es[0]).entries {
      i := 0;
    } else {
      i := ReversionOrigin(Next(ns, es[0]), es[1..], k);
      i := i + 1;
    }
  }

  lemma BumpWf(ns: NodeState, e: Entry)
    requires NodeWf(ns)
    ensures NodeWf(Bump(ns, e))
  {
  }

  lemma CompactableNotEmpty(ns: NodeState, threshold: int)
    requires NodeWf(ns) && !CompactPanics(ns, threshold) && |DeletedKeys(ns.entries)| >= threshold
    ensures |Ascending(ns.entries, 0)| > 0
  {
    AscendingLists(ns.entries, 0);
    if threshold > 0 {
      var k :| k in DeletedKeys(ns.entries);
      assert ns.entries[k] in Ascending(ns.entries, 0);
    } else {
      var k :| k in ns.entries;
      assert ns.entries[k] in Ascending(ns.entries, 0);
    }
  }

  lemma ListedKeysNew(ns: NodeState)
    requires NodeWf(ns)
    ensures Lists(ns.entries, 0, Ascending(ns.entries, 0))
    ensures NewKeys(ns.(entries := map[]), Ascending(ns.entries, 0))
  {
    AscendingLists(ns.entries, 0);
  }

  /** Every entry is at most the last listed version. */
  lemma LastIsLargest(m: map<string, Entry>)
    requires EntriesWf(m) && forall k :: k in m ==> m[k].version > 0
    ensures forall k :: k in m ==> m[k].version <= LastVersion(Ascending(m, 0), 0)
    ensures m != map[] ==> exists k :: k in m && m[k].version == LastVersion(Ascending(m, 0), 0)
  {
    AscendingLists(m, 0);
    var es := Ascending(m, 0);
    forall k | k in m ensures m[k].version <= LastVersion(es, 0) {
      var i :| 0 <= i < |es| && es[i] == m[k];
      assert i < |es| - 1 ==> es[i].version < es[|es| - 1].version;
    }
    if m != map[] {
      var k :| k in m;
      assert m[k] in es;
      assert m[es[|es| - 1].key].version == LastVersion(es, 0);
    }
  }

  /** What is left after re-versioning, before the compact entry is added. */
  ghost function Carryover(ns: NodeState): NodeState {
    Reversion(ns.(entries := map[]), Ascending(ns.entries, 0))
  }

  lemma CarryoverWf(ns: NodeState)
    requires NodeWf(ns)
    ensures var r := Carryover(ns);
      NodeWf(r) && r.version >= ns.version && r == ns.(version := r.version, entries := r.entries)
  {
    ListedKeysNew(ns);
    ReversionFrame(ns.(entries := map[]), Ascending(ns.entries, 0));
    ReversionWf(ns.(entries := map[]), Ascending(ns.entries, 0));
  }

  lemma CompactedWf(ns: NodeState, threshold: int)
    requires NodeWf(ns) && !CompactPanics(ns, threshold)
    ensures NodeWf(Compacted(ns, threshold))
    ensures var r := Compacted(ns, threshold); r == ns.(version := r.version, entries := r.entries)
  {
    CarryoverWf(ns);
    BumpWf(Carryover(ns), CompactEntry(LastVersion(Ascending(ns.entries, 0), 0)));
  }

  lemma CarriedIn(ns: NodeState, k: string)
    requires NodeWf(ns) && k in ns.entries && Kept(ns.entries[k])
    ensures Carried(ns.entries[k], Carryover(ns), ns.version)
  {
    var es := Ascending(ns.entries, 0);
    ListedKeysNew(ns);
    assert ns.entries[k] in es;
    var i :| 0 <= i < |es| && es[i] == ns.entries[k];
    ReversionCarries(ns.(entries := map[]), es, i);
  }

  lemma CarriedFrom(ns: NodeState, k: string)
    requires NodeWf(ns) && k in Carryover(ns).entries
    ensures k in ns.entries && Kept(ns.entries[k])
  {
    ListedKeysNew(ns);
    var i := ReversionOrigin(ns.(entries := map[]), Ascending(ns.entries, 0), k);
  }

  lemma CarriedInOrder(ns: NodeState, j: string, k: string)
    requires NodeWf(ns) && j in ns.entries && k in ns.entries && Kept(ns.entries[j]) && Kept(ns.entries[k])
    requires ns.entries[j].version < ns.entries[k].version
    ensures var r := Carryover(ns);
      j in r.entries && k in r.entries && r.entries[j].version < r.entries[k].version
  {
    var es := Ascending(ns.entries, 0);
    ListedKeysNew(ns);
    assert ns.entries[j] in es && ns.entries[k] in es;
    var a :| 0 <= a < |es| && es[a] == ns.entries[j];
    var b :| 0 <= b < |es| && es[b] == ns.entries[k];
    ReversionOrder(ns.(entries := map[]), es, a, b);
  }

  ghost predicate SameOrder(m: map<string, Entry>, m': map<string, Entry>) {
    forall j, k ::
      (j in m && k in m && j in m' && k in m' && j != COMPACT_KEY && k != COMPACT_KEY)
      ==> m[j].version < m[k].version ==> m'[j].version < m'[k].version
  }

  /** The compacted node holds the kept entries, each under a new version, and the compact entry. */
  lemma CompactedEntries(ns: NodeState, threshold: int)
    requires NodeWf(ns) && !CompactPanics(ns, threshold)
    requires |DeletedKeys(ns.entries)| >= threshold
    ensures var m, r := ns.entries, Compacted(ns, threshold);
      && r.version > ns.version
      && (forall k :: k in r.entries && k != COMPACT_KEY ==> k in m && Kept(m[k]) && Carried(m[k], r, ns.version))
      && (forall k :: k in m && Kept(m[k]) && k != COMPACT_KEY ==> k in r.entries)
      && COMPACT_KEY in r.entries
      && r.entries[COMPACT_KEY] == CompactEntry(LastVersion(Ascending(m, 0), 0)).(version := r.version)
  {
    var m, mid, r := ns.entries, Carryover(ns), Compacted(ns, threshold);
    CarryoverWf(ns);
    forall k | k in r.entries && k != COMPACT_KEY
      ensures k in m && Kept(m[k]) && Carried(m[k], r, ns.version)
    {
      CarriedFrom(ns, k);
      CarriedIn(ns, k);
    }
    forall k | k in m && Kept(m[k]) && k != COMPACT_KEY ensures k in r.entries {
      CarriedIn(ns, k);
    }
  }

  lemma CompactedOrder(ns: NodeState, threshold: int)
    requires NodeWf(ns) && !CompactPanics(ns, threshold)
    requires |DeletedKeys(ns.entries)| >= threshold
    ensures SameOrder(ns.entries, Compacted(ns, threshold).entries)
  {
    var m, r := ns.entries, Compacted(ns, threshold);
    forall j, k | j in m && k in m && j in r.entries && k in r.entries && j != COMPACT_KEY && k != COMPACT_KEY
                  && m[j].version < m[k].version
      ensures r.entries[j].version < r.entries[k].version
    {
      CarriedFrom(ns, j);
      CarriedFrom(ns, k);
      CarriedInOrder(ns, j, k);
    }
  }

  lemma CompactedLive(ns: NodeState, threshold: int)
    requires NodeWf(ns) && !CompactPanics(ns, threshold)
    requires |DeletedKeys(ns.entries)| >= threshold
    ensures LiveContent(Compacted(ns, threshold).entries) == LiveContent(ns.entries)
  {
    var m, r := ns.entries, Compacted(ns, threshold);
    CompactedEntries(ns, threshold);
    assert forall k :: k in r.entries && k != COMPACT_KEY ==> m[k].key == k;
  }

  /** The version the compaction records, which is the newest one it replaced. */
  ghost function Cutoff(ns: NodeState): nat {
    LastVersion(Ascending(ns.entries, 0), 0)
  }

  lemma CompactedVersions(ns: NodeState, threshold: int)
    requires NodeWf(ns) && !CompactPanics(ns, threshold)
    requires |DeletedKeys(ns.entries)| >= threshold
    ensures forall k :: k in ns.entries ==> ns.entries[k].version <= Cutoff(ns)
    ensures exists k :: k in ns.entries && ns.entries[k].version == Cutoff(ns)
    ensures var r := Compacted(ns, threshold);
      && (forall k :: k in r.entries ==> ns.version < r.entries[k].version <= r.version)
      && COMPACT_KEY in r.entries && r.entries[COMPACT_KEY].version == r.version
      && CompactVersion(r.entries[COMPACT_KEY]) == if Cutoff(ns) <= MAX_UINT64 then Some(Cutoff(ns)) else None
  {
    CompactedWf(ns, threshold);
    CompactedEntries(ns, threshold);
    LastIsLargest(ns.entries);
    CompactableNotEmpty(ns, threshold);
    UintRoundTrip(Cutoff(ns));
  }

  /** A compaction that takes place keeps what readers see, drops every deleted entry, keeps the
      order of versions, and records a version that separates all old entries from all new ones. */
  lemma CompactionPreservesMeaning(ns: NodeState, threshold: int)
    requires NodeWf(ns) && !CompactPanics(ns, threshold)
    requires |DeletedKeys(ns.entries)| >= threshold
    ensures var r := Compacted(ns, threshold);
      && NodeWf(r) && r.left == ns.left && r.id == ns.id
      && LiveContent(r.entries) == LiveContent(ns.entries)
      && (forall k :: k in r.entries ==> !r.entries[k].deleted)
      && (forall k :: k in ns.entries ==> ns.entries[k].version <= Cutoff(ns) <= ns.version)
      && (forall k :: k in r.entries ==> ns.version < r.entries[k].version <= r.version)
      && SameOrder(ns.entries, r.entries)
      && COMPACT_KEY in r.entries && r.entries[COMPACT_KEY].version == r.version
      && CompactVersion(r.entries[COMPACT_KEY]) == if Cutoff(ns) <= MAX_UINT64 then Some(Cutoff(ns)) else None
  {
    CompactedWf(ns, threshold);
    CompactedEntries(ns, threshold);
    CompactedLive(ns, threshold);
    CompactedOrder(ns, threshold);
    CompactedVersions(ns, threshold);
  }
}
