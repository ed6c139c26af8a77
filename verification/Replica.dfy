/** One owner, one replica of its state, and one delta between them.

    `hist` is every entry the owner ever stored. The invariants say how far a replica at version v may
    lag behind the owner; they are kept by everything the owner does and by every delta that starts at or
    below the replica's version, from whichever node it comes. */
module Replica {
  import opened Strconv
  import opened GossipState
  import opened Compaction
  import opened Watching
  import opened Idempotence

  /** All entries are newer than `c`. */
  ghost predicate Above(m: map<string, Entry>, c: nat) {
    forall k :: k in m ==> m[k].version > c
  }

  ghost predicate HasNewest(ns: NodeState) {
    ns.version > 0 ==> exists k :: k in ns.entries && ns.entries[k].version == ns.version
  }

  /** The entry is current, or replaced by a newer one, or behind the last compaction. */
  ghost predicate Accounted(own: NodeState, h: Entry) {
    if h.key in own.entries then own.entries[h.key] == h || own.entries[h.key].version > h.version
    else
      && COMPACT_KEY in own.entries && CompactVersion(own.entries[COMPACT_KEY]).Some?
      && h.version <= CompactVersion(own.entries[COMPACT_KEY]).value
  }

  /** An entry as an owner writes it. */
  ghost predicate Written(own: NodeState, h: Entry) {
    && 0 < h.version <= own.version && FlagOk(h) && (h.internal ==> !h.deleted)
    && (IsLeft(h) ==> own.left)
    && (IsCompact(h) ==> CompactVersion(h).Some? && CompactVersion(h).value < h.version)
  }

  ghost predicate OwnerOk(own: NodeState, hist: set<Entry>) {
    && NodeWf(own) && HasNewest(own)
    && (own.left <==> LEFT_KEY in own.entries)
    && (forall k :: k in own.entries ==> own.entries[k] in hist)
    && (forall h :: h in hist ==> Written(own, h) && Accounted(own, h))
    && (forall h :: h in hist && IsCompact(h) ==> Above(own.entries, CompactVersion(h).value))
  }

  /** Everything current at the owner up to the replica's version is in the replica, unchanged. */
  ghost predicate NoGaps(view: NodeState, own: NodeState) {
    forall k :: k in own.entries && own.entries[k].version <= view.version ==>
      k in view.entries && view.entries[k] == own.entries[k]
  }

  ghost predicate ViewOk(view: NodeState, own: NodeState, hist: set<Entry>) {
    && NodeWf(view) && HasNewest(view) && view.version <= own.version
    && (forall k :: k in view.entries ==> view.entries[k] in hist)
    && NoGaps(view, own)
    && Discarded(view.entries)
    && (LEFT_KEY in view.entries ==> view.left) && (view.left ==> own.left)
  }

  /** Nothing is left of what the stored compact entry discards. */
  ghost predicate Discarded(m: map<string, Entry>) {
    COMPACT_KEY in m && CompactVersion(m[COMPACT_KEY]).Some? ==> Above(m, CompactVersion(m[COMPACT_KEY]).value)
  }

  /** Entries in flight, taken from a replica for a receiver at version `from`. */
  ghost predicate DeltaOk(es: seq<Entry>, from: nat, own: NodeState, hist: set<Entry>) {
    && Increasing(es, from)
    && (forall i :: 0 <= i < |es| ==> es[i] in hist)
    && (forall k :: k in own.entries && from < own.entries[k].version <= LastVersion(es, from) ==> own.entries[k] in es)
  }

  // ---------- The central facts ----------

  /** A replica at the owner's version is the owner's state. */
  lemma EqualVersionEqualState(view: NodeState, own: NodeState, hist: set<Entry>)
    requires OwnerOk(own, hist) && ViewOk(view, own, hist) && view.version == own.version
    ensures view.entries == own.entries && view.left == own.left
  {
    forall k | k in view.entries ensures k in own.entries && own.entries[k] == view.entries[k] {
      var h := view.entries[k];
      assert h in hist && Accounted(own, h);
    }
    assert forall k :: k in own.entries ==> k in view.entries && view.entries[k] == own.entries[k];
  }

  lemma OwnerIsView(own: NodeState, hist: set<Entry>)
    requires OwnerOk(own, hist)
    ensures ViewOk(own, own, hist)
  {
    if COMPACT_KEY in own.entries { assert own.entries[COMPACT_KEY] in hist; }
  }

  lemma FreshIsView(id: string, addr: string, own: NodeState, hist: set<Entry>)
    requires OwnerOk(own, hist)
    ensures ViewOk(Fresh(id, addr), own, hist)
  {
    forall k | k in own.entries ensures own.entries[k].version > 0 {}
  }

  // ---------- The owner moves on ----------

  /** The owner only adds entries above its old version, and only drops others. */
  ghost predicate Advances(own: NodeState, own': NodeState) {
    && own.version <= own'.version && (own.left ==> own'.left)
    && (forall k :: k in own'.entries && own'.entries[k].version <= own.version ==>
          k in own.entries && own.entries[k] == own'.entries[k])
  }

  lemma ViewSurvives(view: NodeState, own: NodeState, own': NodeState, hist: set<Entry>, hist': set<Entry>)
    requires ViewOk(view, own, hist) && Advances(own, own') && hist <= hist'
    ensures ViewOk(view, own', hist')
  {
  }

  lemma DeltaSurvives(es: seq<Entry>, from: nat, own: NodeState, own': NodeState, hist: set<Entry>, hist': set<Entry>)
    requires OwnerOk(own, hist) && DeltaOk(es, from, own, hist) && Advances(own, own') && hist <= hist'
    ensures DeltaOk(es, from, own', hist')
  {
    if es != [] { assert es[|es| - 1] in hist && Written(own, es[|es| - 1]); }
  }

  /** The owner stores one new entry. */
  lemma BumpOk(own: NodeState, e: Entry, hist: set<Entry>)
    requires OwnerOk(own, hist) && e.key != COMPACT_KEY && FlagOk(e) && (e.internal ==> !e.deleted)
    ensures var own' := Bump(own, e).(left := own.left || e.key == LEFT_KEY);
      OwnerOk(own', hist + own'.entries.Values) && Advances(own, own')
  {
    var own' := Bump(own, e).(left := own.left || e.key == LEFT_KEY);
    BumpWf(own, e);
    assert own'.entries[e.key].version == own'.version;
    BumpHistory(own, own', e.(version := own.version + 1), hist);
  }

  lemma BumpHistory(own: NodeState, own': NodeState, n: Entry, hist: set<Entry>)
    requires OwnerOk(own, hist) && n.key != COMPACT_KEY && (own.left ==> own'.left)
    requires own'.entries == own.entries[n.key := n] && n.version == own'.version == own.version + 1
    requires Written(own', n)
    ensures var hist' := hist + own'.entries.Values;
      && (forall h :: h in hist' ==> Written(own', h) && Accounted(own', h))
      && (forall h :: h in hist' && IsCompact(h) ==> Above(own'.entries, CompactVersion(h).value))
  {
    var hist' := hist + own'.entries.Values;
    forall h | h in hist' ensures h in hist || h == n {
      if h !in hist { var k :| k in own'.entries && own'.entries[k] == h; }
    }
    forall h | h in hist' ensures Written(own', h) && Accounted(own', h) {
      if h in hist { assert Written(own, h) && Accounted(own, h); }
    }
    forall h | h in hist' && IsCompact(h) ensures Above(own'.entries, CompactVersion(h).value) {
      assert Written(own, h) && Above(own.entries, CompactVersion(h).value);
    }
  }

  lemma UpsertOk(own: NodeState, key: string, value: string, hist: set<Entry>)
    requires OwnerOk(own, hist) && key != LEFT_KEY && key != COMPACT_KEY
    ensures var own' := Upserted(own, key, value);
      OwnerOk(own', hist + own'.entries.Values) && Advances(own, own')
  {
    if UpsertIgnored(own, key, value) {
      assert hist + own.entries.Values == hist;
    } else {
      BumpOk(own, Entry(key, value, 0, false, false), hist);
    }
  }

  lemma DeleteOk(own: NodeState, key: string, hist: set<Entry>)
    requires OwnerOk(own, hist) && key != LEFT_KEY && key != COMPACT_KEY
    ensures var own' := Deleted(own, key);
      OwnerOk(own', hist + own'.entries.Values) && Advances(own, own')
  {
    if DeleteIgnored(own, key) {
      assert hist + own.entries.Values == hist;
    } else {
      assert own.entries[key] in hist && Written(own, own.entries[key]);
      BumpOk(own, Entry(key, "", 0, false, true), hist);
    }
  }

  lemma LeaveOk(own: NodeState, hist: set<Entry>)
    requires OwnerOk(own, hist)
    ensures var own' := Departed(own);
      OwnerOk(own', hist + own'.entries.Values) && Advances(own, own')
  {
    if own.left {
      assert hist + own.entries.Values == hist;
    } else {
      BumpOk(own, Entry(LEFT_KEY, "", 0, true, false), hist);
    }
  }

  /** What compaction stores is as an owner writes it. */
  lemma CompactedWritten(own: NodeState, threshold: int, hist: set<Entry>, k: string)
    requires OwnerOk(own, hist) && !CompactPanics(own, threshold) && own.version <= MAX_UINT64
    requires |DeletedKeys(own.entries)| >= threshold && k in Compacted(own, threshold).entries
    ensures var own' := Compacted(own, threshold);
      Written(own', own'.entries[k]) && own.version < own'.entries[k].version
      && (IsCompact(own'.entries[k]) ==> CompactVersion(own'.entries[k]) == Some(own.version))
  {
    CompactedEntries(own, threshold);
    CompactedVersions(own, threshold);
    CutoffIsVersion(own, hist);
    CompactedWf(own, threshold);
    if k != COMPACT_KEY {
      assert own.entries[k] in hist && Written(own, own.entries[k]);
    }
  }

  /** The newest entry carries the owner's version, so compaction discards everything so far. */
  lemma CutoffIsVersion(own: NodeState, hist: set<Entry>)
    requires OwnerOk(own, hist) && own.entries != map[]
    ensures Cutoff(own) == own.version
  {
    LastIsLargest(own.entries);
    var k :| k in own.entries && own.entries[k].version == Cutoff(own);
    if own.version > 0 {
      var j :| j in own.entries && own.entries[j].version == own.version;
    }
  }

  lemma CompactOk(own: NodeState, threshold: int, hist: set<Entry>)
    requires OwnerOk(own, hist) && !CompactPanics(own, threshold) && own.version <= MAX_UINT64
    ensures var own' := Compacted(own, threshold);
      OwnerOk(own', hist + own'.entries.Values) && Advances(own, own')
  {
    var own' := Compacted(own, threshold);
    var hist' := hist + own'.entries.Values;
    if |DeletedKeys(own.entries)| < threshold {
      assert hist' == hist;
    } else {
      CompactedWf(own, threshold);
      CompactedEntries(own, threshold);
      CompactedVersions(own, threshold);
      forall k | k in own'.entries
        ensures Written(own', own'.entries[k]) && own.version < own'.entries[k].version
      {
        CompactedWritten(own, threshold, hist, k);
      }
      CompactedWritten(own, threshold, hist, COMPACT_KEY);
      CompactedLeft(own, threshold, hist);
      CompactedHistory(own, own', hist);
    }
  }

  lemma CompactedLeft(own: NodeState, threshold: int, hist: set<Entry>)
    requires OwnerOk(own, hist) && !CompactPanics(own, threshold)
    requires |DeletedKeys(own.entries)| >= threshold
    ensures var own' := Compacted(own, threshold); own'.left == own.left && (own'.left <==> LEFT_KEY in own'.entries)
  {
    CompactedWf(own, threshold);
    CompactedEntries(own, threshold);
    assert LEFT_KEY != COMPACT_KEY;
    if LEFT_KEY in own.entries {
      assert own.entries[LEFT_KEY] in hist && Written(own, own.entries[LEFT_KEY]);
      assert own.entries[LEFT_KEY].key == LEFT_KEY;
    }
  }

  lemma CompactedHistory(own: NodeState, own': NodeState, hist: set<Entry>)
    requires OwnerOk(own, hist) && own'.version > own.version && own'.left == own.left
    requires Keyed(own'.entries) && DistinctVersions(own'.entries)
    requires COMPACT_KEY in own'.entries && CompactVersion(own'.entries[COMPACT_KEY]) == Some(own.version)
    requires forall k :: k in own'.entries ==>
      Written(own', own'.entries[k]) && own.version < own'.entries[k].version
      && (IsCompact(own'.entries[k]) ==> CompactVersion(own'.entries[k]) == Some(own.version))
    ensures var hist' := hist + own'.entries.Values;
      && (forall h :: h in hist' ==> Written(own', h) && Accounted(own', h))
      && (forall h :: h in hist' && IsCompact(h) ==> Above(own'.entries, CompactVersion(h).value))
  {
    var hist' := hist + own'.entries.Values;
    forall h | h in hist' ensures Written(own', h) && Accounted(own', h) {
      if h in hist {
        assert Written(own, h);
      } else {
        var k :| k in own'.entries && own'.entries[k] == h;
      }
    }
    forall h | h in hist' && IsCompact(h) ensures Above(own'.entries, CompactVersion(h).value) {
      if h in hist {
        assert Written(own, h);
      } else {
        var k :| k in own'.entries && own'.entries[k] == h;
      }
    }
  }

  // ---------- A delta is made ----------

  /** Any prefix of what a replica has above `from` is a sound delta from `from`. */
  lemma PrefixIsDelta(view: NodeState, own: NodeState, hist: set<Entry>, from: nat, es: seq<Entry>)
    requires ViewOk(view, own, hist) && es <= Ascending(view.entries, from)
    ensures DeltaOk(es, from, own, hist)
  {
    var all := Ascending(view.entries, from);
    AscendingLists(view.entries, from);
    forall i | 0 <= i < |es| ensures es[i] in hist { assert es[i] == all[i]; }
    forall k | k in own.entries && from < own.entries[k].version <= LastVersion(es, from) ensures own.entries[k] in es {
      var last := es[|es| - 1];
      assert last == all[|es| - 1] && last.version <= view.version;
      assert own.entries[k] in all;
      var j :| 0 <= j < |all| && all[j] == own.entries[k];
      assert !(|es| - 1 < j);
      assert es[j] == all[j];
    }
  }

  // ---------- A delta arrives ----------

  lemma DeltaRest(es: seq<Entry>, from: nat, own: NodeState, hist: set<Entry>)
    requires DeltaOk(es, from, own, hist) && es != []
    ensures DeltaOk(es[1..], es[0].version, own, hist)
  {
    forall k | k in own.entries && es[0].version < own.entries[k].version <= LastVersion(es[1..], es[0].version)
      ensures own.entries[k] in es[1..]
    {
      assert own.entries[k] in es;
    }
  }

  /** Nothing current lies strictly between the receiver's version and the next entry of the delta. */
  lemma NextIsNext(es: seq<Entry>, from: nat, own: NodeState, hist: set<Entry>, k: string)
    requires DeltaOk(es, from, own, hist) && es != []
    requires k in own.entries && from < own.entries[k].version <= es[0].version
    ensures own.entries[k] == es[0]
  {
    assert es[0].version <= LastVersion(es, from);
    assert own.entries[k] in es;
  }

  /** A current entry the replica has, or is just getting, survives the update. */
  lemma KeepsCurrent(view: NodeState, own: NodeState, e: Entry, now: int, k: string)
    requires Accounted(own, e) && k in own.entries && own.entries[k].key == k && e.version > view.version
    requires own.entries[k] == e
      || (own.entries[k].version <= view.version && k in view.entries && view.entries[k] == own.entries[k])
    requires CompactVersion(e).Some? ==> own.entries[k].version > CompactVersion(e).value
    ensures var view' := Applied(view, e, now); k in view'.entries && view'.entries[k] == own.entries[k]
  {
  }

  lemma EntryNoGaps(view: NodeState, own: NodeState, hist: set<Entry>, es: seq<Entry>, from: nat, now: int)
    requires OwnerOk(own, hist) && NoGaps(view, own) && DeltaOk(es, from, own, hist)
    requires es != [] && from <= view.version < es[0].version
    ensures NoGaps(Applied(view, es[0], now), own)
  {
    var e, view' := es[0], Applied(view, es[0], now);
    assert e in hist && Accounted(own, e);
    assert CompactVersion(e).Some? ==> Above(own.entries, CompactVersion(e).value);
    forall k | k in own.entries && own.entries[k].version <= e.version
      ensures k in view'.entries && view'.entries[k] == own.entries[k]
    {
      if own.entries[k].version > view.version {
        NextIsNext(es, from, own, hist, k);
      }
      KeepsCurrent(view, own, e, now, k);
    }
  }

  /** After the update, what is left is above the compacted version, old or new. */
  lemma EntryAbove(view: NodeState, e: Entry, now: int)
    requires NodeWf(view) && e.version > view.version && FlagOk(e)
    requires forall k :: k in view.entries ==> FlagOk(view.entries[k])
    requires Discarded(view.entries)
    ensures Discarded(Applied(view, e, now).entries)
  {
    var m, m' := view.entries, Applied(view, e, now).entries;
    if e.key != COMPACT_KEY {
      assert m' == m[e.key := e];
      if COMPACT_KEY in m && CompactVersion(m[COMPACT_KEY]).Some? {
        assert m[COMPACT_KEY].version > CompactVersion(m[COMPACT_KEY]).value;
      }
    }
  }

  lemma EntryRecorded(view: NodeState, own: NodeState, hist: set<Entry>, e: Entry, now: int)
    requires NodeWf(view) && e.version > view.version && e in hist && Written(own, e)
    requires forall k :: k in view.entries ==> view.entries[k] in hist
    requires (LEFT_KEY in view.entries ==> view.left) && (view.left ==> own.left)
    ensures var view' := Applied(view, e, now);
      && NodeWf(view') && HasNewest(view') && view'.version <= own.version
      && (forall k :: k in view'.entries ==> view'.entries[k] in hist)
      && (LEFT_KEY in view'.entries ==> view'.left) && (view'.left ==> own.left)
  {
    AppliedWf(view, e, now);
    var view' := Applied(view, e, now);
    assert e.key in view'.entries && view'.entries[e.key] == e;
  }

  lemma EntryOk(view: NodeState, own: NodeState, hist: set<Entry>, es: seq<Entry>, from: nat, now: int)
    requires OwnerOk(own, hist) && ViewOk(view, own, hist) && DeltaOk(es, from, own, hist)
    requires es != [] && from <= view.version < es[0].version
    ensures ViewOk(Applied(view, es[0], now), own, hist) && !Ends(view.version, es[0])
  {
    assert es[0] in hist && Written(own, es[0]);
    EntryNoGaps(view, own, hist, es, from, now);
    EntryRecorded(view, own, hist, es[0], now);
    forall k | k in view.entries ensures FlagOk(view.entries[k]) {
      assert view.entries[k] in hist && Written(own, view.entries[k]);
    }
    EntryAbove(view, es[0], now);
  }

  /** The first entry, newer or not, leaves no gap and brings the replica to where the rest starts. */
  lemma FirstOk(w: Work, own: NodeState, hist: set<Entry>, es: seq<Entry>, from: nat, now: int, ord: MapOrder)
    requires OwnerOk(own, hist) && ViewOk(w.ns, own, hist) && DeltaOk(es, from, own, hist)
    requires es != [] && from <= w.ns.version
    ensures var ns := ApplyEntry(w, es[0], now, ord).ns;
      ViewOk(ns, own, hist) && es[0].version <= ns.version && w.ns.version <= ns.version
    ensures !Ends(w.ns.version, es[0])
  {
    if es[0].version > w.ns.version { EntryOk(w.ns, own, hist, es, from, now); }
  }

  /** A delta that starts at or below the replica's version leaves no gap. */
  lemma {:induction false} DeliverOk(w: Work, own: NodeState, hist: set<Entry>, es: seq<Entry>, from: nat, now: int, ord: MapOrder)
    requires OwnerOk(own, hist) && ViewOk(w.ns, own, hist) && DeltaOk(es, from, own, hist)
    requires from <= w.ns.version
    ensures ViewOk(ApplyEntries(w, es, now, ord).ns, own, hist)
    ensures ApplyEntries(w, es, now, ord).ns.version >= w.ns.version
    decreases |es|
  {
    if es != [] {
      DeltaRest(es, from, own, hist);
      FirstOk(w, own, hist, es, from, now, ord);
      DeliverOk(ApplyEntry(w, es[0], now, ord), own, hist, es[1..], es[0].version, now, ord);
    }
  }

  // ---------- A delta for a version the receiver no longer has ----------

  lemma {:induction false} EntriesOrigin(w: Work, es: seq<Entry>, now: int, ord: MapOrder, k: string)
    requires k in ApplyEntries(w, es, now, ord).ns.entries
    ensures var e := ApplyEntries(w, es, now, ord).ns.entries[k];
      e in es || (k in w.ns.entries && w.ns.entries[k] == e)
    decreases |es|
  {
    if es != [] {
      var w' := ApplyEntry(w, es[0], now, ord);
      if !Ends(w.ns.version, es[0]) { EntriesOrigin(w', es[1..], now, ord, k); }
    }
  }

  /** The owner has a current entry above `v` that a delta from `from` leaves out. */
  ghost predicate LeavesOut(own: NodeState, v: nat, from: nat) {
    exists k :: k in own.entries && v < own.entries[k].version <= from
  }

  lemma LateDeltaGap(w: Work, own: NodeState, hist: set<Entry>, es: seq<Entry>, from: nat, now: int, ord: MapOrder)
    requires OwnerOk(own, hist) && ViewOk(w.ns, own, hist) && DeltaOk(es, from, own, hist)
    requires w.ns.version < from && es != [] && LeavesOut(own, w.ns.version, from)
    ensures !NoGaps(ApplyEntries(w, es, now, ord).ns, own)
  {
    var k :| k in own.entries && w.ns.version < own.entries[k].version <= from;
    var after := ApplyEntries(w, es, now, ord).ns;
    LateDeltaReaches(w, own, hist, es, from, now, ord);
    assert forall i :: 0 <= i < |es| ==> es[i].version > from;
    if k in after.entries { EntriesOrigin(w, es, now, ord, k); }
  }

  /** The receiver dropped the owner after asking for entries above `from`, and is back at a lower version:
      the late delta leaves the replica without gaps exactly when the owner has nothing in between. */
  lemma LateDeltaGapFreeIff(w: Work, own: NodeState, hist: set<Entry>, es: seq<Entry>, from: nat, now: int, ord: MapOrder)
    requires OwnerOk(own, hist) && ViewOk(w.ns, own, hist) && DeltaOk(es, from, own, hist)
    requires w.ns.version < from && es != []
    ensures NoGaps(ApplyEntries(w, es, now, ord).ns, own) <==> !LeavesOut(own, w.ns.version, from)
  {
    if LeavesOut(own, w.ns.version, from) {
      LateDeltaGap(w, own, hist, es, from, now, ord);
    } else {
      TakenOk(w, own, hist, es, from, now, ord);
    }
  }

  /** A delta leaves no gap when the owner has nothing current between the replica's version and its start. */
  lemma TakenOk(w: Work, own: NodeState, hist: set<Entry>, es: seq<Entry>, from: nat, now: int, ord: MapOrder)
    requires OwnerOk(own, hist) && ViewOk(w.ns, own, hist) && DeltaOk(es, from, own, hist)
    requires !LeavesOut(own, w.ns.version, from)
    ensures ViewOk(ApplyEntries(w, es, now, ord).ns, own, hist)
    ensures ApplyEntries(w, es, now, ord).ns.version >= w.ns.version
  {
    var v := w.ns.version;
    if v < from { StartsLower(es, from, v, own, hist); }
    DeliverOk(w, own, hist, es, if v < from then v else from, now, ord);
  }

  lemma StartsLower(es: seq<Entry>, from: nat, v: nat, own: NodeState, hist: set<Entry>)
    requires DeltaOk(es, from, own, hist) && v < from && !LeavesOut(own, v, from)
    ensures DeltaOk(es, v, own, hist)
  {
    forall k | k in own.entries && v < own.entries[k].version <= LastVersion(es, v) ensures own.entries[k] in es {
      assert own.entries[k].version > from;
    }
  }

  lemma LateDeltaReaches(w: Work, own: NodeState, hist: set<Entry>, es: seq<Entry>, from: nat, now: int, ord: MapOrder)
    requires OwnerOk(own, hist) && DeltaOk(es, from, own, hist) && es != []
    ensures ApplyEntries(w, es, now, ord).ns.version > from
  {
    forall i | 0 <= i < |es| ensures Readable(es[i]) { assert es[i] in hist && Written(own, es[i]); }
    EntriesNewest(w, es, now, ord);
    ReadableCatchesUp(w.ns.version, es);
    assert es[0].version > from;
  }
}
