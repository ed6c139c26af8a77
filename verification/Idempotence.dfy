/** Deltas may arrive twice, late and out of order: exactly when does applying one again change nothing? */
module Idempotence {
  import opened Strconv
  import opened GossipState

  /** A compact entry whose value is a number. */
  predicate Readable(e: Entry) {
    IsCompact(e) ==> CompactVersion(e).Some?
  }

  ghost predicate ReadableDelta(delta: Delta) {
    forall i, j :: 0 <= i < |delta| && 0 <= j < |delta[i].entries| ==> Readable(delta[i].entries[j])
  }

  /** The version a view at version `v` ends up at: an unreadable compact entry ends the loop. */
  function Newest(v: nat, es: seq<Entry>): nat
    decreases |es|
  {
    if es == [] then v
    else if es[0].version <= v then Newest(v, es[1..])
    else if !Readable(es[0]) then es[0].version
    else Newest(es[0].version, es[1..])
  }

  lemma {:induction false} EntriesNewest(w: Work, es: seq<Entry>, now: int, ord: MapOrder)
    ensures ApplyEntries(w, es, now, ord).ns.version == Newest(w.ns.version, es) >= w.ns.version
    decreases |es|
  {
    if es != [] {
      var w' := ApplyEntry(w, es[0], now, ord);
      if !Ends(w.ns.version, es[0]) { EntriesNewest(w', es[1..], now, ord); }
    }
  }

  ghost predicate AllStale(v: nat, es: seq<Entry>) {
    forall i :: 0 <= i < |es| ==> es[i].version <= v
  }

  lemma {:induction false} StaleEntries(w: Work, es: seq<Entry>, now: int, ord: MapOrder)
    requires AllStale(w.ns.version, es)
    ensures ApplyEntries(w, es, now, ord) == w
    decreases |es|
  {
    if es != [] {
      assert es[0].version <= w.ns.version;
      StaleEntries(w, es[1..], now, ord);
    }
  }

  /** The first newer entry is always taken. */
  lemma {:induction false} NewerIsTaken(v: nat, es: seq<Entry>)
    requires !AllStale(v, es)
    ensures Newest(v, es) > v
    decreases |es|
  {
    if es[0].version <= v {
      assert !AllStale(v, es[1..]) by {
        var i :| 0 <= i < |es| && es[i].version > v;
        assert es[1..][i - 1] == es[i];
      }
      NewerIsTaken(v, es[1..]);
    } else if Readable(es[0]) {
      NewestGrows(es[0].version, es[1..]);
    }
  }

  lemma {:induction false} NewestGrows(v: nat, es: seq<Entry>)
    ensures Newest(v, es) >= v
    decreases |es|
  {
    if es != [] {
      NewestGrows(if es[0].version <= v then v else es[0].version, es[1..]);
    }
  }

  lemma {:induction false} ReadableCatchesUp(v: nat, es: seq<Entry>)
    requires forall i :: 0 <= i < |es| ==> Readable(es[i])
    ensures AllStale(Newest(v, es), es)
    decreases |es|
  {
    if es != [] {
      var v' := if es[0].version <= v then v else es[0].version;
      ReadableCatchesUp(v', es[1..]);
      NewestGrows(v', es[1..]);
    }
  }

  /** Entry `i` ends the loop of a view at version `v`: a compact entry that is not a number, newer than the
      view and than everything before it. */
  ghost predicate EndsAt(v: nat, es: seq<Entry>, i: int) {
    0 <= i < |es| && Ends(v, es[i]) && forall j :: 0 <= j < i ==> es[j].version < es[i].version
  }

  /** Something newer comes after it. */
  ghost predicate Hides(v: nat, es: seq<Entry>, i: int, j: int) {
    EndsAt(v, es, i) && i < j < |es| && es[i].version < es[j].version
  }

  ghost predicate Overlooks(v: nat, es: seq<Entry>) {
    exists i, j :: Hides(v, es, i, j)
  }

  lemma EndsAtTail(v: nat, es: seq<Entry>, i: nat)
    requires es != [] && !EndsAt(v, es, 0)
    ensures var v' := if es[0].version <= v then v else es[0].version;
      EndsAt(v, es, i + 1) <==> EndsAt(v', es[1..], i)
  {
    if i < |es[1..]| { assert es[1..][i] == es[i + 1]; }
    if EndsAt(v, es, i + 1) {
      assert es[0].version < es[i + 1].version;
      forall j | 0 <= j < i ensures es[1..][j].version < es[1..][i].version { assert es[j + 1] == es[1..][j]; }
    }
    var v' := if es[0].version <= v then v else es[0].version;
    if EndsAt(v', es[1..], i) {
      forall j | 0 <= j < i + 1 ensures es[j].version < es[i + 1].version {
        if j > 0 { assert es[1..][j - 1] == es[j]; }
      }
    }
  }

  lemma HidesTail(v: nat, es: seq<Entry>, i: nat, j: nat)
    requires es != [] && !EndsAt(v, es, 0)
    ensures var v' := if es[0].version <= v then v else es[0].version;
      Hides(v, es, i + 1, j + 1) <==> Hides(v', es[1..], i, j)
  {
    EndsAtTail(v, es, i);
    if i < j < |es[1..]| { assert es[1..][i] == es[i + 1] && es[1..][j] == es[j + 1]; }
  }

  lemma OverlooksTail(v: nat, es: seq<Entry>)
    requires es != [] && !EndsAt(v, es, 0)
    ensures var v' := if es[0].version <= v then v else es[0].version;
      Overlooks(v, es) <==> Overlooks(v', es[1..])
  {
    var v' := if es[0].version <= v then v else es[0].version;
    if Overlooks(v, es) {
      var i, j :| Hides(v, es, i, j);
      HidesTail(v, es, i - 1, j - 1);
    }
    if Overlooks(v', es[1..]) {
      var i, j :| Hides(v', es[1..], i, j);
      HidesTail(v, es, i, j);
    }
  }

  /** Everything is covered by the version the entries lead to, unless something newer comes after the end. */
  lemma {:induction false} CoveredIff(v: nat, es: seq<Entry>)
    ensures AllStale(Newest(v, es), es) <==> !Overlooks(v, es)
    decreases |es|
  {
    if es != [] {
      if EndsAt(v, es, 0) {
        CoveredAtEnd(v, es);
      } else {
        var v' := if es[0].version <= v then v else es[0].version;
        OverlooksTail(v, es);
        CoveredIff(v', es[1..]);
        NewestGrows(v', es[1..]);
        assert AllStale(Newest(v, es), es) <==> AllStale(Newest(v, es), es[1..]) by { StaleTail(Newest(v, es), es); }
      }
    }
  }

  lemma StaleTail(v: nat, es: seq<Entry>)
    requires es != [] && es[0].version <= v
    ensures AllStale(v, es) <==> AllStale(v, es[1..])
  {
    if AllStale(v, es[1..]) {
      forall i | 0 <= i < |es| ensures es[i].version <= v { if i > 0 { assert es[1..][i - 1] == es[i]; } }
    }
  }

  lemma CoveredAtEnd(v: nat, es: seq<Entry>)
    requires EndsAt(v, es, 0)
    ensures AllStale(es[0].version, es) <==> !Overlooks(v, es)
  {
    if !AllStale(es[0].version, es) {
      var j :| 0 <= j < |es| && es[j].version > es[0].version;
      assert Hides(v, es, 0, j);
    }
    if Overlooks(v, es) {
      var i, j :| Hides(v, es, i, j);
      assert es[0].version <= es[i].version;
      assert es[j].version > es[0].version;
    }
  }

  /** One node's entries are idempotent if and only if nothing newer follows a compact entry that ends the
      loop. */
  lemma IdempotentIff(w: Work, es: seq<Entry>, now: int, later: int, ord: MapOrder)
    ensures var once := ApplyEntries(w, es, now, ord);
      ApplyEntries(once, es, later, ord) == once <==> !Overlooks(w.ns.version, es)
  {
    var once := ApplyEntries(w, es, now, ord);
    EntriesNewest(w, es, now, ord);
    EntriesNewest(once, es, later, ord);
    CoveredIff(w.ns.version, es);
    if AllStale(once.ns.version, es) {
      StaleEntries(once, es, later, ord);
    } else {
      NewerIsTaken(once.ns.version, es);
    }
  }

  /** The entries behind an unreadable compact entry are skipped the first time and taken the second. */
  lemma UnreadableCompactIsNotIdempotent(ord: MapOrder)
    ensures var w := Work(Fresh("n", ""), map[], []);
      var es := [Entry(COMPACT_KEY, "x", 1, true, false), Entry("k", "v", 2, false, false)];
      var once := ApplyEntries(w, es, 0, ord);
      "k" !in once.ns.entries && "k" in ApplyEntries(once, es, 0, ord).ns.entries
  {
    var w := Work(Fresh("n", ""), map[], []);
    var es := [Entry(COMPACT_KEY, "x", 1, true, false), Entry("k", "v", 2, false, false)];
    assert !IsDigit("x"[0]);
    var once := ApplyEntries(w, es, 0, ord);
    assert once.ns.version == 1 && once.ns.entries == map[COMPACT_KEY := es[0]];
    assert ApplyEntries(once, es, 0, ord) == ApplyEntries(once, es[1..], 0, ord);
    assert es[1..] == [es[1]] && es[1..][1..] == [];
    assert ApplyEntries(once, es[1..], 0, ord) == ApplyEntry(once, es[1], 0, ord);
    assert COMPACT_KEY[0] == '_';
  }

  // ---------- Whole deltas ----------

  /** The delta entry has nothing more to tell this node. */
  ghost predicate Absorbed(s: State, sender: string, de: DeltaEntry) {
    Discards(s, sender, de.id) || (de.id in s.nodes && AllStale(s.nodes[de.id].version, de.entries))
  }

  lemma AbsorbedIsNoop(s: State, sender: string, de: DeltaEntry, now: int, ord: MapOrder)
    requires Absorbed(s, sender, de)
    ensures ApplyDeltaEntry(s, sender, de, now, ord) == s
  {
    if !Discards(s, sender, de.id) {
      StaleEntries(WorkOf(s, de.id), de.entries, now, ord);
      assert s.nodes[de.id := s.nodes[de.id]] == s.nodes;
    }
  }

  /** The version a view at version `v` of node `id` ends up at. */
  function Reached(v: nat, delta: Delta, id: string): nat
    decreases |delta|
  {
    if delta == [] then v
    else Reached(if delta[0].id == id then Newest(v, delta[0].entries) else v, delta[1..], id)
  }

  lemma {:induction false} ReachedGrows(v: nat, delta: Delta, id: string)
    ensures Reached(v, delta, id) >= v
    decreases |delta|
  {
    if delta != [] {
      NewestGrows(v, delta[0].entries);
      ReachedGrows(if delta[0].id == id then Newest(v, delta[0].entries) else v, delta[1..], id);
    }
  }

  lemma {:induction false} DeltaReaches(s: State, sender: string, delta: Delta, now: int, ord: MapOrder, id: string)
    ensures var s' := ApplyDelta(s, sender, delta, now, ord);
      && (Discards(s', sender, id) <==> Discards(s, sender, id))
      && (id in s.nodes ==> id in s'.nodes)
      && (!Discards(s, sender, id) ==> KnownVersion(s', id) == Reached(KnownVersion(s, id), delta, id))
      && (!Discards(s, sender, id) && (exists i :: 0 <= i < |delta| && delta[i].id == id) ==> id in s'.nodes)
    decreases |delta|
  {
    if delta != [] {
      var de, s1 := delta[0], ApplyDeltaEntry(s, sender, delta[0], now, ord);
      if !Discards(s, sender, de.id) {
        EntriesNewest(WorkOf(Discovered(s, de.id, de.addr), de.id), de.entries, now, ord);
      }
      DeltaReaches(s1, sender, delta[1..], now, ord, id);
      if exists i :: 0 <= i < |delta| && delta[i].id == id {
        var i :| 0 <= i < |delta| && delta[i].id == id;
        if i > 0 { assert delta[1..][i - 1].id == id; }
      }
    }
  }

  lemma {:induction false} AbsorbedDelta(s: State, sender: string, delta: Delta, now: int, ord: MapOrder)
    requires forall i :: 0 <= i < |delta| ==> Absorbed(s, sender, delta[i])
    ensures ApplyDelta(s, sender, delta, now, ord) == s
    decreases |delta|
  {
    if delta != [] {
      AbsorbedIsNoop(s, sender, delta[0], now, ord);
      AbsorbedDelta(s, sender, delta[1..], now, ord);
    }
  }

  /** The part of the delta is taken, and something in it is newer than where the delta leads. */
  ghost predicate Behind(s: State, sender: string, delta: Delta, i: nat)
    requires i < |delta|
  {
    var id := delta[i].id;
    !Discards(s, sender, id) && !AllStale(Reached(KnownVersion(s, id), delta, id), delta[i].entries)
  }

  lemma AbsorbedIff(s: State, sender: string, delta: Delta, now: int, ord: MapOrder, i: nat)
    requires i < |delta|
    ensures Absorbed(ApplyDelta(s, sender, delta, now, ord), sender, delta[i]) <==> !Behind(s, sender, delta, i)
  {
    DeltaReaches(s, sender, delta, now, ord, delta[i].id);
  }

  /** Applying a part that has something new to tell raises a version. */
  lemma {:induction false} NewsIsTaken(s: State, sender: string, delta: Delta, now: int, ord: MapOrder, i: nat)
    requires i < |delta| && !Absorbed(s, sender, delta[i]) && delta[i].id in s.nodes
    ensures KnownVersion(ApplyDelta(s, sender, delta, now, ord), delta[i].id) > KnownVersion(s, delta[i].id)
    decreases |delta|
  {
    DeltaReaches(s, sender, delta, now, ord, delta[i].id);
    NewsReached(KnownVersion(s, delta[i].id), delta, i);
  }

  lemma {:induction false} NewsReached(v: nat, delta: Delta, i: nat)
    requires i < |delta| && !AllStale(v, delta[i].entries)
    ensures Reached(v, delta, delta[i].id) > v
    decreases |delta|
  {
    var id := delta[i].id;
    var v' := if delta[0].id == id then Newest(v, delta[0].entries) else v;
    NewestGrows(v, delta[0].entries);
    ReachedGrows(v', delta[1..], id);
    if i == 0 {
      NewerIsTaken(v, delta[0].entries);
    } else if v' == v {
      assert delta[1..][i - 1] == delta[i];
      NewsReached(v, delta[1..], i - 1);
    }
  }

  /** Any delta, sorted or not, readable or not: applying it again at any later time changes nothing, no entry,
      no version, no gauge, no call to the watcher, if and only if no part of it that is taken falls behind. */
  lemma DeltaIdempotentIff(s: State, sender: string, delta: Delta, now: int, ord: MapOrder, later: int, ord': MapOrder)
    ensures var once := ApplyDelta(s, sender, delta, now, ord);
      ApplyDelta(once, sender, delta, later, ord') == once <==> forall i | 0 <= i < |delta| :: !Behind(s, sender, delta, i)
  {
    var once := ApplyDelta(s, sender, delta, now, ord);
    forall i | 0 <= i < |delta|
      ensures Absorbed(once, sender, delta[i]) <==> !Behind(s, sender, delta, i)
    {
      AbsorbedIff(s, sender, delta, now, ord, i);
    }
    if forall i | 0 <= i < |delta| :: !Behind(s, sender, delta, i) {
      AbsorbedDelta(once, sender, delta, later, ord');
    } else {
      var i :| 0 <= i < |delta| && Behind(s, sender, delta, i);
      DeltaReaches(s, sender, delta, now, ord, delta[i].id);
      NewsIsTaken(once, sender, delta, later, ord', i);
    }
  }

  lemma {:induction false} ReachedByPart(v: nat, delta: Delta, i: nat)
    requires i < |delta| && forall j, k :: 0 <= j < k < |delta| ==> delta[j].id != delta[k].id
    ensures Reached(v, delta, delta[i].id) == Newest(v, delta[i].entries)
    decreases |delta|
  {
    if i == 0 {
      ReachedElsewhere(Newest(v, delta[0].entries), delta[1..], delta[0].id);
    } else {
      assert delta[1..][i - 1] == delta[i];
      ReachedByPart(v, delta[1..], i - 1);
    }
  }

  lemma {:induction false} ReachedElsewhere(v: nat, delta: Delta, id: string)
    requires forall j :: 0 <= j < |delta| ==> delta[j].id != id
    ensures Reached(v, delta, id) == v
    decreases |delta|
  {
    if delta != [] { ReachedElsewhere(v, delta[1..], id); }
  }

  /** For a delta that mentions no node twice, as every digest with distinct nodes gets: it is idempotent if
      and only if no part that is taken has something newer after a compact entry that ends the loop. */
  lemma DistinctIdempotentIff(s: State, sender: string, delta: Delta, now: int, ord: MapOrder, later: int, ord': MapOrder)
    requires forall j, k :: 0 <= j < k < |delta| ==> delta[j].id != delta[k].id
    ensures var once := ApplyDelta(s, sender, delta, now, ord);
      ApplyDelta(once, sender, delta, later, ord') == once <==>
      forall i | 0 <= i < |delta| ::
        Discards(s, sender, delta[i].id) || !Overlooks(KnownVersion(s, delta[i].id), delta[i].entries)
  {
    DeltaIdempotentIff(s, sender, delta, now, ord, later, ord');
    forall i | 0 <= i < |delta|
      ensures Behind(s, sender, delta, i) <==>
        !Discards(s, sender, delta[i].id) && Overlooks(KnownVersion(s, delta[i].id), delta[i].entries)
    {
      ReachedByPart(KnownVersion(s, delta[i].id), delta, i);
      CoveredIff(KnownVersion(s, delta[i].id), delta[i].entries);
    }
  }

  lemma {:induction false} ReadableReached(v: nat, delta: Delta, i: nat)
    requires i < |delta| && ReadableDelta(delta)
    ensures AllStale(Reached(v, delta, delta[i].id), delta[i].entries)
    decreases |delta|
  {
    var id := delta[i].id;
    var v' := if delta[0].id == id then Newest(v, delta[0].entries) else v;
    ReachedGrows(v', delta[1..], id);
    if i == 0 {
      ReadableCatchesUp(v, delta[0].entries);
    } else {
      assert forall j :: 0 < j < |delta| ==> delta[1..][j - 1] == delta[j];
      ReadableReached(v', delta[1..], i - 1);
    }
  }

  /** In particular, a delta whose compact entries are numbers changes nothing when it arrives again. */
  lemma DeltaIdempotent(s: State, sender: string, delta: Delta, now: int, ord: MapOrder, later: int, ord': MapOrder)
    requires ReadableDelta(delta)
    ensures var once := ApplyDelta(s, sender, delta, now, ord);
      ApplyDelta(once, sender, delta, later, ord') == once
  {
    DeltaIdempotentIff(s, sender, delta, now, ord, later, ord');
    forall i | 0 <= i < |delta| ensures !Behind(s, sender, delta, i) {
      ReadableReached(KnownVersion(s, delta[i].id), delta, i);
    }
  }
}
