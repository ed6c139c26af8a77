/** Repeated exchanges with an unchanged sender terminate with the receiver caught up. */
module Progress {
  import opened GossipState
  import opened Idempotence
  import opened Codec
  import opened Replica
  import opened Network

  /** How many entries of the sender's view are newer than what the receiver has. */
  ghost function MissingOf(s: State, r: State, id: string): nat {
    if id in s.nodes then |NewerKeys(s.nodes[id].entries, KnownVersion(r, id))| else 0
  }

  ghost function Missing(s: State, r: State, ids: seq<string>): nat {
    if ids == [] then 0 else MissingOf(s, r, ids[0]) + Missing(s, r, ids[1..])
  }

  /** The receiver can be brought up to date on these nodes: it knows them, and nobody knows more about the
      receiver than it does itself. */
  ghost predicate CanAsk(s: State, r: State, ids: seq<string>) {
    && StateWf(s) && r.localID in r.nodes
    && (forall i :: 0 <= i < |ids| ==> ids[i] in r.nodes && r.nodes[ids[i]].id == ids[i])
    && (r.localID in s.nodes ==> s.nodes[r.localID].version <= r.nodes[r.localID].version)
  }

  /** What the sender answers to the receiver's digest of these nodes. */
  ghost function Answer(s: State, r: State, ids: seq<string>): Delta
    requires forall i :: 0 <= i < |ids| ==> ids[i] in r.nodes
  {
    DigestDelta(s, DigestOf(r, ids))
  }

  // ---------- The answer ----------

  lemma NothingNewer(m: map<string, Entry>, from: nat)
    ensures Ascending(m, from) == [] <==> NewerKeys(m, from) == {}
  {
  }

  lemma DigestTail(r: State, ids: seq<string>)
    requires ids != [] && forall i :: 0 <= i < |ids| ==> ids[i] in r.nodes
    ensures DigestOf(r, ids)[0] == DigestEntryOf(r.nodes[ids[0]]) && DigestOf(r, ids)[1..] == DigestOf(r, ids[1..])
  {
  }

  /** Nothing missing, nothing sent; and the other way around. */
  lemma {:induction false} EmptyAnswerIff(s: State, r: State, ids: seq<string>)
    requires CanAsk(s, r, ids)
    ensures Answer(s, r, ids) == [] <==> Missing(s, r, ids) == 0
    decreases |ids|
  {
    if ids != [] {
      DigestTail(r, ids);
      EmptyAnswerIff(s, r, ids[1..]);
      if ids[0] in s.nodes { NothingNewer(s.nodes[ids[0]].entries, KnownVersion(r, ids[0])); }
    }
  }

  /** The answer starts with entries about a node in the digest that are newer than the receiver has. */
  lemma {:induction false} AnswerHead(s: State, r: State, ids: seq<string>) returns (i: nat)
    requires CanAsk(s, r, ids) && Answer(s, r, ids) != []
    ensures i < |ids| && ids[i] in s.nodes
    ensures Answer(s, r, ids)[0] == DeltaEntryOf(s.nodes[ids[i]], KnownVersion(r, ids[i]))
    ensures Answer(s, r, ids)[0].id == ids[i] && |Answer(s, r, ids)[0].entries| > 0
    decreases |ids|
  {
    DigestTail(r, ids);
    i := 0;
    if ids[0] !in s.nodes || |DeltaEntryOf(s.nodes[ids[0]], KnownVersion(r, ids[0])).entries| == 0 {
      i := AnswerHead(s, r, ids[1..]);
      i := i + 1;
    }
  }

  // ---------- Versions only grow ----------

  ghost predicate Ahead(r: State, r': State) {
    && r'.localID == r.localID && r.nodes.Keys <= r'.nodes.Keys
    && (forall id :: KnownVersion(r, id) <= KnownVersion(r', id))
    && (forall id :: id in r.nodes ==> r'.nodes[id].id == r.nodes[id].id)
  }

  lemma {:induction false} EntriesKeepID(w: Work, es: seq<Entry>, now: int, ord: MapOrder)
    ensures ApplyEntries(w, es, now, ord).ns.id == w.ns.id
    decreases |es|
  {
    if es != [] && !Ends(w.ns.version, es[0]) { EntriesKeepID(ApplyEntry(w, es[0], now, ord), es[1..], now, ord); }
  }

  lemma EntryAhead(r: State, sender: string, de: DeltaEntry, now: int, ord: MapOrder)
    ensures Ahead(r, ApplyDeltaEntry(r, sender, de, now, ord))
  {
    if !Discards(r, sender, de.id) {
      var w := WorkOf(Discovered(r, de.id, de.addr), de.id);
      EntriesNewest(w, de.entries, now, ord);
      EntriesKeepID(w, de.entries, now, ord);
    }
  }

  lemma {:induction false} DeltaAhead(r: State, sender: string, delta: Delta, now: int, ord: MapOrder)
    ensures Ahead(r, ApplyDelta(r, sender, delta, now, ord))
    decreases |delta|
  {
    if delta != [] {
      EntryAhead(r, sender, delta[0], now, ord);
      DeltaAhead(ApplyDeltaEntry(r, sender, delta[0], now, ord), sender, delta[1..], now, ord);
    }
  }

  /** The first entry is taken if it is newer. */
  lemma FirstTaken(r: State, sender: string, delta: Delta, now: int, ord: MapOrder)
    requires delta != [] && delta[0].entries != [] && delta[0].id in r.nodes && delta[0].id != r.localID
    ensures KnownVersion(ApplyDelta(r, sender, delta, now, ord), delta[0].id) >= delta[0].entries[0].version
  {
    var de := delta[0];
    var r1 := ApplyDeltaEntry(r, sender, de, now, ord);
    EntriesNewest(WorkOf(r, de.id), de.entries, now, ord);
    var v := r.nodes[de.id].version;
    NewestGrows(if de.entries[0].version <= v then v else de.entries[0].version, de.entries[1..]);
    DeltaAhead(r1, sender, delta[1..], now, ord);
  }

  lemma NewerSubset(m: map<string, Entry>, u: nat, v: nat)
    requires u <= v
    ensures NewerKeys(m, v) <= NewerKeys(m, u) && |NewerKeys(m, v)| <= |NewerKeys(m, u)|
    ensures (exists k :: k in m && u < m[k].version <= v) ==> |NewerKeys(m, v)| < |NewerKeys(m, u)|
  {
    var a, b := NewerKeys(m, v), NewerKeys(m, u);
    assert a <= b;
    assert |b| == |a| + |b - a| by { assert b == a + (b - a); }
    if exists k :: k in m && u < m[k].version <= v {
      var k :| k in m && u < m[k].version <= v;
      assert k in b - a;
    }
  }

  lemma {:induction false} MissingShrinks(s: State, r: State, r': State, ids: seq<string>, i: nat)
    requires forall id :: KnownVersion(r, id) <= KnownVersion(r', id)
    requires i <= |ids| && (i < |ids| ==> MissingOf(s, r', ids[i]) < MissingOf(s, r, ids[i]))
    ensures if i == |ids| then Missing(s, r', ids) <= Missing(s, r, ids) else Missing(s, r', ids) < Missing(s, r, ids)
    decreases |ids|
  {
    if ids != [] {
      assert KnownVersion(r, ids[0]) <= KnownVersion(r', ids[0]);
      if ids[0] in s.nodes { NewerSubset(s.nodes[ids[0]].entries, KnownVersion(r, ids[0]), KnownVersion(r', ids[0])); }
      MissingShrinks(s, r, r', ids[1..], if i == 0 then |ids| - 1 else i - 1);
    }
  }

  // ---------- One exchange ----------

  /** What arrives: a truncation of the answer that has room for its first entry. */
  ghost predicate Arrives(answer: Delta, sent: Delta) {
    Truncates(answer, sent) && (answer != [] ==> sent != [] && sent[0].entries != [])
  }

  /** An exchange with a non-empty answer strictly lowers what is missing. */
  lemma ExchangeProgress(s: State, r: State, ids: seq<string>, sent: Delta, now: int, ord: MapOrder)
    requires CanAsk(s, r, ids) && Arrives(Answer(s, r, ids), sent) && Answer(s, r, ids) != []
    ensures Missing(s, ApplyDelta(r, s.localID, sent, now, ord), ids) < Missing(s, r, ids)
  {
    var r' := ApplyDelta(r, s.localID, sent, now, ord);
    var i := AnswerHead(s, r, ids);
    var id, m, v := ids[i], s.nodes[ids[i]].entries, KnownVersion(r, ids[i]);
    AscendingLists(m, v);
    var e := sent[0].entries[0];
    assert e == Ascending(m, v)[0] && sent[0].id == id;
    assert m[e.key] == e && e.version > v;
    assert id != r.localID;
    FirstTaken(r, s.localID, sent, now, ord);
    DeltaAhead(r, s.localID, sent, now, ord);
    NewerSubset(m, v, KnownVersion(r', id));
    MissingShrinks(s, r, r', ids, i);
  }

  // ---------- Rounds ----------

  datatype Round = Round(sent: Delta, now: int, ord: MapOrder)

  ghost predicate Rounds(s: State, r: State, ids: seq<string>, rounds: seq<Round>, r': State)
    decreases |rounds|
  {
    if rounds == [] then r == r'
    else
      && CanAsk(s, r, ids) && Arrives(Answer(s, r, ids), rounds[0].sent)
      && Rounds(s, ApplyDelta(r, s.localID, rounds[0].sent, rounds[0].now, rounds[0].ord), ids, rounds[1..], r')
  }

  lemma {:induction false} LocalUntouched(r: State, sender: string, delta: Delta, now: int, ord: MapOrder)
    requires r.localID in r.nodes
    ensures var r' := ApplyDelta(r, sender, delta, now, ord);
      r'.localID == r.localID && r.localID in r'.nodes && r'.nodes[r.localID] == r.nodes[r.localID]
    decreases |delta|
  {
    if delta != [] { LocalUntouched(ApplyDeltaEntry(r, sender, delta[0], now, ord), sender, delta[1..], now, ord); }
  }

  lemma AskAgain(s: State, r: State, ids: seq<string>, sent: Delta, now: int, ord: MapOrder)
    requires CanAsk(s, r, ids)
    ensures CanAsk(s, ApplyDelta(r, s.localID, sent, now, ord), ids)
  {
    DeltaAhead(r, s.localID, sent, now, ord);
    LocalUntouched(r, s.localID, sent, now, ord);
  }

  /** As many exchanges as there are missing entries are enough, however little each one carries. */
  lemma {:induction false} RoundsCatchUp(s: State, r: State, ids: seq<string>, rounds: seq<Round>, r': State)
    requires CanAsk(s, r, ids) && Rounds(s, r, ids, rounds, r') && |rounds| >= Missing(s, r, ids)
    ensures CanAsk(s, r', ids) && Missing(s, r', ids) == 0 && Answer(s, r', ids) == []
    decreases |rounds|
  {
    if rounds != [] {
      var rd := rounds[0];
      var r1 := ApplyDelta(r, s.localID, rd.sent, rd.now, rd.ord);
      AskAgain(s, r, ids, rd.sent, rd.now, rd.ord);
      if Answer(s, r, ids) == [] {
        EmptyAnswerIff(s, r, ids);
        DeltaAhead(r, s.localID, rd.sent, rd.now, rd.ord);
        MissingShrinks(s, r, r1, ids, |ids|);
      } else {
        ExchangeProgress(s, r, ids, rd.sent, rd.now, rd.ord);
      }
      RoundsCatchUp(s, r1, ids, rounds[1..], r');
    } else {
      EmptyAnswerIff(s, r, ids);
    }
  }

  /** In any run of the network, a receiver that misses nothing of an owner's own state equals it. */
  lemma CaughtUpWithOwner(net: Net, r: string, o: string)
    requires NetInv(net) && r in net.nodes && o in net.nodes && o in net.nodes[r].nodes
    requires MissingOf(net.nodes[o], net.nodes[r], o) == 0
    ensures o in net.nodes[o].nodes
    ensures var view, own := net.nodes[r].nodes[o], net.nodes[o].nodes[o];
      view.version == own.version && view.entries == own.entries && view.left == own.left
  {
    assert NodeOk(net, r) && NodeOk(net, o) && OwnerAt(net, o) && ViewAt(net, net.nodes[r], o);
    var view, own := net.nodes[r].nodes[o], net.nodes[o].nodes[o];
    if own.version > 0 {
      var k :| k in own.entries && own.entries[k].version == own.version;
      assert k !in NewerKeys(own.entries, view.version);
    }
    EqualVersionEqualState(view, own, Hist(net, o));
  }
}
