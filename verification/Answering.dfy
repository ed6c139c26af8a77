/** What the answer to a digest holds: what is newer about the nodes it mentions and, if it is the full digest of
    its sender, everything about the nodes it does not mention. */
module Answering {
  import opened GossipState

  ghost function FullAnswer(s: State, digest: Digest, ord: MapOrder): Delta {
    DeltaFor(s, digest, true, ord)
  }

  // ---------- Nodes the digest mentions ----------

  /** The node holds something newer than the digest entry. */
  ghost predicate Lacking(s: State, d: DigestEntry) {
    d.id in s.nodes && exists k :: k in s.nodes[d.id].entries && s.nodes[d.id].entries[k].version > d.version
  }

  /** Everything newer than the digest entry, oldest first. */
  ghost predicate AnswersEntry(s: State, de: DeltaEntry, d: DigestEntry) {
    && d.id in s.nodes && de.id == d.id && de.addr == s.nodes[d.id].addr
    && Lists(s.nodes[d.id].entries, d.version, de.entries)
  }

  /** Positions in the digest, in order. */
  predicate Picks(js: seq<nat>, size: nat) {
    (forall i :: 0 <= i < |js| ==> js[i] < size) && (forall i, j :: 0 <= i < j < |js| ==> js[i] < js[j])
  }

  ghost predicate AnswersAt(s: State, digest: Digest, delta: Delta, js: seq<nat>, i: nat) {
    i < |js| && i < |delta| && js[i] < |digest| && AnswersEntry(s, delta[i], digest[js[i]])
  }

  lemma HeadAnswered(s: State, d: DigestEntry)
    requires StateWf(s) && d.id in s.nodes
    ensures var de := DeltaEntryOf(s.nodes[d.id], d.version);
      AnswersEntry(s, de, d) && (de.entries != [] <==> Lacking(s, d))
  {
    AscendingLists(s.nodes[d.id].entries, d.version);
    var es := Ascending(s.nodes[d.id].entries, d.version);
    if es != [] { assert es[0].key in s.nodes[d.id].entries; }
  }

  /** The positions of a sequence with one more in front. */
  function Up(js: seq<nat>): seq<nat> {
    seq(|js|, i requires 0 <= i < |js| => js[i] + 1)
  }

  lemma UpHas(js: seq<nat>, j: int)
    ensures j in Up(js) <==> j > 0 && j - 1 in js
  {
    if j > 0 && j - 1 in js {
      var i :| 0 <= i < |js| && js[i] == j - 1;
      assert Up(js)[i] == j;
    }
  }

  lemma UpPicks(js: seq<nat>, size: nat)
    requires Picks(js, size)
    ensures Picks(Up(js), size + 1) && Picks([0] + Up(js), size + 1)
  {
    forall i, j | 0 <= i < j < |[0] + Up(js)| ensures ([0] + Up(js))[i] < ([0] + Up(js))[j] {
      if i > 0 { assert js[i - 1] < js[j - 1]; }
    }
  }

  ghost predicate Covers(s: State, digest: Digest, js: seq<nat>) {
    forall j :: 0 <= j < |digest| ==> (j in js <==> Lacking(s, digest[j]))
  }

  lemma CoversNext(s: State, digest: Digest, rest: seq<nat>, js: seq<nat>)
    requires digest != [] && Covers(s, digest[1..], rest)
    requires js == (if Lacking(s, digest[0]) then [0] else []) + Up(rest)
    ensures Covers(s, digest, js)
  {
    forall j | 0 <= j < |digest| ensures j in js <==> Lacking(s, digest[j]) {
      UpHas(rest, j);
      if j > 0 { assert digest[1..][j - 1] == digest[j]; }
    }
  }

  lemma AnswersNext(s: State, digest: Digest, rest: seq<nat>, delta: Delta, i: nat)
    requires digest != [] && i < |rest| && AnswersAt(s, digest[1..], delta, rest, i)
    ensures AnswersAt(s, digest, delta, Up(rest), i)
    ensures forall de :: AnswersAt(s, digest, [de] + delta, [0] + Up(rest), i + 1)
  {
    assert digest[1..][rest[i]] == digest[rest[i] + 1];
  }

  lemma {:induction false} MentionedAnswered(s: State, digest: Digest) returns (js: seq<nat>)
    requires StateWf(s)
    ensures Picks(js, |digest|) && |js| == |DigestDelta(s, digest)| && Covers(s, digest, js)
    ensures forall i :: 0 <= i < |js| ==> AnswersAt(s, digest, DigestDelta(s, digest), js, i)
    decreases |digest|
  {
    js := [];
    if digest != [] {
      var rest := MentionedAnswered(s, digest[1..]);
      var d, d1 := DigestDelta(s, digest), DigestDelta(s, digest[1..]);
      UpPicks(rest, |digest| - 1);
      forall i | 0 <= i < |rest|
        ensures AnswersAt(s, digest, d1, Up(rest), i)
        ensures forall de :: AnswersAt(s, digest, [de] + d1, [0] + Up(rest), i + 1)
      {
        assert AnswersAt(s, digest[1..], d1, rest, i);
        AnswersNext(s, digest, rest, d1, i);
      }
      if digest[0].id in s.nodes { HeadAnswered(s, digest[0]); }
      if Lacking(s, digest[0]) {
        js := [0] + Up(rest);
        assert d == [DeltaEntryOf(s.nodes[digest[0].id], digest[0].version)] + d1;
        forall i | 0 <= i < |js| ensures AnswersAt(s, digest, d, js, i) {
          if i > 0 { assert AnswersAt(s, digest, d1, Up(rest), i - 1); }
        }
      } else {
        js := Up(rest);
        assert [] + Up(rest) == js && d == d1;
      }
      CoversNext(s, digest, rest, js);
    }
  }

  // ---------- Nodes it does not mention ----------

  /** The part about the node, and the only one. */
  ghost predicate OnlyPart(delta: Delta, id: string, i: nat) {
    i < |delta| && delta[i].id == id && forall j :: 0 <= j < |delta| && delta[j].id == id ==> j == i
  }

  lemma MentionedIn(digest: Digest, j: nat)
    requires j < |digest|
    ensures digest[j].id in DigestIDs(digest)
  {
  }

  /** Every part is about a node the answerer knows, and without the full digest about one that is mentioned. */
  lemma {:induction false} OnlyMentioned(s: State, digest: Digest, i: nat)
    requires (forall id :: id in s.nodes ==> s.nodes[id].id == id) && i < |DigestDelta(s, digest)|
    ensures DigestDelta(s, digest)[i].id in s.nodes && DigestDelta(s, digest)[i].id in DigestIDs(digest)
    decreases |digest|
  {
    var d, rest := DigestDelta(s, digest), DigestDelta(s, digest[1..]);
    var k := i - (|d| - |rest|);
    MentionedIn(digest, 0);
    if k >= 0 {
      OnlyMentioned(s, digest[1..], k);
      var j :| 0 <= j < |digest[1..]| && digest[1..][j].id == rest[k].id;
      MentionedIn(digest, j + 1);
    }
  }

  lemma FullPart(s: State, digest: Digest, ord: MapOrder, k: nat)
    requires (forall id :: id in s.nodes ==> s.nodes[id].id == id) && k < |Range(ord, s.nodes.Keys - DigestIDs(digest))|
    ensures var id, i := Range(ord, s.nodes.Keys - DigestIDs(digest))[k], |DigestDelta(s, digest)| + k;
      && id in s.nodes && id !in DigestIDs(digest) && i < |FullAnswer(s, digest, ord)|
      && FullAnswer(s, digest, ord)[i] == DeltaEntryOf(s.nodes[id], 0) && FullAnswer(s, digest, ord)[i].id == id
  {
    var ids := Range(ord, s.nodes.Keys - DigestIDs(digest));
    assert ids[k] in ids;
    assert FullAnswer(s, digest, ord)[|DigestDelta(s, digest)| + k] == FullDelta(s, ids)[k];
  }

  lemma PartsKnown(s: State, digest: Digest, ord: MapOrder, i: nat)
    requires (forall id :: id in s.nodes ==> s.nodes[id].id == id) && i < |FullAnswer(s, digest, ord)|
    ensures FullAnswer(s, digest, ord)[i].id in s.nodes
  {
    var known := |DigestDelta(s, digest)|;
    if i < known { OnlyMentioned(s, digest, i); } else { FullPart(s, digest, ord, i - known); }
  }

  /** A known node outside the full digest has exactly one part: everything about it. */
  lemma UnmentionedPart(s: State, digest: Digest, ord: MapOrder, id: string) returns (i: nat)
    requires (forall j :: j in s.nodes ==> s.nodes[j].id == j) && id in s.nodes && id !in DigestIDs(digest)
    ensures OnlyPart(FullAnswer(s, digest, ord), id, i)
    ensures FullAnswer(s, digest, ord)[i] == DeltaEntryOf(s.nodes[id], 0)
  {
    var ids, known := Range(ord, s.nodes.Keys - DigestIDs(digest)), DigestDelta(s, digest);
    assert id in s.nodes.Keys - DigestIDs(digest) && id in ids;
    var k :| 0 <= k < |ids| && ids[k] == id;
    FullPart(s, digest, ord, k);
    i := |known| + k;
    var d := FullAnswer(s, digest, ord);
    forall j | 0 <= j < |d| && d[j].id == id ensures j == i {
      if j < |known| {
        OnlyMentioned(s, digest, j);
      } else {
        FullPart(s, digest, ord, j - |known|);
      }
    }
  }

  // ---------- The whole answer ----------

  /** Each digest entry behind what the node knows is answered, in digest order, with everything newer and
      nothing else. */
  lemma MentionedParts(s: State, digest: Digest, fullDigest: bool, ord: MapOrder) returns (js: seq<nat>)
    requires StateWf(s)
    ensures var d := DeltaFor(s, digest, fullDigest, ord);
      && Picks(js, |digest|) && |js| <= |d|
      && Covers(s, digest, js)
      && (forall i :: 0 <= i < |js| ==> AnswersAt(s, digest, d, js, i))
      && (forall i :: |js| <= i < |d| ==> fullDigest && d[i].id in s.nodes && d[i].id !in DigestIDs(digest))
  {
    js := MentionedAnswered(s, digest);
    var d, known := DeltaFor(s, digest, fullDigest, ord), DigestDelta(s, digest);
    forall i | 0 <= i < |js| ensures AnswersAt(s, digest, d, js, i) { assert AnswersAt(s, digest, known, js, i); }
    if fullDigest {
      forall i | |js| <= i < |d| ensures d[i].id in s.nodes && d[i].id !in DigestIDs(digest) {
        FullPart(s, digest, ord, i - |js|);
      }
    }
  }

  /** The answer to a full digest has exactly one part about each known node that the digest does not mention, with
      its address and all its entries, oldest first. */
  lemma UnmentionedParts(s: State, digest: Digest, ord: MapOrder, id: string) returns (i: nat)
    requires StateWf(s) && id in s.nodes && id !in DigestIDs(digest)
    ensures var d := DeltaFor(s, digest, true, ord);
      && OnlyPart(d, id, i) && d[i].addr == s.nodes[id].addr
      && Lists(s.nodes[id].entries, 0, d[i].entries)
  {
    i := UnmentionedPart(s, digest, ord, id);
    AscendingLists(s.nodes[id].entries, 0);
  }

  // ---------- Taking a part ----------

  lemma StillTaken(r: State, sender: string, de: DeltaEntry, now: int, ord: MapOrder, id: string)
    requires !Discards(r, sender, id)
    ensures !Discards(ApplyDeltaEntry(r, sender, de, now, ord), sender, id)
    ensures r.nodes.Keys <= ApplyDeltaEntry(r, sender, de, now, ord).nodes.Keys
  {
  }

  lemma {:induction false} KeysStay(r: State, sender: string, delta: Delta, now: int, ord: MapOrder)
    ensures r.nodes.Keys <= ApplyDelta(r, sender, delta, now, ord).nodes.Keys
    decreases |delta|
  {
    if delta != [] { KeysStay(ApplyDeltaEntry(r, sender, delta[0], now, ord), sender, delta[1..], now, ord); }
  }

  /** A node that a delta tells of is known afterwards, unless it is discarded. */
  lemma {:induction false} PartKnown(r: State, sender: string, delta: Delta, now: int, ord: MapOrder, i: nat)
    requires i < |delta| && !Discards(r, sender, delta[i].id)
    ensures delta[i].id in ApplyDelta(r, sender, delta, now, ord).nodes
    decreases |delta|
  {
    var r1 := ApplyDeltaEntry(r, sender, delta[0], now, ord);
    if i == 0 {
      KeysStay(r1, sender, delta[1..], now, ord);
    } else {
      StillTaken(r, sender, delta[0], now, ord, delta[i].id);
      assert delta[1..][i - 1] == delta[i];
      PartKnown(r1, sender, delta[1..], now, ord, i - 1);
    }
  }
}
