/** Which nodes a digest or a delta makes known. */
module Discovery {
  import opened GossipState

  /** The sender may tell of the node: it was not removed as expired, or it speaks for itself. */
  predicate MayTell(s: State, sender: string, id: string) {
    id !in s.tombstones || id == sender
  }

  /** The digest mentions the node, and not as left. */
  predicate Mentions(digest: Digest, id: string) {
    exists i :: 0 <= i < |digest| && digest[i].id == id && !digest[i].left
  }

  lemma MentionsTail(digest: Digest, id: string)
    requires digest != []
    ensures Mentions(digest, id) <==> (digest[0].id == id && !digest[0].left) || Mentions(digest[1..], id)
  {
    if Mentions(digest, id) && !(digest[0].id == id && !digest[0].left) {
      var i :| 0 <= i < |digest| && digest[i].id == id && !digest[i].left;
      assert digest[1..][i - 1] == digest[i];
    }
  }

  /** A digest makes known exactly the nodes it mentions that have neither left nor been removed, unless they
      speak for themselves; they start with nothing, and the others stay as they are. */
  lemma {:induction false} DigestDiscovers(s: State, sender: string, digest: Digest, id: string)
    ensures var s' := ApplyDigest(s, sender, digest);
      && (id in s'.nodes <==> id in s.nodes || (Mentions(digest, id) && MayTell(s, sender, id)))
      && (id in s.nodes ==> s'.nodes[id] == s.nodes[id])
      && (id in s'.nodes && id !in s.nodes ==> s'.nodes[id] == Fresh(id, s'.nodes[id].addr))
      && (id in s'.tombstones <==> id in s.tombstones && (id in s.nodes || id !in s'.nodes))
    decreases |digest|
  {
    if digest != [] {
      DigestDiscovers(ApplyDigestEntry(s, sender, digest[0]), sender, digest[1..], id);
      MentionsTail(digest, id);
    }
  }

  predicate Tells(delta: Delta, id: string) {
    exists i :: 0 <= i < |delta| && delta[i].id == id
  }

  lemma TellsTail(delta: Delta, id: string)
    requires delta != []
    ensures Tells(delta, id) <==> delta[0].id == id || Tells(delta[1..], id)
  {
    if Tells(delta, id) && delta[0].id != id {
      var i :| 0 <= i < |delta| && delta[i].id == id;
      assert delta[1..][i - 1] == delta[i];
    }
  }

  /** A delta makes known exactly the nodes it tells of that have not been removed, unless they speak for
      themselves. */
  lemma {:induction false} DeltaDiscovers(s: State, sender: string, delta: Delta, now: int, ord: MapOrder, id: string)
    requires s.localID in s.nodes
    ensures var s' := ApplyDelta(s, sender, delta, now, ord);
      && (id in s'.nodes <==> id in s.nodes || (Tells(delta, id) && MayTell(s, sender, id)))
      && (id in s'.tombstones <==> id in s.tombstones && (id in s.nodes || id !in s'.nodes))
      && (id in s.nodes && (id == s.localID || !Tells(delta, id)) ==> s'.nodes[id] == s.nodes[id])
    decreases |delta|
  {
    if delta != [] {
      DeltaDiscovers(ApplyDeltaEntry(s, sender, delta[0], now, ord), sender, delta[1..], now, ord, id);
      TellsTail(delta, id);
    }
  }
}
