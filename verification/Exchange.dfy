/** How the message handlers use the state: every reply they send is a message of the network model, and a
    receiver that has not removed a node since it sent its digest meets the condition for delivery. */
module Exchange {
  import opened Strconv
  import opened GossipState
  import opened Runs
  import opened Codec
  import opened Network
  import opened Progress

  datatype Handled = Handled(state: State, delta: Delta, digest: Option<Digest>)

  /** The packet listener on a digest: discover, answer with a delta, and to a request with a digest too. */
  ghost function HandleDigest(s: State, sender: string, digest: Digest, request: bool, ord: MapOrder): Handled {
    var s1 := ApplyDigest(s, sender, digest);
    Handled(s1, DeltaFor(s1, digest, false, ord), if request then Some(FullDigest(s1, ord)) else None)
  }

  /** The digest gives version `from` for the node, or `from` is 0. */
  ghost predicate Asked(digest: Digest, id: string, from: nat) {
    from == 0 || exists j :: 0 <= j < |digest| && digest[j].id == id && digest[j].version == from
  }

  ghost predicate AskedFor(digest: Digest, sent: Delta, froms: seq<nat>) {
    |froms| == |sent| && forall i :: 0 <= i < |sent| ==> Asked(digest, sent[i].id, froms[i])
  }

  /** The part of a delta that answers version `from` of a digest entry, or an unmentioned node. */
  ghost predicate Answers(s: State, digest: Digest, de: DeltaEntry, from: nat) {
    de.id in s.nodes && de == DeltaEntryOf(s.nodes[de.id], from) && Asked(digest, de.id, from)
  }

  lemma {:induction false} DigestFroms(s: State, digest: Digest) returns (froms: seq<nat>)
    requires StateWf(s)
    ensures var d := DigestDelta(s, digest);
      |froms| == |d| && forall i :: 0 <= i < |d| ==> Answers(s, digest, d[i], froms[i])
    decreases |digest|
  {
    froms := [];
    if digest != [] {
      var tail := DigestFroms(s, digest[1..]);
      var d, rest := DigestDelta(s, digest), DigestDelta(s, digest[1..]);
      forall i | 0 <= i < |rest| ensures Answers(s, digest, rest[i], tail[i]) {
        assert Answers(s, digest[1..], rest[i], tail[i]);
        if tail[i] != 0 {
          var j :| 0 <= j < |digest[1..]| && digest[1..][j].id == rest[i].id && digest[1..][j].version == tail[i];
          assert digest[j + 1] == digest[1..][j];
        }
      }
      if |d| == |rest| {
        froms := tail;
        assert d == rest;
      } else {
        froms := [digest[0].version] + tail;
        assert d == [d[0]] + rest;
        assert Answers(s, digest, d[0], froms[0]);
      }
    }
  }

  lemma ReplyFroms(s: State, digest: Digest, fullDigest: bool, ord: MapOrder) returns (froms: seq<nat>)
    requires StateWf(s)
    ensures var d := DeltaFor(s, digest, fullDigest, ord);
      |froms| == |d| && forall i :: 0 <= i < |d| ==> Answers(s, digest, d[i], froms[i])
  {
    froms := DigestFroms(s, digest);
    if fullDigest {
      var ids := Range(ord, s.nodes.Keys - DigestIDs(digest));
      var known, full := DigestDelta(s, digest), FullDelta(s, ids);
      forall i | 0 <= i < |full| ensures Answers(s, digest, full[i], 0) {
        assert ids[i] in s.nodes && full[i] == DeltaEntryOf(s.nodes[ids[i]], 0);
      }
      froms := froms + seq(|ids|, i => 0);
    }
  }

  /** Whatever arrives of a reply is a sendable message, starting at the versions the digest gave. */
  lemma ReplyIsSendable(s: State, digest: Digest, fullDigest: bool, ord: MapOrder, sent: Delta) returns (froms: seq<nat>)
    requires StateWf(s) && Truncates(DeltaFor(s, digest, fullDigest, ord), sent)
    ensures Sendable(s, sent, froms) && AskedFor(digest, sent, froms)
  {
    var d := DeltaFor(s, digest, fullDigest, ord);
    var all := ReplyFroms(s, digest, fullDigest, ord);
    froms := all[..|sent|];
    forall i | 0 <= i < |sent|
      ensures sent[i].id in s.nodes && Asked(digest, sent[i].id, froms[i])
      ensures sent[i].entries <= Ascending(s.nodes[sent[i].id].entries, froms[i])
    {
      assert Answers(s, digest, d[i], all[i]);
    }
  }

  /** Handling a digest is a discovery followed by a send to the sender of the digest, whatever part of the reply
      gets through. A request is also answered with a digest of every node known by then. */
  lemma DigestHandlerIsRun(net: Net, n: string, sender: string, digest: Digest, request: bool, ord: MapOrder, sent: Delta)
    returns (steps: seq<NetStep>, net': Net, froms: seq<nat>)
    requires NetInv(net) && n in net.nodes
    requires Truncates(HandleDigest(net.nodes[n], sender, digest, request, ord).delta, sent)
    ensures Leads(net, steps, net')
    ensures var h := HandleDigest(net.nodes[n], sender, digest, request, ord);
      && n in net'.nodes && net'.nodes[n] == h.state && (h.digest.Some? <==> request)
      && (request ==> forall id :: id in h.state.nodes ==> DigestEntryOf(h.state.nodes[id]) in h.digest.value)
      && (request ==> |h.digest.value| == |h.state.nodes|)
    ensures Message(sender, n, sent, froms) in net'.msgs && AskedFor(digest, sent, froms)
  {
    var quiet := Quiet(n, ReceiveDigest(sender, digest));
    assert NodeOk(net, n) && CanDo(net, quiet);
    var net1 := Do(net, quiet);
    NetStepOk(net, quiet);
    assert NodeOk(net1, n);
    froms := ReplyIsSendable(net1.nodes[n], digest, false, ord, sent);
    var send := Send(n, Message(sender, n, sent, froms));
    net' := Do(net1, send);
    steps := [quiet, send];
    assert Leads(net1, [send], net');
    ListsEveryNode(net1.nodes[n], ord);
  }

  lemma ListsEveryNode(s: State, ord: MapOrder)
    ensures var d := FullDigest(s, ord);
      |d| == |s.nodes| && forall id :: id in s.nodes ==> DigestEntryOf(s.nodes[id]) in d
  {
    var ids := Range(ord, s.nodes.Keys);
    EnumerationSize(ids, s.nodes.Keys);
    assert |s.nodes.Keys| == |s.nodes|;
    forall id | id in s.nodes ensures DigestEntryOf(s.nodes[id]) in DigestOf(s, ids) {
      assert id in ids;
      var i :| 0 <= i < |ids| && ids[i] == id;
      assert DigestOf(s, ids)[i] == DigestEntryOf(s.nodes[id]);
    }
  }

  /** A receiver that, since it sent the digest, has not removed a node can take the reply. */
  lemma ReplyIsUpToDate(net: Net, asked: State, r: State, ids: seq<string>, sender: string, sent: Delta, froms: seq<nat>)
    requires forall i :: 0 <= i < |ids| ==> ids[i] in asked.nodes && asked.nodes[ids[i]].id == ids[i]
    requires Ahead(asked, r) && AskedFor(DigestOf(asked, ids), sent, froms)
    ensures UpToDate(net, r, sender, sent, froms)
  {
    forall i | 0 <= i < |sent| ensures froms[i] <= KnownVersion(r, sent[i].id) {
      assert Asked(DigestOf(asked, ids), sent[i].id, froms[i]);
      if froms[i] != 0 {
        var j :| 0 <= j < |ids| && DigestOf(asked, ids)[j].id == sent[i].id
          && DigestOf(asked, ids)[j].version == froms[i];
        assert KnownVersion(asked, ids[j]) == froms[i];
      }
    }
  }

  /** In any run, a node may ask any other about the nodes it knows: the progress result applies. */
  lemma MayAsk(net: Net, s: string, r: string, ids: seq<string>)
    requires NetInv(net) && s in net.nodes && r in net.nodes
    requires forall i :: 0 <= i < |ids| ==> ids[i] in net.nodes[r].nodes
    ensures CanAsk(net.nodes[s], net.nodes[r], ids)
  {
    assert NodeOk(net, s) && NodeOk(net, r);
    assert ViewAt(net, net.nodes[s], r);
  }
}
