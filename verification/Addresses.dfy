/** The addresses nodes enter the cluster with: requests are forwarded to the proxy address that the node itself
    gossiped. */
module Addresses {
  import opened Strconv
  import opened GossipState
  import opened Runs
  import opened Watching
  import opened ClusterIndex

  // ---------- Addresses in the calls ----------

  /** Of the first `n` calls, the value of the last upsert of the key since the node's last join; "" if there
      was none. */
  function Latest(evs: seq<Event>, n: nat, id: string, key: string): string
    requires n <= |evs|
  {
    if n == 0 || evs[n - 1] == OnJoin(id) then ""
    else if evs[n - 1].OnUpsertKey? && evs[n - 1].id == id && evs[n - 1].key == key then evs[n - 1].value
    else Latest(evs, n - 1, id, key)
  }

  predicate Both(evs: seq<Event>, n: nat, id: string)
    requires n <= |evs|
  {
    Latest(evs, n, id, PROXY_ADDR) != "" && Latest(evs, n, id, ADMIN_ADDR) != ""
  }

  ghost predicate NoJoinSince(evs: seq<Event>, n: nat, id: string) {
    forall i :: n <= i < |evs| ==> evs[i] != OnJoin(id)
  }

  /** Of the first calls, none since the last join left both addresses known. */
  ghost predicate NeverBoth(evs: seq<Event>, upto: nat, id: string)
    requires upto <= |evs| + 1
  {
    forall k :: 0 <= k < upto && NoJoinSince(evs, k, id) ==> !Both(evs, k, id)
  }

  /** The second of the two addresses arrived with call `n`, the first time since the last join. */
  ghost predicate EnteredAt(evs: seq<Event>, id: string, n: nat) {
    n <= |evs| && NoJoinSince(evs, n, id) && Both(evs, n, id) && NeverBoth(evs, n, id)
  }

  /** The addresses are the ones that were current after `n` calls. */
  predicate HasLatest(node: Node, evs: seq<Event>, n: nat, id: string)
    requires n <= |evs|
  {
    node.proxyAddr == Latest(evs, n, id, PROXY_ADDR) && node.adminAddr == Latest(evs, n, id, ADMIN_ADDR)
  }

  ghost predicate EnteredWith(node: Node, evs: seq<Event>, id: string, n: nat) {
    EnteredAt(evs, id, n) && HasLatest(node, evs, n, id)
  }

  ghost predicate PendingWith(node: Node, evs: seq<Event>, id: string) {
    HasLatest(node, evs, |evs|, id) && NeverBoth(evs, |evs| + 1, id)
  }

  /** A remote in the cluster has the addresses it entered with; a pending one has those received so far. */
  ghost predicate AddressedAt(idx: Index, evs: seq<Event>, id: string) {
    && (id in idx.nodes ==> exists n :: EnteredWith(idx.nodes[id], evs, id, n))
    && (id in idx.pending ==> PendingWith(idx.pending[id], evs, id))
  }

  ghost predicate Addressed(idx: Index, evs: seq<Event>) {
    forall id :: id != idx.localID ==> AddressedAt(idx, evs, id)
  }

  // ---------- One call ----------

  lemma {:induction false} LatestBefore(evs: seq<Event>, ev: Event, n: nat, id: string, key: string)
    requires n <= |evs|
    ensures Latest(evs + [ev], n, id, key) == Latest(evs, n, id, key)
  {
    if n > 0 { LatestBefore(evs, ev, n - 1, id, key); }
  }

  lemma BothBefore(evs: seq<Event>, ev: Event, n: nat, id: string)
    requires n <= |evs|
    ensures Both(evs + [ev], n, id) == Both(evs, n, id)
  {
    LatestBefore(evs, ev, n, id, PROXY_ADDR);
    LatestBefore(evs, ev, n, id, ADMIN_ADDR);
  }

  lemma LatestAfter(evs: seq<Event>, ev: Event, id: string, key: string)
    ensures Latest(evs + [ev], |evs| + 1, id, key)
      == if ev == OnJoin(id) then ""
         else if ev.OnUpsertKey? && ev.id == id && ev.key == key then ev.value
         else Latest(evs, |evs|, id, key)
  {
    LatestBefore(evs, ev, |evs|, id, key);
  }

  lemma JoinsBefore(evs: seq<Event>, ev: Event, n: nat, id: string)
    requires n <= |evs|
    ensures NoJoinSince(evs + [ev], n, id) <==> NoJoinSince(evs, n, id) && ev != OnJoin(id)
  {
    if NoJoinSince(evs + [ev], n, id) {
      forall i | n <= i < |evs| ensures evs[i] != OnJoin(id) { assert (evs + [ev])[i] == evs[i]; }
      assert (evs + [ev])[|evs|] == ev;
    }
  }

  lemma NeverBothBefore(evs: seq<Event>, ev: Event, upto: nat, id: string)
    requires upto <= |evs| + 1 && (NeverBoth(evs, upto, id) || ev == OnJoin(id))
    ensures NeverBoth(evs + [ev], upto, id)
  {
    forall k | 0 <= k < upto && NoJoinSince(evs + [ev], k, id) ensures !Both(evs + [ev], k, id) {
      JoinsBefore(evs, ev, k, id);
      BothBefore(evs, ev, k, id);
    }
  }

  /** A node in the cluster keeps the addresses it entered with. */
  lemma StaysEntered(node: Node, evs: seq<Event>, ev: Event, id: string, n: nat)
    requires EnteredWith(node, evs, id, n) && ev != OnJoin(id)
    ensures EnteredWith(node, evs + [ev], id, n)
  {
    LatestBefore(evs, ev, n, id, PROXY_ADDR);
    LatestBefore(evs, ev, n, id, ADMIN_ADDR);
    JoinsBefore(evs, ev, n, id);
    BothBefore(evs, ev, n, id);
    NeverBothBefore(evs, ev, n, id);
  }

  lemma LatestsAfter(evs: seq<Event>, ev: Event, id: string)
    ensures ev.id != id || !(ev.OnJoin? || ev.OnUpsertKey?) ==>
      forall node :: HasLatest(node, evs, |evs|, id) <==> HasLatest(node, evs + [ev], |evs| + 1, id)
  {
    LatestAfter(evs, ev, id, PROXY_ADDR);
    LatestAfter(evs, ev, id, ADMIN_ADDR);
  }

  /** A call that leaves the addresses alone. */
  lemma StaysPending(node: Node, node': Node, evs: seq<Event>, ev: Event, id: string)
    requires PendingWith(node, evs, id) && (ev.id != id || !(ev.OnJoin? || ev.OnUpsertKey?))
    requires node'.proxyAddr == node.proxyAddr && node'.adminAddr == node.adminAddr
    ensures PendingWith(node', evs + [ev], id)
  {
    LatestsAfter(evs, ev, id);
    NeverBothBefore(evs, ev, |evs| + 1, id);
    BothAfter(evs, ev, id);
    BothBefore(evs, ev, |evs|, id);
  }

  lemma BothAfter(evs: seq<Event>, ev: Event, id: string)
    requires NeverBoth(evs, |evs| + 1, id) && (ev.id != id || !(ev.OnJoin? || ev.OnUpsertKey?))
    ensures !Both(evs + [ev], |evs| + 1, id)
  {
    LatestAfter(evs, ev, id, PROXY_ADDR);
    LatestAfter(evs, ev, id, ADMIN_ADDR);
    assert NoJoinSince(evs, |evs|, id);
  }

  /** After the node joined, it has neither address. */
  lemma JoinedPending(node: Node, evs: seq<Event>, id: string)
    requires node.proxyAddr == "" && node.adminAddr == ""
    ensures PendingWith(node, evs + [OnJoin(id)], id)
  {
    NeverBothBefore(evs, OnJoin(id), |evs| + 1, id);
  }

  /** An upsert keeps the node pending or brings it into the cluster, with the addresses received. */
  lemma UpsertedPending(node: Node, evs: seq<Event>, id: string, key: string, value: string, node': Node)
    requires PendingWith(node, evs, id) && PendingUpsert(node, key, value) == Some(node')
    ensures var evs' := evs + [OnUpsertKey(id, key, value)];
      if Complete(node') then EnteredWith(node', evs', id, |evs'|) else PendingWith(node', evs', id)
  {
    var ev := OnUpsertKey(id, key, value);
    LatestAfter(evs, ev, id, PROXY_ADDR);
    LatestAfter(evs, ev, id, ADMIN_ADDR);
    NeverBothBefore(evs, ev, |evs| + 1, id);
    KeysDiffer();
  }

  lemma IgnoredPending(node: Node, evs: seq<Event>, id: string, key: string, value: string)
    requires PendingWith(node, evs, id) && PendingUpsert(node, key, value).None?
    ensures PendingWith(node, evs + [OnUpsertKey(id, key, value)], id)
  {
    var ev := OnUpsertKey(id, key, value);
    LatestAfter(evs, ev, id, PROXY_ADDR);
    LatestAfter(evs, ev, id, ADMIN_ADDR);
    NeverBothBefore(evs, ev, |evs| + 1, id);
    assert NoJoinSince(evs, |evs|, id);
  }

  lemma UpsertAddressed(idx: Index, evs: seq<Event>, id: string, key: string, value: string)
    requires AddressedAt(idx, evs, id) && (id !in idx.nodes || id !in idx.pending)
    ensures AddressedAt(HandleUpsert(idx, id, key, value), evs + [OnUpsertKey(id, key, value)], id)
  {
    var idx', evs' := HandleUpsert(idx, id, key, value), evs + [OnUpsertKey(id, key, value)];
    if id in idx.nodes {
      var n :| EnteredWith(idx.nodes[id], evs, id, n);
      StaysEntered(idx.nodes[id], evs, OnUpsertKey(id, key, value), id, n);
      assert EnteredWith(idx'.nodes[id], evs', id, n);
    }
    if id in idx.pending {
      var next := PendingUpsert(idx.pending[id], key, value);
      if next.Some? {
        UpsertedPending(idx.pending[id], evs, id, key, value, next.value);
        if Complete(next.value) { assert EnteredWith(idx'.nodes[id], evs', id, |evs'|); }
      } else {
        IgnoredPending(idx.pending[id], evs, id, key, value);
      }
    }
  }

  /** The call leaves the addresses of the node alone. */
  lemma OtherAddressed(idx: Index, idx': Index, evs: seq<Event>, ev: Event, id: string)
    requires AddressedAt(idx, evs, id) && (ev.id != id || !(ev.OnJoin? || ev.OnUpsertKey?))
    requires id in idx'.nodes ==> id in idx.nodes && SameAddresses(idx'.nodes[id], idx.nodes[id])
    requires id in idx'.pending ==> id in idx.pending && SameAddresses(idx'.pending[id], idx.pending[id])
    ensures AddressedAt(idx', evs + [ev], id)
  {
    if id in idx'.nodes {
      var n :| EnteredWith(idx.nodes[id], evs, id, n);
      StaysEntered(idx.nodes[id], evs, ev, id, n);
      assert EnteredWith(idx'.nodes[id], evs + [ev], id, n);
    }
    if id in idx'.pending { StaysPending(idx.pending[id], idx'.pending[id], evs, ev, id); }
  }

  predicate SameAddresses(a: Node, b: Node) {
    a.proxyAddr == b.proxyAddr && a.adminAddr == b.adminAddr
  }

  lemma HandleAddressed(idx: Index, seen: Seen, evs: seq<Event>, ev: Event, id: string)
    requires AddressedAt(idx, evs, id) && AgreesAt(idx, seen, id) && WatchOne(seen, ev).Some? && id != idx.localID
    ensures AddressedAt(Handle(idx, ev), evs + [ev], id)
  {
    var idx' := Handle(idx, ev);
    if ev.id != id {
      OthersAlone(idx, ev, id);
      OtherAddressed(idx, idx', evs, ev, id);
    } else if ev.OnUpsertKey? {
      UpsertAddressed(idx, evs, id, ev.key, ev.value);
    } else if ev.OnJoin? {
      JoinedPending(idx'.pending[id], evs, id);
    } else {
      OtherAddressed(idx, idx', evs, ev, id);
    }
  }

  // ---------- All calls ----------

  lemma {:induction false} HandleAllAddressed(idx: Index, seen: Seen, evs: seq<Event>, more: seq<Event>)
    requires Addressed(idx, evs) && IndexAgrees(idx, seen) && Watch(seen, more).Some?
    requires forall i :: 0 <= i < |more| ==> ParsesEvent(more[i])
    ensures Addressed(HandleAll(idx, more), evs + more)
    decreases |more|
  {
    if more == [] {
      assert evs + more == evs;
    } else {
      var idx', seen', evs' := Handle(idx, more[0]), WatchOne(seen, more[0]).value, evs + [more[0]];
      forall id | id != idx'.localID ensures AddressedAt(idx', evs', id) {
        assert AddressedAt(idx, evs, id) && AgreesAt(idx, seen, id);
        HandleAddressed(idx, seen, evs, more[0], id);
      }
      HandleAgrees(idx, seen, more[0]);
      HandleAllAddressed(idx', seen', evs', more[1..]);
      assert evs + more == evs' + more[1..];
    }
  }

  /** After any run of gossip, every remote in the cluster map has the addresses that were current in the watcher
      calls when the second of them arrived since its last join. */
  lemma AddressesAsReceived(local: Node, addr: string, ops: seq<Op>, s: State, id: string)
    requires Reaches(Init(local.id, addr), ops, s)
    requires forall i :: 0 <= i < |ops| ==> ProperDelta(ops[i])
    requires id != local.id && id in HandleAll(NewIndex(local), s.trace).nodes
    ensures exists n :: EnteredWith(HandleAll(NewIndex(local), s.trace).nodes[id], s.trace, id, n)
  {
    RunSynced(local.id, addr, ops, s);
    NewIndexAgrees(local);
    HandleAllAddressed(NewIndex(local), map[], [], s.trace);
    assert [] + s.trace == s.trace;
    LocalIDKept(NewIndex(local), s.trace);
    assert AddressedAt(HandleAll(NewIndex(local), s.trace), s.trace, id);
  }

  lemma {:induction false} LocalIDKept(idx: Index, evs: seq<Event>)
    ensures HandleAll(idx, evs).localID == idx.localID
    decreases |evs|
  {
    if evs != [] { LocalIDKept(Handle(idx, evs[0]), evs[1..]); }
  }
}
