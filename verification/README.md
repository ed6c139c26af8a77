# Piko: a verified model

Piko's server nodes keep an eventually consistent map of which node serves which endpoint. This project models the
chain that keeps that map right, in Dafny 4.11, and proves what it promises:

- the gossip state: each node owns a versioned key-value map (upsert, delete, leave, compact with re-versioning) and
  holds views of the others, with membership, expiry and tombstones;
- any number of nodes exchanging digests and deltas, directly or through relays, over a network that may lose,
  duplicate, delay, reorder and truncate messages;
- the packet encoding that truncates;
- the syncer and the cluster state, an index driven by watcher calls;
- the upstream manager, which is where the gossiped counts come from, and rebalancing;
- the failure detector and the yamux write coalescer.

`dafny verify dfyconfig.toml` checks everything.

## How it is built

Code that updates objects in place is modelled by classes (`ClusterState`, `ClusterMap`, `Syncer`, `LoadBalancer`,
`Manager`, `Server`, `ArrivalIntervals`, `ArrivalWindow`, `AccrualFailureDetector`, `Conn`); loops stay loops. Each
method is proved against a function on values, and the theorems are about all runs of those functions. The
preconditions of the gossip methods (well-formed state, local node without expiry) hold in every state a run reaches:
that is `Membership.MembershipAlways`.

Every method that holds the mutex is one atomic step. Go's map iteration order is a parameter of type `MapOrder`, any
function that lists a set; clocks, failure detector verdicts and the outcome of writes are parameters too. Versions
are unbounded. The panics of `CompactLocal` (on a node without entries, with a threshold below 1) and of `Phi` are
modelled.

`Runs` splits each gossip operation into small steps and proves once that what all small steps keep, all runs keep.
`Network` adds data that the program does not have, to state its theorem: `hist`, every entry an owner ever stored,
and `froms`, the versions a delta starts from.

| file | subject |
|---|---|
| GossipState, ClusterState | `clusterState` as functions on values, and as an object |
| Runs, Membership, Discovery, Watching, Expiry, Liveness, Metrics, Miscounts, Idempotence, Compaction | one node: all runs, watcher calls, when nodes become known, unreachable and removed, gauges, repeated deltas, compaction |
| Replica, Network, LateDelivery, Progress, Exchange, CatchUp, Answering, Joining, Whereabouts, Tombstones | many nodes: convergence, progress, joining, gossip addresses, dead nodes |
| Codec, Strconv | packets, numbers |
| ClusterIndex, ClusterMap, Syncer, Upstreams, Rebalance | the cluster index and the upstreams |
| Routing, Removals, Addresses, Forwarding | everything together: where a request is routed, and to which address |
| FailureDetector, Yamux | the two refinements |

## What the code does not do

Where a promise is false of the code, the model keeps the code, and a lemma says exactly when the promise holds.

- A delta applied twice equals the delta applied once, unless something newer follows a compact entry that is not a
  number: the loop returns there, and what was skipped is taken the second time (`IdempotentIff`,
  `DeltaIdempotentIff`, `UnreadableCompactIsNotIdempotent`).
- A delta that arrives after the receiver expired its owner leaves gaps, exactly when the owner has current entries
  between the versions (`LateDeltaGapFreeIff`). A run gets there, and the receiver is then at the owner's version
  without the owner's state (`LateDeltaBreaksConvergence`). The network runs admit every delivery but those.
- A node that was removed as dead stays away if and only if nobody holds it when the first tombstone runs out
  (`StaysDeadIff`). Without nodes that join, which alone ask for everything, a holder that has it marked as left does
  no harm (`PacketsStaysDeadIff`).
- `UpsertLocal` with an empty value does not bring a deleted key back (`UpsertShowsIff`, `EmptyValueStaysDeleted`).
- `RemoveConn` on an upstream that was removed before makes the endpoint count one short, if others are connected
  (`RemoveCountsIff`, `RemoveConnOkIff`); the node then hides an endpoint it serves (`RemovingTwiceHidesEndpoint`).
- The entries gauge counts an entry twice when an empty key is stored again, when a node leaves that has an entry of
  its own under the left key, and when a node compacts that has one under the compact key (`StepConservedIff`,
  `AlwaysConservedIff`, `EmptyKeyIsMiscounted`, `LeftKeyIsMiscounted`, `CompactKeyIsMiscounted`).
- Two reports at the same time with a sample size of one make the failure detector panic (`EqualTimestampsPanic`,
  `PanicsIff`).
- `shedSessions` closes one session even when asked for none (`ShedSessions`), and a rebalance can take a node below
  the average (`SheddingOvershoots`, `OvershootsIff`).
- The documentation says a node rebalances when it has more than the threshold above the average; the code does so at
  the threshold already (`ShedsIff`).
- The comment on `OnLocalEndpointUpdate` says that subscribers are called with the mutex held; the code releases it
  first. The model follows the code.

## Model

| member | source | states |
|---|---|---|
| Network.ReplicasConverge | pkg/gossip/state.go:249-607 | In every run of any number of nodes, over a lossy, duplicating, reordering, truncating network, with every delivery that leaves no gap: a view is never ahead of its owner, holds every current entry up to its own version unchanged, is marked left only if the owner left, and at the owner's version has exactly the owner's entries and left mark |
| Network.NetStepOk | pkg/gossip/state.go:249-691 | Every local update, digest, expiry, liveness check, send and delivery keeps every owner, view and message in flight consistent |
| Network.DeliverDelta | pkg/gossip/state.go:503-607 | Applying a delta leaves the receiver's own state alone, rolls no version back, and keeps all its views following their owners |
| Network.OnlyLocalUpdates | pkg/gossip/state.go:466-691 | No other node and no clock changes what a node holds about itself |
| Replica.EqualVersionEqualState | pkg/gossip/state.go:512-607 | A view without gaps at its owner's version is the owner's state |
| Replica.CompactOk | pkg/gossip/state.go:331-393 | Compaction keeps the owner's history consistent with every view and delta taken before it |
| Replica.EntryOk | pkg/gossip/state.go:561-605 | Taking the next entry of a delta, compact entries included, leaves no gap behind the version |
| Replica.DeliverOk | pkg/gossip/state.go:561-605 | Taking a whole gap-free delta, at or above the version it starts from, leaves no gap |
| Replica.TakenOk | pkg/gossip/state.go:561-605 | So does a late one, when the owner has nothing current between the view's version and the version it starts from |
| Replica.LateDeltaGapFreeIff | pkg/gossip/state.go:542-607 | A delta taken below the version it starts from leaves no gap if and only if the owner has nothing in between |
| LateDelivery.LateDeltaBreaksConvergence | pkg/gossip/state.go:536-559 | A run from the start after which a delta in flight, taken by a receiver that expired its owner, brings it to the owner's version with other entries |
| Progress.EmptyAnswerIff | pkg/gossip/state.go:414-451 | The answer to a digest is empty exactly when the asker misses none of the sender's entries for those nodes |
| Progress.ExchangeProgress | pkg/gossip/state.go:536-607 | An exchange of which at least the first entry arrives strictly lowers the number of missing entries |
| Progress.RoundsCatchUp | pkg/gossip/listener.go:287-331 | As many exchanges as entries are missing are enough to be caught up, however little each carries |
| Progress.CaughtUpWithOwner | pkg/gossip/state.go:414-451 | A receiver that misses nothing of the owner's own state has exactly the owner's version, entries and left mark |
| CatchUp.ExchangesCatchUp | pkg/gossip/listener.go:287-331 | From any reachable network, as many exchanges with the owner, or with a relay at the owner's version, as the owner has entries the receiver lacks, however little each carries and whatever other steps come before and in between, end with the owner's version, entries and left mark; the owner does not change, receiver and relay do not expire it, and each answer can be taken, which fails only if it leaves a gap about a third node the receiver has expired meanwhile |
| CatchUp.RoundHelps | pkg/gossip/listener.go:287-331 | A digest, its answer and the delivery of part of it, with any other steps in between, leave the receiver lacking less of the owner, or nothing |
| CatchUp.CanExchange | pkg/gossip/gossip.go:342-399 | Such an exchange can take place in every reachable network, with the owner or a relay, for every part of the answer that tells of the owner |
| CatchUp.OwnerHolds | pkg/gossip/state.go:414-451 | In every reachable network the owner itself is such a node to ask |
| Exchange.DigestHandlerIsRun | pkg/gossip/listener.go:287-317 | Handling a digest is a run of network steps that ends with whatever part of the reply gets through in flight to the sender; a request is also answered with a digest of every node known by then |
| Exchange.ReplyIsSendable | pkg/gossip/state.go:414-451 | Any truncation of a reply is, node by node, a prefix of what the sender has above the version the digest gave |
| Exchange.ReplyIsUpToDate | pkg/gossip/listener.go:319-331 | A receiver that has removed no node since it asked can take the reply |
| Exchange.MayAsk | pkg/gossip/gossip.go:342-399 | In every state of the network any node may ask any other about the nodes it knows, so the progress results apply |
| Tombstones.DeadNodesStayDead | pkg/gossip/state.go:614-665 | If nobody holds the dead node at the one moment the first tombstone runs out, no node that removed it ever holds it again, before or after |
| Tombstones.DeadNodesDoNotFlap | pkg/gossip/state.go:466-497 | The same from any cluster in which nobody has removed the dead node yet |
| Tombstones.NobodyHoldsStays | pkg/gossip/state.go:466-559 | Once no node holds the dead one, no step makes one hold it |
| Answering.MentionedParts | pkg/gossip/state.go:414-451 | The answer to a digest has, in digest order, one part for each entry the answerer has something newer for, with the node's address and exactly what is newer, oldest first; nothing else, unless the digest is full, and then only about nodes it does not mention |
| Answering.UnmentionedParts | pkg/gossip/state.go:438-448 | The answer to a full digest has exactly one part about each known node the digest does not mention, with its address and all its entries, oldest first |
| Joining.JoinTellsAll | pkg/gossip/listener.go:124-168 | In every run, whatever steps come in between: a node that takes the whole answer to its full digest then knows every node the answerer knew and it does not discard, at no lower version, if it has not forgotten the node since it asked |
| Joining.JoinIsRun | pkg/gossip/gossip.go:402-474 | In every reachable network any node can join at any other: the two sides do what the join and the stream listener do, and afterwards each has the other's own state, and the new one knows all that the other knew and it does not discard |
| Whereabouts.AddressesStayRight | pkg/gossip/state.go:395-559 | In every run in which nobody makes up addresses, every view of a node, every part of a message about it, every digest and every answer has the address the node started with |
| Discovery.DigestDiscovers | pkg/gossip/state.go:466-497 | A digest makes known exactly the nodes it mentions as not left that were not removed as expired, or are the sender; they start at version 0, and all others stay as they are |
| Discovery.DeltaDiscovers | pkg/gossip/state.go:536-559 | A delta makes known exactly the nodes it tells of that were not removed as expired, or are the sender; it leaves the local node and nodes it does not tell of alone |
| Tombstones.HolderBringsBack | pkg/gossip/listener.go:124-168 | A node that still holds the dead one, marked left or not, brings it back to any node that removed it with its answer to that node's full digest, once the tombstone there has run out |
| Tombstones.StaysDeadIff | pkg/gossip/state.go:614-665 | After any run up to the tick on which the first tombstone runs out, every continuation leaves the dead node dead if and only if nobody holds it at that moment |
| Tombstones.PacketsStayDead | pkg/gossip/state.go:466-559 | As long as all who hold the dead node have it marked as left, digests and the deltas that answer them bring it back to nobody |
| Tombstones.UnmarkedBringsBack | pkg/gossip/state.go:466-497 | A node that holds the dead one unmarked brings it back to any node that removed it with a digest |
| Tombstones.PacketsStaysDeadIff | pkg/gossip/listener.go:287-331 | After the same runs, every continuation by packets alone leaves the dead node dead if and only if all who hold it at that moment have it marked as left |
| Routing.RoutesToConnectedUpstreams | server/cluster/state.go:106-125 | In every run of connects, disconnects and gossip, a node that has another's version and holds it as active finds it for an endpoint exactly when it has an upstream connected for it, with the right count |
| Forwarding.ForwardsToUpstream | server/upstream/manager.go:92-113 | In every run: a node that a request is forwarded to exists, is neither left nor unreachable in the caller's gossip, and is dialled at the proxy address it gossips; once the caller has its version, it has an upstream connected for the endpoint |
| Forwarding.LookupIsReachable | server/cluster/state.go:106-125 | In every run, a node that is looked up for an endpoint is neither left nor unreachable in the caller's gossip |
| Forwarding.HoldsGossipedAddresses | server/gossip/syncer.go:251-354 | In every run: if a node gossips one value for each of its addresses, as `Sync` does, every node that holds it in the cluster has exactly those |
| Addresses.AddressesAsReceived | server/gossip/syncer.go:251-354 | After any run of gossip every remote in the cluster has the addresses that were current in the watcher calls when the second of them arrived since its last join |
| Routing.ConnMatchesManager | server/upstream/manager.go:115-151 | Connecting and disconnecting in these runs do to registry, local node and gossip what the manager's methods do |
| Routing.UpsertShowsIff | pkg/gossip/state.go:249-271 | After an upsert the key shows its value, except when the value is empty and the key was deleted |
| Routing.EmptyValueStaysDeleted | pkg/gossip/state.go:255-261 | From the start: after an upsert and a delete of any key, an upsert of the empty value changes nothing |
| Routing.DeleteHides | pkg/gossip/state.go:273-300 | After a delete the key is not live |
| Routing.Advertised | server/gossip/syncer.go:410-418 | Advertising an endpoint makes exactly its count live, or nothing if it is 0, and leaves other endpoints alone |
| Routing.AddCounts | server/upstream/manager.go:115-132 | Adding a connection keeps the registered upstreams, the local listeners and the gossiped counts equal |
| Routing.RemoveCountsIff | server/upstream/manager.go:134-151 | Removing a connection of a registered endpoint keeps them equal if and only if the connection is registered |
| Removals.RemoveConnOkIff | server/upstream/manager.go:134-151 | In any state that runs reach, removing a connection of a registered endpoint keeps registry, index and gossip in agreement if and only if the connection is registered |
| Removals.RemovingTwiceHidesEndpoint | server/upstream/manager.go:134-151 | A run after which removing an upstream a second time leaves another one connected whose endpoint the node neither counts nor gossips |
| Routing.OpSynced | server/gossip/syncer.go:65-408 | The calls an operation makes take an index that follows the state before it to one that follows the state after it, and leave the local node alone |
| Routing.WorldRunOk | server/upstream/manager.go:115-151 | Every run keeps every node's counts, index and gossip in agreement |
| Watching.WatcherReplay | pkg/gossip/state.go:466-691 | After any run the watcher calls are in protocol for each node and replaying them gives exactly the live user entries, left marks and reachability of the known remotes |
| Watching.EntryWatched | pkg/gossip/state.go:561-605 | The calls made for one entry turn what was seen of the node before into what is known after |
| Watching.DropsWatched | pkg/gossip/state.go:586-596 | The calls made while stale entries are dropped, in any order, forget exactly their keys |
| ClusterIndex.IndexRefinesGossip | server/gossip/syncer.go:65-408 | After any run each known remote is in exactly one of pending and cluster (in neither only if it left while pending), with exactly the live endpoint entries and the status left over unreachable over active |
| ClusterIndex.HandleAgrees | server/gossip/syncer.go:65-408 | Every in-protocol call keeps the index in agreement with what was seen |
| ClusterIndex.EndpointKeyInjective | server/gossip/syncer.go:410-418 | Two endpoints do not share a key |
| ClusterIndex.EndpointKeyID | server/gossip/syncer.go:271-272 | The endpoint is read back from its key |
| Membership.MembershipAlways | pkg/gossip/state.go:249-691 | In every run the local node is known and has no expiry, no known node is tombstoned, and a remote has an expiry exactly when it left or is unreachable |
| Membership.StepGrows | pkg/gossip/state.go:249-691 | No operation lowers a known node's version or takes back its left mark, and only expiry forgets nodes |
| Membership.LocalTwice | pkg/gossip/state.go:249-324 | Upserting, deleting or leaving again changes nothing |
| Membership.LocalTakesOne | pkg/gossip/state.go:249-324 | A local update that changes anything takes the next version, for the one entry it is about |
| Expiry.RemovedIff | pkg/gossip/state.go:561-691 | In every run: checking for expired nodes at time t removes a known remote, and says so, if and only if it is left or unreachable and t is more than the expiry time after the clock of the last operation that reported it as left or unreachable |
| Expiry.VerdictsTaken | pkg/gossip/state.go:667-691 | After a liveness check, of the remotes that have not left exactly the suspected ones are unreachable |
| Liveness.SilentIsUnreachable | pkg/gossip/state.go:667-691 | A node that was heard of at regular intervals, as often as the detector samples, is unreachable after a liveness check exactly when it has been silent for more than 20 of them |
| Miscounts.GaugesConserved | pkg/gossip/state.go:693-714 | After any run in which no key is empty and callers do not use the two internal keys, the gauge of every node, internal and deleted label is the number of stored entries of that class, and 0 for unknown nodes |
| Miscounts.AlwaysConservedIff | pkg/gossip/state.go:249-714 | For every run, with any keys at all, the gauge is right after each operation if and only if no operation counts something twice |
| Miscounts.StepConservedIff | pkg/gossip/state.go:249-714 | Every operation keeps the gauge right if and only if it does not miscount, which its inputs and the stored keys decide |
| Miscounts.DeltaConservedIff | pkg/gossip/state.go:561-597 | A delta, of any entries in any order, keeps the gauge right if and only if no entry with an empty key is taken while one is stored |
| Miscounts.EntriesExcess | pkg/gossip/state.go:561-597 | The surplus of the gauge over the stored entries grows by exactly the number of such entries |
| Miscounts.LeaveConservedIff | pkg/gossip/state.go:304-324 | Leaving keeps the gauge right if and only if nothing is stored under the left key |
| Miscounts.CompactConservedIff | pkg/gossip/state.go:331-393 | Compaction keeps the gauge right if and only if no live user entry is stored under the compact key |
| Miscounts.LeftKeyIsMiscounted | pkg/gossip/state.go:304-324 | A caller that stores anything under the left key makes the gauge wrong by leaving |
| Miscounts.CompactKeyIsMiscounted | pkg/gossip/state.go:331-393 | A caller that stores anything under the compact key makes the gauge wrong by compacting |
| Metrics.UpsertAgreesIff | pkg/gossip/state.go:709-714 | Counting an upsert is right if and only if the key is not empty or not stored |
| Metrics.EmptyKeyIsMiscounted | pkg/gossip/state.go:709-714 | Storing the empty key twice counts two entries |
| Idempotence.DeltaIdempotentIff | pkg/gossip/state.go:503-607 | Any delta changes nothing when it is applied again later, no entry, gauge or call, if and only if no part that is taken holds something newer than the version the delta leads to; for deltas that mention a node twice, that version is worked out by going through the versions of all parts about the node |
| Idempotence.DistinctIdempotentIff | pkg/gossip/state.go:503-607 | For a delta that mentions no node twice, in a form a caller can check part by part: if and only if in no part that is taken something newer follows a compact entry that is not a number and is newer than the view and all before it |
| Idempotence.DeltaIdempotent | pkg/gossip/state.go:503-607 | In particular a delta whose compact values are numbers, sorted or not, changes nothing when it is applied again |
| Idempotence.IdempotentIff | pkg/gossip/state.go:561-605 | One node's entries are idempotent if and only if nothing newer follows a compact entry that is not a number and is newer than the view and all entries before it |
| Idempotence.EntriesNewest | pkg/gossip/state.go:561-605 | The version entries lead to depends only on the version before and the entries, and is not lower |
| Idempotence.UnreadableCompactIsNotIdempotent | pkg/gossip/state.go:582-585 | Entries behind an unreadable compact entry are skipped the first time and taken the second |
| Compaction.CompactionPreservesMeaning | pkg/gossip/state.go:331-393 | A compaction keeps the live content and the left mark, leaves no deleted entry, keeps the order of versions, and gives every entry a version above all old ones, with the largest old version recorded in the compact entry |
| Compaction.CompactedOrder | pkg/gossip/state.go:359-381 | Entries that stay keep their relative order of versions |
| Codec.EncodeDelta | pkg/gossip/protocol.go:143-195 | Fails exactly when the header does not fit; otherwise gives the longest run of whole records, header first, within the limit |
| Codec.EncodeDigest | pkg/gossip/protocol.go:106-141 | The same for digests |
| Codec.DecodeDelta | pkg/gossip/protocol.go:253-312 | The decoding loops compute the parse that the round trip is about |
| Codec.DecodeDigest | pkg/gossip/protocol.go:212-251 | Over records that carry their type, as in this model: succeeds exactly on the packets a digest encodes to, and gives that digest |
| Codec.DeltaRoundTrip | pkg/gossip/protocol.go:253-312 | Every prefix of a delta packet that holds the header decodes to the same header and to whole node entries followed by at most one with a prefix of its entries |
| Codec.SendDelta | pkg/gossip/protocol.go:143-312 | Encoding and decoding gives the header and a truncation of the delta, with the first entry in it whenever the packet has room for it |
| Codec.SendDigest | pkg/gossip/protocol.go:106-251 | Encoding and decoding gives the header and a prefix of the digest |
| Strconv.UintRoundTrip | pkg/gossip/state.go:387 | A formatted version is read back if and only if it fits 64 bits |
| Strconv.IntRoundTrip | server/gossip/syncer.go:410-418 | A formatted listener count is read back |
| Strconv.ParseUintIff | pkg/gossip/state.go:582 | A compact value parses exactly if it is a decimal, with any leading zeros, of a number that fits 64 bits, and as that number |
| Strconv.AtoiIff | server/gossip/syncer.go:273 | A listener count parses exactly if it is a decimal, with an optional sign and any leading zeros, of a number that fits an int, and as that number |
| ClusterState.ClusterState.UpsertLocal | pkg/gossip/state.go:249-271 | The object does what the upsert of the theorems does |
| ClusterState.ClusterState.DeleteLocal | pkg/gossip/state.go:273-300 | The object does what the delete of the theorems does |
| ClusterState.ClusterState.LeaveLocal | pkg/gossip/state.go:304-324 | The object does what the leave of the theorems does |
| ClusterState.ClusterState.CompactLocal | pkg/gossip/state.go:331-393 | Counting, sorting and rebuilding in place gives the compaction of the theorems, whatever the map order |
| ClusterState.ClusterState.Digest | pkg/gossip/state.go:395-409 | Lists the version of every known node |
| ClusterState.ClusterState.Delta | pkg/gossip/state.go:414-451 | Gives the answer of the theorems: newer entries of each node, oldest first, and all of unmentioned nodes for a full digest |
| ClusterState.ClusterState.LocalDelta | pkg/gossip/state.go:454-459 | Gives the delta that the join of the theorems introduces a node with |
| ClusterState.ClusterState.ApplyDigest | pkg/gossip/state.go:466-497 | The loop over the digest does what the digest of the theorems does |
| ClusterState.ClusterState.IsTombstoned | pkg/gossip/state.go:656-665 | A tombstone holds against every sender but the node itself, whose message lifts it |
| ClusterState.ClusterState.ApplyDelta | pkg/gossip/state.go:503-510 | The loops in place do what the delta of the theorems does |
| ClusterState.ClusterState.ApplyDeltaEntry | pkg/gossip/state.go:536-607 | Updates entries, version, gauges and calls as in the theorems, including the early return |
| ClusterState.ClusterState.RemoveExpiredAt | pkg/gossip/state.go:614-646 | Forgets old tombstones and removes expired nodes as in the theorems |
| ClusterState.ClusterState.UpdateLiveness | pkg/gossip/state.go:667-691 | Marks nodes as in the theorems, for any verdicts |
| ClusterState.SortedEntries | pkg/gossip/state.go:512-534 | Sorting gives the entries above a version in ascending order |
| GossipState.AscendingLists | pkg/gossip/state.go:512-534 | The ascending list holds exactly the entries above the version, each once |
| Syncer.Syncer.Joined | server/gossip/syncer.go:65-100 | The callback does what the index of the theorems does on a join |
| Syncer.Syncer.HasLeft | server/gossip/syncer.go:102-137 | The same for a node that leaves, pending or not |
| Syncer.Syncer.IsReachable | server/gossip/syncer.go:139-173 | The same for a node that is reachable again |
| Syncer.Syncer.IsUnreachable | server/gossip/syncer.go:175-213 | The same for a node that is unreachable |
| Syncer.Syncer.HasExpired | server/gossip/syncer.go:215-249 | The same for a node that expires |
| Syncer.Syncer.UpsertKey | server/gossip/syncer.go:251-354 | The same for an upsert: addresses of a node already in the cluster are ignored, counts are parsed, and a complete pending node moves into the cluster |
| Syncer.Syncer.DeleteKey | server/gossip/syncer.go:356-408 | The same for a delete |
| Syncer.Syncer.LocalEndpointUpdated | server/gossip/syncer.go:410-418 | Gossips the endpoint's listener count, or deletes the key when there is none |
| ClusterMap.ClusterMap.AddLocalEndpoint | server/cluster/state.go:128-150 | Counts one more listener of the endpoint on the local node and changes nothing else |
| ClusterMap.ClusterMap.RemoveLocalEndpoint | server/cluster/state.go:153-186 | Counts one less, forgets the endpoint at none, and notifies only if there was one |
| ClusterMap.ClusterMap.AddNode | server/cluster/state.go:223-240 | Never replaces the local node, which stays active |
| ClusterMap.ClusterMap.RemoveNode | server/cluster/state.go:243-262 | Removes a known remote and never the local node |
| ClusterMap.ClusterMap.UpdateRemoteStatus | server/cluster/state.go:265-284 | Changes the status of a known remote and never the local node's |
| ClusterMap.ClusterMap.UpdateRemoteEndpoint | server/cluster/state.go:288-310 | Sets the count of one endpoint of a known remote |
| ClusterMap.ClusterMap.RemoveRemoteEndpoint | server/cluster/state.go:314-332 | Forgets one endpoint of a known remote |
| ClusterMap.ClusterMap.LookupEndpoint | server/cluster/state.go:106-125 | Finds an active remote with a listener if and only if there is one, in any map order |
| ClusterMap.ClusterMap.AvgConns | server/cluster/state.go:335-353 | Never divides by zero, since the local node is active, and gives the mean over the active nodes, in any map order: the average times the number of active nodes is at most the total, and one more would be over it |
| Upstreams.LoadBalancer.Add | server/upstream/manager.go:41-43 | Appends and leaves the index in range |
| Upstreams.LoadBalancer.Remove | server/upstream/manager.go:45-58 | Removes the first occurrence and keeps the index in range; reports whether nothing is left |
| Upstreams.LoadBalancer.Next | server/upstream/manager.go:60-69 | Picks the upstream at the index and moves the index on, around the end |
| Upstreams.PickInTurn | server/upstream/manager.go:60-69 | Calling Next n times over k upstreams returns each upstream that is registered once n/k times, rounded down or up |
| Upstreams.TurnsAreFair | server/upstream/manager.go:60-69 | The same of the sequence the calls return, from any index |
| Upstreams.RoundRobinIsFair | server/upstream/manager.go:60-69 | Any n consecutive picks over k upstreams pick each position n/k times, rounded down or up |
| Upstreams.HitsExactly | server/upstream/manager.go:60-69 | Exactly how often each position is picked |
| Upstreams.Manager.Select | server/upstream/manager.go:92-113 | A local upstream, in turn, if one is registered; else, if allowed, a qualifying node if there is one, exactly as the cluster has it; changes nothing but whose turn it is |
| Upstreams.Manager.AddConn | server/upstream/manager.go:115-132 | Registers the upstream, counts it on the local node and gossips the new count |
| Upstreams.Manager.RemoveConn | server/upstream/manager.go:134-151 | Unregisters it, forgets an endpoint without upstreams, counts down and gossips; does nothing for an unknown endpoint |
| Rebalance.Server.ShedSessions | server/upstream/server.go:323-340 | Closes as many open sessions as asked for, but at least one and no more than there are |
| Rebalance.Server.Rebalance | server/upstream/server.go:115-158 | Closes nothing alone in the cluster; else what the balance against the mean asks for |
| Rebalance.ShedBound | server/upstream/server.go:130-157 | For every average, one rebalance closes at most the shed rate's share of it, rounded up, or one, and no more than are open |
| Rebalance.ShedsIff | server/upstream/server.go:121-141 | A session is closed exactly when the node has sessions, at least the minimum, and is at the threshold above the average or the average is zero |
| Rebalance.ClosesExactly | server/upstream/server.go:130-157 | The exact number closed when a node sheds: what it has times how far it is over the average, rounded down, or the shed rate's share of the average, rounded up, if that is exceeded; at least one, and no more than are open |
| Rebalance.OvershootsIff | server/upstream/server.go:121-157 | Exactly when a rebalance takes a node from the average or above to below it: when it sheds, and neither the capped share nor the uncapped product fits in what the node has over the average |
| Rebalance.StaysAboveAverage | server/upstream/server.go:143-157 | In particular, with a threshold above 0 and a shed rate up to the threshold it does not |
| Rebalance.RebalancingSettles | server/upstream/server.go:115-158 | Rebalancing again and again against the same average ends, and not below the average if it started above |
| Rebalance.SheddingOvershoots | server/upstream/server.go:143-157 | A shed rate above the threshold takes a node with 14 sessions to 9 when the average is 10, capped or not, and one with 121 to 96 when it is 100 |
| Rebalance.Server.AddSession | server/upstream/server.go:302-307 | Tracks the session and closes none |
| Rebalance.Server.RemoveSession | server/upstream/server.go:309-314 | Forgets the session and closes none |
| FailureDetector.ArrivalIntervals.Add | pkg/gossip/failuredetector.go:33-47 | The ring buffer's sum and mean are those of the last intervals, as many as the buffer holds |
| FailureDetector.WindowSlides | pkg/gossip/failuredetector.go:33-47 | The window's sum changes by the new interval and the oldest one |
| FailureDetector.ArrivalWindow.Add | pkg/gossip/failuredetector.go:81-90 | Records the time since the last report, or the bootstrap interval |
| FailureDetector.ArrivalWindow.Phi | pkg/gossip/failuredetector.go:72-79 | The time since the last report over the mean of the window, or a panic |
| FailureDetector.AccrualFailureDetector.ReportWithTimestamp | pkg/gossip/failuredetector.go:130-143 | Adds the report to the node's window and to no other |
| FailureDetector.AccrualFailureDetector.SuspicionLevelAt | pkg/gossip/failuredetector.go:159-175 | The level from the node's window, which is started for a node never heard of |
| FailureDetector.AccrualFailureDetector.Remove | pkg/gossip/failuredetector.go:178-183 | Forgets the node's window and no other |
| FailureDetector.PanicsIff | pkg/gossip/failuredetector.go:72-79 | For all positive timestamps, exactly which reports make the level panic |
| FailureDetector.LevelIs | pkg/gossip/failuredetector.go:72-79 | The level is the time since the last report times the number of intervals in the window, over the time the window spans |
| FailureDetector.SteadyExceedsIff | pkg/gossip/failuredetector.go:72-79 | With reports exactly p apart and a full window, the level exceeds n if and only if nothing was heard for more than n times p |
| FailureDetector.LevelRises | pkg/gossip/failuredetector.go:72-79 | The level rises strictly with the time of asking |
| FailureDetector.EqualTimestampsPanic | pkg/gossip/failuredetector.go:72-90 | Two reports at one time with a sample size of one panic |
| FailureDetector.RunsNeverPanic | pkg/gossip/failuredetector.go:130-183 | With a positive bootstrap interval and reports that move on for each node, no run of reports, questions and removals panics; questions may come at any time |
| Yamux.Conn.Write | pkg/yamuxconn/conn.go:45-60 | Holds back the header of a data frame, and otherwise writes what was held back with the bytes; drops it when the write fails |
| Yamux.StreamPreserved | pkg/yamuxconn/conn.go:45-60 | For any inputs, the bytes on the wire followed by the bytes held back are all bytes written |
| Yamux.WireIsPrefix | pkg/yamuxconn/conn.go:45-60 | Up to and including the first write that fails, the wire carries a prefix of the bytes written |
| Yamux.Uint32Unique | pkg/yamuxconn/conn.go:64-68 | Every frame length has exactly one encoding, and only four zero bytes say there is no body |
| Yamux.FramesBecomeWrites | pkg/yamuxconn/conn.go:45-68 | Every frame of any sequence of well-formed frames becomes exactly one write, even when a body looks like a header |

## Left out

- Network runs: no delta is delivered that leaves a gap, which takes a receiver that expired its owner after asking;
  `Replica.LateDeltaGapFreeIff` and `LateDelivery.LateDeltaBreaksConvergence` say what happens otherwise.
- Network runs: node IDs are not reused after a restart, user keys differ from the two internal keys, and a node
  compacts only while its version fits 64 bits.
- Routing.RoutesToConnectedUpstreams: an endpoint has fewer than 2^63 upstreams, disconnects are of registered
  upstreams (see `Removals.RemoveConnOkIff`), and connecting or disconnecting and gossiping the count are one step,
  although the code releases the cluster mutex in between; the manager's mutex orders the updates of one node.
- Routing.RoutesToConnectedUpstreams: nodes start with no connections, so the counts that `Sync` gossips for
  endpoints that were added before it are not modelled.
- Joining.JoinTellsAll: says nothing of a node that the receiver has forgotten between asking and taking the answer.
- Whereabouts.AddressesStayRight: only of runs in which deltas and digests carry addresses that nodes hold or held; the
  network runs themselves allow any address.
- Forwarding.HoldsGossipedAddresses: the node does not gossip two values for one address; for nodes that do,
  `Addresses.AddressesAsReceived` says which one is held.
- Tombstones.StaysDeadIff: exchanges are atomic, and whether the last holder expires the dead node in time is not
  derived from the timing of liveness checks.
- Progress.RoundsCatchUp: the sender's state does not change between the rounds; for what it knows
  of one owner that does not change, `CatchUp.ExchangesCatchUp` lets everything else change.
- Miscounts.GaugesConserved: keys are not empty and local updates do not use the internal ones;
  `Miscounts.AlwaysConservedIff` covers all keys.
- The gauge of nodes by status in the cluster state.
- ClusterMap.ClusterMap.UpdateRemoteEndpoint: tells by its result that subscribers are notified, but does not call them;
  nothing in the server subscribes to remote endpoints.
- ClusterMap.ClusterMap.RemoveRemoteEndpoint: the same.
- Rebalance.Server.Rebalance: floats are reals; an average of zero, where Go divides to infinity, is its own case.
- FailureDetector.ArrivalWindow.Phi: the mean and the level are exact fractions instead of floats; intervals do not
  saturate and sums do not overflow.
- Yamux.Conn.Write: the buffer is a value, so that a caller's slice is not aliased; concurrent writes do not occur, as
  in the source.
- ClusterState.ClusterState.UpdateLiveness: the verdicts of the failure detector are a parameter; `FailureDetector`
  models where they come from.
- Versions beyond 64 bits: versions are unbounded where the program would wrap around.
- Sockets, dialling, DNS, tickers and goroutines; the join and leave streams beyond the gossip steps they make.
- MessagePack bytes: a packet is a list of records of known type, each of some positive size; that a decoder may read
  bytes of one record as another is not modelled.
- The choice of peers and other randomness.
- Tokens, TLS, HTTP, WebSocket, proxies, the admin panel, command line, configuration and logs.
- Backoff, the benchmarks and host parsing.
