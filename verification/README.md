# Verified model of tourillon

A Dafny model of the consistency core of tourillon, a leaderless replicated key-value store.
It states and proves what keeps the replicas of a partition together: versions and their
physical keys, digests, retention and garbage collection, anti-entropy sessions, durable
delivery debts, ring arithmetic and placement, quorum reads, membership gossip, the peer
pool and the sweep plan. `dafny verify dfyconfig.toml` checks everything.

| file | models |
|---|---|
| `ByteOrder.dfy`, `Codec.dfy`, `Clock.dfy` | big-endian bytes and their order, the key codecs and their cursor, the hybrid logical clock |
| `Scan.dfy`, `Versions.dfy`, `Digest.dfy`, `Session.dfy` | ordered scans, stored versions, digest cells, one storage transaction |
| `Retention.dfy`, `Collector.dfy` | retention and the collector's passes |
| `Replicas.dfy`, `LocalStore.dfy`, `Sync.dfy` | two replicas, paging and batching, the anti-entropy session |
| `Convergence.dfy` | several replicas over time |
| `Obligations.dfy`, `Delivery.dfy` | the hot queue and the delivery state machine |
| `Ring.dfy`, `Partition.dfy`, `Placement.dfy`, `ReplicaMap.dfy`, `Handoff.dfy`, `Plan.dfy` | the ring, partition arcs, preference lists, the replica map, handoff, the sweep plan |
| `Topology.dfy`, `Gossip.dfy`, `Quorum.dfy`, `Pool.dfy` | membership, one gossip round, quorum reads, the connection pool |

## Reading the model

- Bytes are integers below 256, node ids are their UTF-8 bytes, and sizes, widths and
  constants are the source's. Lexicographic order is carried by an order embedding into the
  reals, so store-level modules take a `Layout` of three positions per key. The codec's own
  layout is proved to be one.
- A digest word is a set of one bits below 128, so exclusive or is symmetric difference. The hash
  of a version is a parameter and nothing is assumed of it. A session takes equal fingerprints for
  equal sets; a ghost field (`blind`) sets aside the buckets in which that was wrong, and
  `Excused` says that each of them still holds different sets with one fingerprint. What a
  session settles is stated for all other buckets, all else without exception.
- Time, liveness, hash parity, connection outcomes, lost answers, how much of an unanswered push
  was carried out, and inactivity are parameters.
  A session's peer is honest and quiescent, at one cutoff. Transactions are atomic. A key
  checkpoint is one an earlier session wrote (`AtHome`).
- `Partitioner` takes any positive number of partitions and step; the source's are powers of two.
- Where code and documentation differ the model follows the code. The registry doc of
  `apply_member` promises true whenever the registry changed, the code answers for ring and
  ownership only. `HLCTimestamp` promises that bytes keep its order, which fails for node ids of
  different lengths.

## What turned out not to hold

Each of these has a lemma with the failing input and a lemma with the exact condition.

- Encoded timestamps keep time order: `ByteOrderInversionExists`, `ByteOrderIsHlcOrder`. The
  condition follows through to reads and deliveries: `PhysicalOrdersAgree`,
  `InvertedOrdersBlockDelivery`, `FinalIsNewest`.
- Segments cover all partitions: fails when several vnodes all share one token
  (`SharedTokenOwnsNothing`, `SegmentsFor`).
- Nodes agree on the ring whatever the order of gossip: fails when two ring members claim one
  token (`SharedTokenDisagrees`, `RingConverges`).
- A quorum read sees an acknowledged write: fails when an owner is counted although its handoff
  failed (`FailedHandoffHidesWrite`, `QuorumExactly`).
- A stopped delivery service forgets no debt while the process lives:
  `StopDuringReloadForgets`, `StopKeepsTrackIff`.
- A clock's stamps can always be stored: `StalledClockOverflows` and `FullRemoteOverflows`,
  `TickFitsExactly` and `UpdateFitsExactly`.

Two more hold under a condition that is sufficient, with an input that shows why it is there.

- A finished session leaves no eligible version unsettled: `SessionMeaning`, `CollisionHides`.
- A finished session brings both sides past whatever either was past: `MeetingHas`, `RecentHides`.

## Model

| member | source | states |
|---|---|---|
| `Sync.PeerSync.Reconcile` | tourillon/core/ae/sync.py:253-285 | A chain of sessions sharing a checkpoint, each cut short by a budget or a lost answer: nothing is deleted, a side gains only versions the other owned and only if it is a target replica, the budgets hold; and except in buckets whose fingerprints collide in that very state, the checkpoint covers only settled versions and a chain whose last session ends normally has settled every eligible one |
| `Sync.PeerSync.ReconcileAll` | tourillon/core/ae/sync.py:475-482 | Sessions repeated for as long as a budget stops them come to an end, because each leaves strictly less before its checkpoint; and that end is a normal one unless a request was not answered |
| `Sync.PeerSync.SyncPid` | tourillon/core/ae/sync.py:253-285 | What Reconcile states, for one session and whatever its outcome. The repairs counted against the budget are the versions the two sides gained, the peer possibly more after an unanswered push. A session stops early only with a budget used up or an unanswered request; one stopped by a budget that allows two keys and one repair has moved its checkpoint past a stored version it had not passed |
| `Replicas.SessionMeaning` | tourillon/core/ae/sync.py:301-463 | Unpacks that result for one version, unless the two sides own different versions of its bucket, or of the compared part, with one fingerprint: held by the other side if it is a target replica, or out of retention there; nothing already stored changes; nothing unknown to both sides appears |
| `Replicas.CollisionHides` | tourillon/core/ae/sync.py:311-314 | Two versions of one bucket with one hash, one on each side: the cells are equal and neither side has the version of the other |
| `Replicas.ExcusedStays` | tourillon/core/ae/sync.py:301-332 | A bucket set aside as misjudged is still misjudged after work on any other bucket |
| `Replicas.DifferingNotBlind` | tourillon/core/ae/sync.py:301-332 | A bucket that gets merged was never misjudged |
| `Sync.PeerSync.SyncPage` | tourillon/core/ae/sync.py:260-285 | The union of the peer page and the local buckets up to its end leaves no bucket out; everything through the cursor is settled |
| `Sync.PeerSync.SyncBucket` | tourillon/core/ae/sync.py:301-332 | A bucket is settled by comparing cells, or the digests of the cutoff range, and merging only on a difference; equal fingerprints of different sets put it aside |
| `Sync.PeerSync.SyncPart` | tourillon/core/ae/sync.py:324-332 | The same for a bucket cut by the cutoff, by the digests of the part before it |
| `Sync.PeerSync.SyncRange` | tourillon/core/ae/sync.py:334-378 | Two-sided paging: windows cut at the sooner of two page ends cover the range without gap, resuming at the checkpoint; a merged range was charged for at least every owned version it holds on either side |
| `Sync.ScanPages` | tourillon/core/ae/sync.py:352-378 | The keys charged are the owned versions the two pages list, never fewer than the window merged holds |
| `Sync.MergePage` | tourillon/core/ae/sync.py:380-404 | The keys of a window are settled in key order; a budget stop happens only when all repairs are spent, and the checkpoint moves exactly with what was settled |
| `Sync.MergeOrdered` | tourillon/core/ae/sync.py:390-404 | The checkpoint stands at the last key of the last whole chunk, and every key up to it is settled |
| `Sync.MergeStep` | tourillon/core/ae/sync.py:393-403 | One chunk of keys that go the same way, cut to the repairs left: the checks inside the chunk never stop it |
| `Replicas.PendingDrops` | tourillon/core/ae/sync.py:366-378 | A checkpoint that passes another stored version leaves strictly less, although both sides grew meanwhile |
| `Sync.Copy` | tourillon/core/ae/sync.py:425-463 | Keys copied request by request within the byte budget while repairs are left; each is stored at the target or out of retention there. What is counted as applied is what the target gained; when the last request got no answer, any number of its transactions may have been carried out besides. With room for all keys the budget never stops it halfway |
| `LocalStore.ApplyFirst` | tourillon/core/ae/local.py:254-266 | An application cut off after any number of transactions has absorbed exactly a prefix of the records |
| `Replicas.PagesComplete` | tourillon/core/ae/sync.py:352-378 | Two complete pages cut at the sooner end list every eligible version of the window |
| `Replicas.WindowsJoin` | tourillon/core/ae/sync.py:357-378 | Consecutive windows tile the range: nothing listed twice or missed |
| `Replicas.EqualSumsSettle` | tourillon/core/ae/sync.py:311-314 | Equal cells settle a bucket unless these two sets are different |
| `Replicas.EqualPartsSettle` | tourillon/core/ae/sync.py:324-332 | Equal digests settle the part of a bucket before the cutoff, unless those two sets are different |
| `Convergence.EveryoneHas` | tourillon/core/ae/view.py:22-32 | Once every two replicas of a partition have had a finished session, in any order and with cut off sessions, writes, applications and collections in between, every one stores each version any of them held at the start, or is past it |
| `Convergence.NewsSpreads` | tourillon/core/ae/view.py:22-32 | The same for every replica that a chain of finished sessions leads to |
| `Convergence.NewestEverywhere` | tourillon/core/ae/view.py:22-32 | Such a replica stores the newest version of the address itself, with the value it was written with |
| `Convergence.NothingInvented` | tourillon/core/ae/sync.py:425-463 | In every state of every run, what a replica stores was there at the start or was written since |
| `Convergence.SessionIsMeeting` | tourillon/core/ae/sync.py:253-285 | What the session contract promises is such a step between two replicas, and touches no other |
| `Convergence.MeetingHas` | tourillon/core/ae/sync.py:253-285 | A finished session leaves both sides with what either had or was past, if it could compare every version of the address |
| `Convergence.RecentHides` | tourillon/core/ae/sync.py:316-332 | Without that: one side is past a version because of a newer one beyond the cutoff, and the other gets neither |
| `Convergence.StepHas` | tourillon/core/storage/retention.py:48-76 | No session, write, application or collection makes a replica lose a version without being past it |
| `Replicas.PhysicalBoundsSeparate` | tourillon/core/storage/session.py:594-607 | The byte bounds used by ranges separate versions by wall time, as the session needs |
| `Replicas.OwnedPage` | tourillon/core/storage/session.py:428-466 | A page lists exactly the owned versions of the entries looked at, and says where to go on after exactly the number of entries asked for |
| `Replicas.RangeDigest` | tourillon/core/ae/local.py:169-191 | A digest folded page by page is the sum over exactly the owned versions of the range |
| `LocalStore.BucketsUntil` | tourillon/core/ae/local.py:148-167 | Exactly the non-empty buckets between two cursors, read page by page |
| `LocalStore.Read` | tourillon/core/ae/local.py:210-243 | Owned versions of a prefix of the keys, in order; at least one key is consumed, the byte budget is kept, and it stops short only before an owned version that would exceed it |
| `LocalStore.ApplyResult` | tourillon/core/ae/local.py:250-266 | Every record of the batches is stored or out of retention, and applied, present and ignored counts add up to the records given |
| `LocalStore.ApplyBatch` | tourillon/core/ae/local.py:254-262 | One transaction: ignored counts the records outside retention, present those stored or listed before, applied the growth of the store |
| `LocalStore.Batches` | tourillon/core/ae/local.py:370-388 | Batches keep all records in order within the count and size bounds, and are cut only where the next record would not fit |
| `LocalStore.RecordSizeIsEncoded` | tourillon/core/models/antientropy.py:376-384 | The size batches are measured by is that of the encoded key, tag and data, with the framing |
| `Session.Transaction` | tourillon/core/storage/session.py:145-165 | Any run of writes, removals and flushes followed by the flush at commit leaves every bucket and root cell equal to the sum over the owned versions, present exactly when that set is not empty |
| `Session.GroupSession.PutMany` | tourillon/core/storage/session.py:145-165 | A version already stored changes nothing and is not folded again; the answers say which were written |
| `Session.GroupSession.Remove` | tourillon/core/storage/session.py:218-263 | Only owned versions leave, from both keyspaces, with their part in the cells |
| `Session.GroupSession.Flush` | tourillon/core/storage/session.py:517-533 | Stored cells become stored plus delta, empty cells are deleted, and a repeated flush adds nothing |
| `Session.GroupSession.InsertAbsent` | tourillon/core/storage/session.py:477-500 | Inserts where absent, answering per record, duplicates within the batch included |
| `Session.CellsForgetHistory` | tourillon/core/storage/session.py:356-365 | Exact cells depend on the owned versions alone, not on the history that led there |
| `Session.RootCombinesBuckets` | tourillon/core/storage/session.py:502-515 | The root of a pid is the combination of its bucket cells |
| `Digest.SumUnion` | tourillon/core/storage/session.py:78-83 | Cells of disjoint sets add up to the cell of the union |
| `Digest.SumRemove` | tourillon/core/storage/session.py:78-83 | Taking a version out of a cell undoes adding it |
| `Retention.CollectIsSafe` | tourillon/core/storage/retention.py:71-76 | A version is collected only if enough newer owned versions of its address remain afterwards |
| `Retention.LatestSurvives` | tourillon/core/storage/retention.py:71-76 | The newest owned version of an address, a tombstone included, is never collected |
| `Retention.TombstoneBuries` | tourillon/core/storage/retention.py:38-46 | A newer tombstone pushes the version it deletes out like any version, and an entry of another kind does not |
| `Retention.OutsideIsSuperseded` | tourillon/core/storage/retention.py:44-46 | Outside retention exactly when enough newer owned versions exist, where byte order is time order |
| `Retention.CollectStable` | tourillon/core/storage/retention.py:71-76 | Collecting in pieces removes what collecting at once removes |
| `Retention.ApplySettles` | tourillon/core/storage/retention.py:48-63 | Every record ends up stored or out of retention, and nothing else changes |
| `Retention.AppliedCounts` | tourillon/core/storage/retention.py:48-63 | Every record is counted once, and the store grows by the number reported applied |
| `Retention.DispositionsMean` | tourillon/core/storage/retention.py:48-63 | What is reported of a record: refused if outside retention, present if stored or listed before, applied otherwise |
| `Retention.Report` | tourillon/core/storage/retention.py:56-63 | Pairs each accepted record with its own insertion result, in order |
| `Retention.FindOutside` | tourillon/core/storage/retention.py:38-46 | Finds exactly the keys outside retention |
| `Retention.NewestOf` | tourillon/core/storage/session.py:173-202 | The newest versions of every address, from one bounded scan per address |
| `Retention.ApplyReaches` | tourillon/core/storage/retention.py:48-63 | A replica given a record holds it afterwards, or something newer |
| `Retention.RetentionPolicy.ApplyIn` | tourillon/core/storage/retention.py:48-63 | The session ends in the specified store with the specified dispositions |
| `Retention.RetentionPolicy.CollectIn` | tourillon/core/storage/retention.py:71-76 | The session ends without exactly the collectable versions |
| `Collector.GarbageCollector.Scan` | tourillon/core/services/gc.py:202-229 | A full pass over every group, by pages and interleaved with hot addresses, leaves exactly what one collection of everything leaves |
| `Collector.GarbageCollector.ScanGroup` | tourillon/core/services/gc.py:202-229 | The same for one group, whatever addresses arrive between pages |
| `Collector.GarbageCollector.HotStep` | tourillon/core/services/gc.py:231-261 | The oldest versions of the address queued first are collected, in its group alone, and it is queued again exactly when a full batch went |
| `Collector.GarbageCollector.Submit` | tourillon/core/services/gc.py:82-91 | An address is queued once, and only while the queue has room; what is turned away is counted |
| `Collector.FinalIsNewest` | tourillon/core/services/gc.py:202-261 | What a pass leaves is the newest versions of every address exactly under a condition on byte order and tags |
| `Collector.FinalWhenOrdersAgree` | tourillon/core/services/gc.py:202-261 | With orders that agree, a pass leaves the newest versions of every address and nothing more |
| `Collector.FinalStays` | tourillon/core/services/gc.py:202-261 | A second pass removes nothing |
| `Delivery.EveryRunKeepsDebts` | tourillon/core/services/antientropy.py:778-947 | In every state of every run, with stops, restarts and changes of view, each durable debt is queued, in the batch being delivered, ahead of the running reload or passed over by it, about to be submitted, or the backlog flag is up; each can be paid; and each debt ever incurred is still owed, its target holds the version or a newer one, or it was dropped in a view this node held that did not owe it |
| `Delivery.QuietMeansSettled` | tourillon/core/services/antientropy.py:793-839 | A worker at rest with an empty queue and no backlog flag owes nothing: every debt reached its target, or the node held a view in which the target was itself or no replica of the partition |
| `Delivery.DebtCanBeSettled` | tourillon/core/services/antientropy.py:778-870 | No debt is ever stuck: from every sound state some steps of the worker remove it, by paying it if its target is another node that is a replica in the current view and by dropping it if not |
| `Delivery.CanPay` | tourillon/core/services/antientropy.py:917-947 | A debt in hand towards a replica can be captured, pushed and removed, and is paid then |
| `Delivery.CanDrop` | tourillon/core/services/antientropy.py:859-870 | A debt in hand towards this node or no replica can be dropped without delivery |
| `Delivery.LatestCovers` | tourillon/core/services/antientropy.py:917-947 | Where orders agree, the latest version of the address always pays the debt |
| `Delivery.InvertedOrdersBlockDelivery` | tourillon/core/services/antientropy.py:917-947 | With inverted node ids of different lengths the version looked up may be older than the debt |
| `Delivery.StopKeepsTrackIff` | tourillon/core/services/antientropy.py:424-436 | In a sound state, stopping keeps every debt in sight exactly when the worker rests, the backlog flag is up, or each debt left of the interrupted batch, or in hand, passed over or ahead of the interrupted reload, is queued or about to be |
| `Delivery.AcknowledgedIsPaid` | tourillon/core/services/antientropy.py:917-947 | An acknowledged push means the target holds a covering version or a newer one |
| `Delivery.PaidStays` | tourillon/core/services/antientropy.py:917-947 | Whatever the target stores or collects later, it stays paid |
| `Delivery.StopDuringReloadForgets` | tourillon/core/services/antientropy.py:424-436 | A run in which a stop in the middle of a reload meets neither condition and loses a debt from sight |
| `Obligations.SubmissionIsTracked` | tourillon/core/ae/obligations.py:65-88 | A submitted obligation is queued unless the queue overflowed, which raises the flag; what was queued stays, in order |
| `Obligations.ObligationQueue.Submit` | tourillon/core/ae/obligations.py:65-88 | New contents; the overflow count grows by the number of submitted obligations the queue does not hold afterwards, which raises the backlog flag; accepted ones are counted and wake the worker |
| `Obligations.RejectedAreMissing` | tourillon/core/ae/obligations.py:65-88 | What is turned away one by one for want of room is what the queue does not hold at the end |
| `Obligations.ObligationQueue.Take` | tourillon/core/ae/obligations.py:90-107 | The oldest debts leave the queue in order and count as in flight; the idle flag stays exact |
| `Obligations.ObligationQueue.Settle` | tourillon/core/ae/obligations.py:109-112 | Idle exactly when nothing is queued or in flight |
| `Codec.KeyRoundTrip` | tourillon/core/models/storageschema.py:176-205 | A key encodes exactly when its fields are within the limits, given in numbers, and decodes to itself whatever follows it, in both keyspaces |
| `Codec.ObligationRoundTrip` | tourillon/core/models/storageschema.py:257-274 | An obligation key decodes to what was encoded |
| `Codec.KeyBytesInjective` | tourillon/core/models/storageschema.py:176-188 | No two keys share a physical form |
| `Codec.PlacePrefix` | tourillon/core/models/storageschema.py:110-120 | A partition address prefixes a LOGS key exactly when pid and address are equal |
| `Codec.BucketBoundsExact` | tourillon/core/storage/session.py:594-607 | A TAGS key lies between bucket bounds exactly when its wall time is in the bucket |
| `Codec.ByteOrderIsHlcOrder` | tourlib/models/ts.py:57-70 | Encoded timestamps sort like timestamps, except exactly for pairs with inverted node ids |
| `Codec.ByteOrderInversionExists` | tourlib/models/ts.py:57-70 | A concrete pair that sorts the other way |
| `Codec.BytesWalker.WalkKey` | tourillon/core/models/storageschema.py:194-205 | The cursor walk reads what the parser specifies and moves past exactly that |
| `Codec.BytesWalker.Read` | tourlib/utils/buffer.py:30-42 | Reads the next bytes and moves on, or fails without moving |
| `Codec.BytesWalker.ReadField` | tourlib/utils/buffer.py:51-59 | Reads a length and then that many bytes |
| `Codec.BytesWalker.WalkAddress` | tourlib/models/version.py:76-81 | Reads namespace and key behind one-byte lengths |
| `Codec.BytesWalker.WalkTimestamp` | tourlib/models/ts.py:76-81 | Reads wall time, counter and node id |
| `Versions.PhysicalOrdersAgree` | tourlib/models/ts.py:57-70 | Byte order is time order on a set of versions exactly when no two of one address have inverted node ids |
| `Versions.PhysicalLayoutIsLawful` | tourillon/core/models/storageschema.py:176-188 | The codec gives every version its own place in each keyspace |
| `Clock.StampsIncrease` | tourillon/core/models/clock.py:37-88 | Over any run of ticks, updates and restores, whatever the wall clock says, each stamp exceeds all before it |
| `Clock.UpdateFollowsRemote` | tourillon/core/models/clock.py:74-92 | The stamp for an observed timestamp exceeds it, whichever node it came from |
| `Clock.AdvancesLeast` | tourillon/core/models/clock.py:37-92 | Each event takes the least reading later than all it has seen and no earlier than the wall clock |
| `Clock.NeverRunsAhead` | tourillon/core/models/clock.py:37-92 | Over any run the clock is at the latest time anybody told it, never beyond |
| `Clock.RestoreResumes` | tourillon/core/models/clock.py:52-63 | A restarted clock issues only stamps after the reading it was given |
| `Clock.StalledClockOverflows` | tourillon/core/models/clock.py:37-50 | Stamps stop fitting their two counter bytes exactly after that many ticks of a stalled clock |
| `Clock.TickFitsExactly` | tourillon/core/models/clock.py:37-50 | A tick fits its encoding exactly when time moved on or the counter has room |
| `Clock.UpdateFitsExactly` | tourillon/core/models/clock.py:74-92 | An update fits exactly when time moved past both sides or the counter it carries on has room |
| `Clock.FullRemoteOverflows` | tourillon/core/models/clock.py:74-92 | A remote stamp with a full counter, ahead of the wall clock, leaves no stamp that fits |
| `Clock.HlcClock.Tick` | tourillon/core/models/clock.py:37-50 | New state and strict increase |
| `Clock.HlcClock.Update` | tourillon/core/models/clock.py:74-92 | New state, strict increase, greater than the remote stamp |
| `Clock.HlcClock.Restore` | tourillon/core/models/clock.py:52-63 | Never moves back, and reaches the reading |
| `Partition.SegmentsFor` | tourillon/core/partition/partitioner.py:161-176 | Segments tile all partitions in ascending order exactly when the ring has one vnode or two different tokens, and each segment's pids are routed to its owner by the successor rule |
| `Partition.ArcsCountTheSpace` | tourillon/core/partition/partitioner.py:178-209 | The arcs count all partitions once exactly under the same condition |
| `Partition.SharedTokenOwnsNothing` | tourillon/core/partition/partitioner.py:199-206 | Two vnodes on one token own nothing, on any token |
| `Partition.RangesFor` | tourillon/core/partition/partitioner.py:145-159 | One range per vnode; on a separated ring it owns exactly the pids the successor rule routes to that vnode |
| `Partition.RangeOwnsRouted` | tourillon/core/partition/partitioner.py:189-209 | The arc arithmetic and the successor rule agree pid by pid |
| `Partition.InnerRange` | tourillon/core/partition/partitioner.py:42-56 | An arc between two vnodes is the pids from the first to just before the second |
| `Partition.OuterRange` | tourillon/core/partition/partitioner.py:42-56 | The wrapping arc is what precedes the first pid and what follows the last |
| `Partition.TilesCover` | tourillon/core/partition/partitioner.py:161-176 | In a tiling every pid lies in exactly one segment |
| `Ring.MergeSorted` | tourillon/core/spaces/ring.py:120-143 | Sorted, the same vnodes, and the first list first among equal tokens |
| `Ring.WithoutCounts` | tourillon/core/spaces/ring.py:85-87 | Dropping a node takes its vnodes and only those |
| `Ring.SortedUnique` | tourillon/core/spaces/ring.py:34-52 | Sorted rings of the same vnodes are equal when no two share a token |
| `Topology.RegistryConverges` | tourillon/core/gossip/registry.py:34-44 | Every order of the same records, repeats included, builds the same registry exactly when no node has two records at its greatest epoch |
| `Topology.RingConverges` | tourillon/core/gossip/topology.py:178-213 | Every order builds the same ring exactly when no two ring members claim one token |
| `Topology.SharedTokenDisagrees` | tourillon/core/gossip/topology.py:178-213 | Two ring members on one token: two orders of the same records, one registry, two rings |
| `Topology.AppliedAllCoherent` | tourillon/core/gossip/topology.py:163-213 | The ring always holds exactly the vnodes of members in ring phases, by token, and epochs never decrease |
| `Topology.RingShowsPhases` | tourillon/core/gossip/topology.py:177-213 | A vnode is in the ring exactly if its node is registered with that token and is joining, ready, paused or draining |
| `Topology.TopologyManager.Apply` | tourillon/core/gossip/topology.py:163-213 | Registry and ring after one record; true exactly when it was accepted and the ring changed or the node entered or changed a ring phase; false means unchanged ownership |
| `Topology.TopologyManager.ApplyMember` | tourillon/core/gossip/topology.py:94-106 | An unchanged generation means an unchanged ring with the same owner phases |
| `Topology.TopologyManager.MergeRegistry` | tourillon/core/gossip/topology.py:108-126 | The same for a whole merge, which counts the records that changed the ring or the phase of a member in it |
| `Gossip.Round` | tourillon/core/gossip/gossiper.py:536-646 | Digest, all delta pages, merge and push leave each side at the greatest-epoch join, and both equal exactly when records of equal epoch agree |
| `Gossip.JoinIsLeast` | tourillon/core/gossip/gossiper.py:536-573 | The join supersedes neither side, is the least such registry and invents no record |
| `Gossip.JoinsMeet` | tourillon/core/gossip/gossiper.py:536-573 | The two joins are equal exactly when ties agree |
| `Gossip.Delta` | tourillon/core/services/gossip.py:80-130 | Pages list in node order exactly the members ahead of the digest beyond the cursor, and what is wanted |
| `Gossip.Paginate` | tourillon/core/services/gossip.py:113-130 | Pages join up to the list; all but the last are full and announce their successor |
| `Gossip.Push` | tourillon/core/gossip/gossiper.py:595-631 | The responder ends at its own join with the sender |
| `Gossip.Pull` | tourillon/core/gossip/gossiper.py:546-564 | All pages are merged, and what the responder wants is collected |
| `Gossip.Accept` | tourillon/core/services/gossip.py:54-70 | Pushed members are merged one by one into the registry |
| `Gossip.Wants` | tourillon/core/services/gossip.py:72-78 | Exactly the nodes for which the digest is ahead, ascending |
| `Placement.ClosestOwn` | tourillon/core/ae/view.py:213-224 | A known node is an owner exactly when fewer than the replication factor other known nodes come before it clockwise |
| `Placement.Walk` | tourillon/core/ae/view.py:213-224 | The loop computes the owners of the walk |
| `Placement.PreferenceList` | tourillon/core/partition/placement.py:88-137 | Owners in walk order with the capabilities of their phase. A substitute is a READY live ring member that is no owner, stands in for one owner only, and only for one that is not READY or is suspected; such an owner goes without only when every READY live ring member is an owner or stands in for an earlier one. An empty ring has no list |
| `Placement.PreferredAreClosest` | tourillon/core/partition/placement.py:97-116 | A ring node is an owner exactly when it is registered, neither idle nor failed, and fewer than the replication factor others like it come before it clockwise |
| `Handoff.WritesGoWhereServed` | tourillon/core/services/store.py:1053-1079 | Every write goes to a READY live member, except to a suspected READY owner when no substitute is left; an owner has no write target only if it is not READY and none is left |
| `Placement.CollectOwners` | tourillon/core/partition/placement.py:97-116 | Owners, and the vnode at which the last was found |
| `Placement.IterFromSuccessor` | tourillon/core/spaces/ring.py:89-101 | Iteration from the successor vnode starts at its own index |
| `ReplicaMap.BuildView` | tourillon/core/ae/view.py:129-194 | The memoised build gives every pid the tuples of direct walks, exact ascending shared lists, and the owns flag |
| `ReplicaMap.ReplicasArePreferred` | tourillon/core/ae/view.py:129-194 | Target replicas are never draining, and equal the request path's owners exactly where none of those owners is |
| `ReplicaMap.SourcesArePreferred` | tourillon/core/ae/view.py:129-194 | Sources are never joining, and equal the request path's owners exactly where none of those owners is |
| `ReplicaMap.PairingInjective` | tourillon/core/ae/view.py:81-101 | Two entering nodes are paired with the same leaving node only if they are the same |
| `ReplicaMap.PrimarySource` | tourillon/core/ae/view.py:81-101 | A source other than the node itself whenever there is one, and the paired one for a paired joiner; with as many nodes leaving as entering, every joiner copies from one that leaves |
| `Handoff.WritesReachReplicas` | tourillon/core/partition/placement.py:88-164 | While members only drain, the write targets of a partition are exactly its target replicas |
| `Handoff.OutsidersInOrder` | tourillon/core/partition/placement.py:139-164 | The candidate walk resumed at the last owner meets outsiders in the order of the original walk |
| `Quorum.QuorumExactly` | tourillon/core/services/store.py:244-303 | Reads that hear given nodes are fresh after every write acknowledged for W owners exactly when W and the owners whose write target is heard are more than the owners that can be written |
| `Quorum.QuorumIntersection` | tourillon/core/services/store.py:244-303 | The usual quorum suffices: W acknowledged owners and R owners all of whose sources answered, W + R above the number of preferences, handoffs included |
| `Quorum.RunReaches` | tourillon/core/services/store.py:274-303 | Whatever a replica stores, absorbs or collects later, it keeps the acknowledged version or a newer one |
| `Quorum.HearingOneSuffices` | tourillon/core/services/store.py:1304-1330 | Hearing one node the write reached is enough |
| `Quorum.UnheardMayMiss` | tourillon/core/services/store.py:1304-1330 | If none of the write targets of the acknowledged owners answers, some stores make the read find nothing |
| `Quorum.HeardMeansFresh` | tourillon/core/services/store.py:1304-1330 | If one of them answers, the elected version is at least as new |
| `Quorum.FailedHandoffHidesWrite` | tourillon/core/services/store.py:785-795 | One owner under handoff: acknowledged through the handoff, counted although only the owner answers, W + R above the owners, and the read elects nothing |
| `Quorum.CountedSettle` | tourillon/core/services/store.py:785-795 | While no source fails, counted owners are exactly those whose sources all answered |
| `Quorum.ReadResponseCount` | tourillon/core/services/store.py:785-795 | The number of owners that answered if they can be read, or whose substitute did, with neither still awaited |
| `Quorum.CountedAreResponded` | tourillon/core/services/store.py:785-795 | The same as a set of owners |
| `Quorum.SelectVersion` | tourillon/core/services/store.py:1304-1330 | The version of greatest rank, and how many replicas hold it |
| `Quorum.WriteTargetIsSource` | tourillon/core/services/store.py:1053-1079 | Reads ask the node that a write for the same owner went to |
| `Quorum.PreferencesSensible` | tourillon/core/partition/placement.py:118-135 | Preference lists make every writable owner readable |
| `Pool.EveryRunIsSafe` | tourillon/core/peer/pool.py:139-283 | In every state of every run the tiers are disjoint and bounded, recency covers exactly the permanent peers, leases equal the counts kept, no leased client is closed and no open client is lost |
| `Pool.NoClientLeaks` | tourillon/core/peer/pool.py:139-283 | Every client ever opened is closed and used by nobody, or open and used by exactly one pooled peer |
| `Pool.StepKeepsGood` | tourillon/core/peer/pool.py:104-470 | Every acquisition, release, expiry and promotion keeps that |
| `Pool.AcquiredGrants` | tourillon/core/peer/pool.py:139-186 | Every way to acquire keeps that, adds exactly one lease on a client of the address asked for, or refuses and changes no lease |
| `Pool.ReleasedGood` | tourillon/core/peer/pool.py:235-272 | Giving back what is held, or what the pool no longer knows, keeps it |
| `Pool.LeasedStaysOpen` | tourillon/core/peer/pool.py:235-283 | A held client is open and counted by its peer |
| `Pool.PromotingGood` | tourillon/core/peer/pool.py:455-470 | Promotion keeps it |
| `Pool.ExpiringGood` | tourillon/core/peer/pool.py:397-453 | Expiry keeps it |
| `Pool.PeerPool.Acquire` | tourillon/core/peer/pool.py:104-186 | An unknown peer is refused. Otherwise a client is refused exactly when a pooled peer moved and still has older leases, the connection fails, or no slot is free, none can be freed and the reserve does not help; other pooled peers stay as they are, except for one idle permanent peer, the least recent, when all slots are taken |
| `Pool.AcquiredUnlessRefused` | tourillon/core/peer/pool.py:139-186 | That condition for the specified acquisition, and that a new connection is made only for a new peer or a new address |
| `Pool.AcquiredKeeps` | tourillon/core/peer/pool.py:139-186 | Who may be evicted, and that nobody else is touched |
| `Pool.AcquiredPlaces` | tourillon/core/peer/pool.py:148-186 | A new peer is permanent if a slot is free or freed, overflow if only that is free, in reserve otherwise |
| `Pool.AcquiredIsRecent` | tourillon/core/peer/pool.py:343-388 | A permanent peer that was granted is the most recent one |
| `Pool.AcquiredKeepsOrder` | tourillon/core/peer/pool.py:139-186 | The order of recency of the others stays |
| `Pool.PeerPool.Release` | tourillon/core/peer/pool.py:235-283 | One lease less, and no other peer changes; the client is closed exactly with its last lease, unless it is the current one of a peer the pool keeps |
| `Pool.ReleasedDrops` | tourillon/core/peer/pool.py:235-272 | The peer leaves the pool exactly if it is ephemeral and this was its last lease |
| `Pool.ReacquiredGrants` | tourillon/core/peer/pool.py:343-388 | Leasing a pooled peer keeps the pool sound: one more lease on a client of the address asked for, or a refusal while leases on an older address remain or the connection fails |
| `Pool.PeerPool.IdleLru` | tourillon/core/peer/pool.py:217-225 | The first peer in recency order that nobody uses |
| `Pool.PeerPool.RemoveExpired` | tourillon/core/peer/pool.py:397-453 | Drops exactly the idle stale permanent peers when the pool is above its minimum; no lease and no other tier changes |
| `Pool.PeerPool.TryPromote` | tourillon/core/peer/pool.py:455-470 | Ends with the permanent tier full or no overflow left; no promoted peer is more inactive than one left behind |
| `Plan.EachPairOnce` | tourillon/core/services/antientropy.py:302-334 | Two nodes with one replica map carry each shared pid in exactly one session of exactly one of their plans |
| `Plan.SweepPlan` | tourillon/core/services/antientropy.py:318-334 | Units within the cycle size; sessions carry exactly the initiated shared pids once, and handover spans tile all partitions |
| `Plan.SpansCover` | tourillon/core/services/antientropy.py:329-332 | Every pid lies in exactly one handover span |
| `Plan.OneInitiates` | tourillon/core/services/antientropy.py:302-315 | Of two nodes exactly one initiates, the smaller one for an even pair |

## Left out

- The storage engine, its batches and executors, and crash recovery: the storage port's contract stands in for them.
- Wire envelopes, TLS, sockets, the command line, configuration, telemetry and logging.
- Failure detection (phi accrual, probing) and all timers, jitter and backoff: liveness and delays are arbitrary.
- The byte form of digest cells and the wrap-around of their count at 2^64.
- Record byte sizes other than the size function batching uses; the byte accounting of removals is not modelled.
- The responder's admission slots, its view hash check and its refusals: a refused request is one that gets no answer.
- Sessions over many pids (roots pages), the note of recent versions, and cutoffs that move between chained sessions.
- A pid at the very top of its four bytes or a cutoff bucket at the top of eight bytes, where the source's bounds overflow.
- Cancellation between a commit and the submission of its obligations: the delivery machine has the state, but not the lost task.
- The joining and draining passes around sessions, source fallback, and the collector's dry run and status.
- The pool's shutdown, its size gauges and its failure detectors; expiry of overflow and reserve peers, which are never idle in a sound pool.
- The member fingerprint, relaying of pushes and hop limits in gossip.
- Read repair, tombstone answers, repair tokens and inspection paging.
- `latest_hlc`, whose reverse scan is not ordered by time; the clock lemmas start from whatever reading it is given.
- Placement.Walk: uses conditional subtraction for the index around the ring; `WrapIsRemainder` shows it is the remainder.
