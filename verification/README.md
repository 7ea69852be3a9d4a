# dnsplane: models and proofs

dnsplane is a DNS resolver and record server written in Go. Several nodes can share one set of local
records by exchanging full snapshots; each node answers queries from those records, from a cache, and
from upstream servers. This project models the parts of it whose behaviour depends on order, time or
interleaving, and proves what they keep over every run:

* **Cluster record sync** (`ClusterState`, `ClusterNode`, `Convergence`, `PerSender`, `ClusterWorld`, `Interleaving`,
  `PushOrder`, `ClusterManager`, `Frames`). Snapshots handled one at a time: replicas under `global_lww` agree for every
  two delivery orders *exactly when* the newest stamp cannot be shadowed by an older snapshot with a larger sequence
  number (`Convergence.ConvergesIff`); under `lww_per_node` and `primary_writer` *exactly when* all senders' last
  snapshots carry the same records (`PerSender.LastsDecideIff`). From an empty network, through any run of the cluster,
  replicas without local writes or pulls of their own that were handed the same pushes agree if each sender's clock moves
  between its pushes (`ClusterWorld.ReplicasAgree`), or, without any clocks, if there is one writer
  (`ClusterWorld.OneWriterReplicasAgree`); replicas that do pull agree if the condition holds of what they handled
  (`ClusterWorld.HandledAlikeAgree`). Applying a peer's snapshot starts no push
  (`ClusterManager.Manager.HandleSnapshot`, from the skip flag) and a draining cluster falls silent
  (`ClusterWorld.Quiesces`). Connection handlers and local writers overlapping at one node: exactly when no peer's
  records are echoed (`Interleaving.EchoFreeIff`), no local write loses its push (`Interleaving.LossFreeIff`), the stamp
  never falls (`Interleaving.StampNeverFallsIff`), and the records always belong to the stamp
  (`Interleaving.ConsistentIff`). Pushes overlapping at one node: exactly when their numbers follow their records and
  times (`PushOrder.InOrderIff`).
* **The cache** (`RRSetCodec`, `LookupIndex`, `Cache`, `CacheFill`, `CacheRuns`, `Served`, `ResolverData`). Indexed
  lookups equal linear scans, compaction is invisible to fresh lookups, every run of fills and compactions
  keeps the rows distinct, and an answer that is stored is the answer that is read, with exactly the time it has left
  (`CacheRuns.StoreThenRead`, `CacheRuns.StoreSingleThenRead`).
* **The resolver race** (`Race`). Any arrival order gives the documented priority, and the loop decides at the
  first prefix that determines the outcome, no later (`Race.SettledIff`).
* **Upstream selection and health** (`Upstreams`, `Selection`, `Health`), **rate limiters** (`TokenBucket`,
  `ResponseWindow`), **the record store** (`Records`) and **the live dashboard** (`Dashboard`).

`Text` and `Search` hold the string and list operations the others share. `Served` and `Selection`, and the lemmas
whose names end in `Meaning`, say what the methods give in terms of rows, spellings, times and positions alone.

Objects whose methods change fields are classes (`StateManager`, `Manager`, `DNSResolverData`, `Stream`,
`UpstreamHealthTracker`, `PerIP`, `SlidingWindow`, `DashboardLive`), each method tied to a function of the old
state; the theorems are about those functions. Loops of the source are loops here. Calls into the DNS library,
validators, generated ids, random ids, clocks and the success of file writes are parameters.

## What does not hold, and when it does

Some properties one might expect are false of the code. Each has a lemma with failing inputs and an exact condition.

* Convergence under `global_lww` fails for two pushes of one node in the same second
  (`Convergence.SameSecondDiverges`); it holds if and only if the top stamp survives (`Convergence.ConvergesIff`).
* Overlapping handlers can echo a peer's records (`Interleaving.OverlapEchoes`, `Interleaving.EchoFreeIff`), lower the
  stamp (`Interleaving.StampCanFall`, `Interleaving.StampNeverFallsIff`), and leave one snapshot's stamp with another's
  records (`Interleaving.StampAndRecordsMix`, `Interleaving.ConsistentIff`).
* Two writers under `lww_per_node` can leave replicas different (`PerSender.TwoWritersDiverge`,
  `PerSender.LastsDecideIff`).
* Two pushes of one node that overlap can send the newest records under the smaller number, with the later time
  (`PushOrder.OverlapMisorders`, `PushOrder.InOrderIff`); replicas under `lww_per_node` then keep
  the older records (`PushOrder.NewestRecordsLost`).
* A local write made while a handler has the skip flag raised is never pushed (`Interleaving.WriteLosesPush`,
  `Interleaving.LossFreeIff`).
* The loop over the TTLs of a whole answer finds their minimum only if no TTL is zero or the last one is
  (`CacheFill.LeadingZeroForgotten`, `CacheFill.FoldTTLIsMinIff`); the stored TTL is the floored minimum also when the
  floor hides the difference (`CacheFill.SetTTLIsMinIff`).
* With stale serving on, an expired whole answer beats a live single record (`Cache.ExpiredWholeBeatsLiveSingle`;
  `Cache.StaleOnlyPerKind` says exactly when stale answers are served).
* Index keys join name and type with a NUL character, so they are not injective (`Cache.NulCollision`); two keys collide
  if and only if one pair straddles the other (`Cache.KeysCollideIff`), which a query without NUL rules out for every
  table (`Cache.KeysCompareParts`).
* Canonicalising a name is not idempotent: `"a. ."` loses its dots in two rounds. Adding a record and removing it by
  the same words restores the table if and only if one round settles the name (`Records.DottedNameStays`,
  `Records.AddThenRemoveIff`).
* Adding with update may hand out an id another row holds (`Records.UpdateCanStealId`, `Records.AddKeepsIdsIff`); the
  callers pass a blank id.
* After health filtering, background refresh can query endpoints the foreground does not
  (`Health.RefreshKeepsAskingPrimary`, `Health.FilteredContainmentIff`).
* If an upstream result is dropped because the context ends, the race may wait for ever (`Race.DroppedResultWaits`;
  `Race.Decide` says exactly when).

The documentation of `MinCacheTTLSeconds` (config/config.go:169-171) says that 0 disables the floor. The code uses 600
seconds then (resolver/resolver.go:492-495 and 561-564); the model follows the code.

## Model

| member | source | states |
|---|---|---|
| `ClusterState.StateManager.constructor` | cluster/state.go:43-57 | a node without a state file starts with the trimmed configured id, or a generated one, number 0, no peer entries and the lowest stamp |
| `ClusterState.StateManager.NextLocalSeq` | cluster/state.go:106-112 | one more than the last number, or 0 where the 64-bit counter wraps, becomes the node's number and is returned |
| `ClusterState.StateManager.IsDuplicate` | cluster/state.go:123-133 | not a duplicate iff it names a sender and its number is above the sender's entry, where 0 counts as 1 |
| `ClusterState.StateManager.CommitPeerSeq` | cluster/state.go:136-149 | raises the sender's entry to the number (0 counts as 1), and no entry falls or changes otherwise |
| `ClusterState.StateManager.ShouldAcceptGlobalLWW` | cluster/state.go:158-175 | accepts iff nothing was accepted before, the second is later, or it is the same second and the id comes after the last one: at the first position where the ids part the last one ends or has the smaller character |
| `ClusterState.StateManager.CommitGlobalLWW` | cluster/state.go:177-187 | the stamp becomes the snapshot's second (at least 1) and trimmed id; nothing else changes |
| `ClusterState.WriterAllowed` | cluster/policy.go:33-44 | the loop finds exactly the trimmed, non-blank ids of the list |
| `ClusterState.ShouldApplySnapshot` | cluster/policy.go:48-74 | the decision per policy in terms of the settings, the last stamp and the snapshot, and each refusal reason exactly for its case |
| `ClusterState.BeforeTransitive` | cluster/state.go:158-175 | the stamp order is transitive (Go's byte-wise string order included) |
| `ClusterState.BeforeTotal` | cluster/state.go:158-175 | the stamp order is total, irreflexive and asymmetric |
| `ClusterState.FreshIsLowest` | cluster/state.go:158-175 | every snapshot is accepted by a node that has seen none |
| `ClusterNode.ReceiveStep` | cluster/cluster.go:644-675 | what one snapshot can change: entries only grow, records change only on apply and are then the snapshot's, the sender's entry and the stamp strictly grow at an apply, refusals leave records and stamp alone |
| `ClusterNode.ReceiveMeaning` | cluster/cluster.go:644-675 | what one snapshot does, field by field: a seen one changes nothing; a new one is remembered by its number even if the policy turns it away; the store takes the records of one that is let in, names canonicalised, unless it is read-only, and under global_lww its stamp is kept |
| `ClusterNode.DeniedTouchesOnlySequences` | cluster/policy.go:53-61 | under primary_writer an unlisted writer's snapshot changes nothing but its own sequence entry |
| `ClusterNode.ReceivedSeqs` | cluster/state.go:136-149 | along every serial run no peer entry falls |
| `ClusterNode.AppliedSeqsIncrease` | cluster/state.go:123-149 | each sender's applied numbers strictly increase in every run, under every policy |
| `Convergence.MaximaAll` | cluster/state.go:136-149 | under every policy each entry ends as the largest normalised number among the sender's snapshots |
| `Convergence.PeerSeqsAgree` | cluster/state.go:136-149 | sequence maps always agree, under every policy, for any two orders with any repeats |
| `Convergence.EndsAtTop` | cluster/state.go:158-187 | if the top stamp survives, every order ends with it and with its records |
| `Convergence.TopFirstWins` | cluster/state.go:158-187 | a replica that first sees a holder of the top stamp keeps it whatever follows |
| `Convergence.ShadowedOrderMisses` | cluster/cluster.go:648-666 | if every holder of the top stamp is shadowed, some order ends below the top stamp |
| `Convergence.OrdersThatDisagree` | cluster/cluster.go:644-673 | without a surviving top two orders of the same snapshots leave replicas different |
| `Convergence.ConvergesIff` | cluster/cluster.go:644-673 | all orders, with any repeats, give equal records, sequence maps and stamps if and only if the top stamp survives |
| `Convergence.ConvergesTo` | cluster/cluster.go:644-673 | and the common result is the top stamp with its records and each sender's largest number |
| `Convergence.NewestWins` | cluster/state.go:158-187 | a snapshot that outranks all others by second, then by id in dictionary order, and is its sender's latest, is what every order leaves, with any repeats |
| `Convergence.GreaterIdWins` | cluster/state.go:174-174 | of two nodes' snapshots from one second the greater id's records stay, whichever comes first |
| `Convergence.CanonicalKeeps` | data/data.go:656-668 | every record of a snapshot is stored in its place, with nothing but dots and blanks around its name removed |
| `Convergence.ClockOrderedConverges` | cluster/cluster.go:430-452 | if each sender's timestamps strictly increase with its numbers, every two orders agree |
| `Convergence.SameSecondDiverges` | cluster/state.go:174-174 | two pushes of one node in one second: the two orders give different records |
| `PerSender.TracedAll` | cluster/policy.go:48-74 | under lww_per_node and primary_writer a replica ends with the records of the last snapshot of some accepted sender, or keeps its own if none is accepted |
| `PerSender.LastCanStay` | cluster/policy.go:48-74 | every accepted sender's last snapshot is the one that stays in some order |
| `PerSender.LastsDecideIff` | cluster/policy.go:48-74 | all orders, with any repeats, leave two such replicas equal if and only if all accepted senders' last snapshots carry the same records (or none is accepted and they started equal) |
| `PerSender.SingleWriterSafe` | docs/clustering.md:39-39 | the promise of the default policy: one writer that uses each number once is safe |
| `PerSender.TwoWritersDiverge` | docs/clustering.md:39-39 | two writers with different records: some two orders leave replicas different |
| `ClusterWorld.NoEcho` | cluster/cluster.go:644-675 | in the cluster model a Deliver or Pull step starts no push and puts nothing on the wire, and a delivery takes exactly one packet off it |
| `ClusterWorld.DrainStep` | cluster/cluster.go:430-452 | every step of a draining cluster strictly uses up a measure made of pending pushes and packets |
| `ClusterWorld.Quiesces` | cluster/cluster.go:410-452 | so it takes at most that many steps, and without pending pushes each step removes one packet |
| `ClusterWorld.StopsOnlyWhenSilent` | cluster/cluster.go:410-452 | no step is left exactly when no push is pending and nothing is under way |
| `ClusterWorld.StampMovesOnlyForward` | cluster/state.go:158-187 | at every step of every global_lww run the stamp strictly grows to the applied snapshot's, and is unchanged otherwise; entries never fall |
| `ClusterWorld.StampNeverFallsInRun` | cluster/state.go:158-187 | over a whole run, cut anywhere, the stamp never falls |
| `ClusterWorld.StepNumbers` | cluster/cluster.go:430-452 | ids never change and only a push takes a number |
| `ClusterWorld.NodeIsItsLog` | cluster/cluster.go:550-577 | a node without local writes is exactly what its handled snapshots make of it, whatever the rest of the cluster does |
| `ClusterWorld.RecordsBelongToStamp` | cluster/cluster.go:550-577 | for any global_lww node, stamp and records are both those at the start or both those of one handled snapshot, as long as it makes no local writes, through push and pull alike |
| `ClusterWorld.HandledAlikeAgree` | cluster/cluster.go:550-577 | in any run, with any pulls and clocks, two fresh global_lww replicas without local writes that handled the same snapshots agree if the top stamp of those survives |
| `ClusterWorld.HandledAlikeAgreePerSender` | cluster/cluster.go:550-577 | likewise under the other policies, if the last snapshots handled agree |
| `ClusterWorld.LogStaysSound` | cluster/cluster.go:430-452 | along every run with room in the 64-bit counters no sender uses a number twice; with moving clocks numbers follow times |
| `ClusterWorld.HandledWerePushed` | cluster/cluster.go:430-452 | from an empty network, a node that does not pull handles only snapshots that were pushed, whatever the others do |
| `ClusterWorld.ReplicasAgree` | cluster/cluster.go:644-673 | end to end: from an empty network, any two fresh global_lww replicas without local writes or pulls of their own that were handed the same pushed snapshots agree, if each sender's clock moves between its pushes |
| `ClusterWorld.OneWriterReplicasAgree` | docs/clustering.md:39-39 | end to end under lww_per_node or primary_writer: the same without clocks, if all they were handed comes from one accepted writer |
| `Interleaving.Step` | cluster/cluster.go:648-673 | one critical section of one of the overlapping handlers or local writers (record replacement and flag read are separate, saves may fail); tasks and configuration stay |
| `Interleaving.SeqsNeverShrink` | cluster/state.go:136-149 | in every interleaving of handlers, cut anywhere, no peer entry falls |
| `Interleaving.SoundRun` | cluster/cluster.go:648-673 | in every interleaving only handlers live at the start ever store, and the stamp is the initial one or a live one's |
| `Interleaving.AloneIsReceive` | cluster/cluster.go:648-673 | a handler left alone for eight steps or more does exactly what the serial step does, without an echo |
| `Interleaving.AloneIsWrite` | data/data.go:356-368 | a local writer left alone replaces the records and loses no push, or changes nothing where local writes are not allowed |
| `Interleaving.EchoFreeIff` | data/data.go:656-668 | no schedule calls the notify callback for a peer's records if and only if a handler that can apply and save its snapshot is the only one with a snapshot to apply |
| `Interleaving.OverlapEchoes` | data/data.go:656-668 | any two live handlers, one of which can save, have a schedule in which the other lowers its skip flag too early |
| `Interleaving.StampNeverFallsIff` | cluster/state.go:177-187 | no schedule lowers the stamp if and only if all snapshots to be applied carry the same one |
| `Interleaving.StampCanFall` | cluster/state.go:177-187 | any two live handlers with different stamps have a schedule that commits them in the wrong order |
| `Interleaving.LossFreeIff` | data/data.go:644-668 | no schedule loses the push of a saved local write if and only if no write is accepted and saved or no handler has a snapshot to apply |
| `Interleaving.WriteLosesPush` | data/data.go:644-668 | any live handler and any accepted, saved local write have a schedule in which the write calls no callback |
| `Interleaving.ConsistentIff` | cluster/cluster.go:648-673 | in every schedule that ends with all handlers done the records are those of a live snapshot owning the stamp (or nothing was applied) if and only if every mixture of a live stamp and live records is itself a live snapshot |
| `Interleaving.StampAndRecordsMix` | cluster/cluster.go:659-672 | any two live handlers, among any number, have a schedule that ends with the stamp of one and the records of the other, all handlers done |
| `Interleaving.MixableIfShared` | cluster/cluster.go:659-672 | the condition holds when any two live snapshots share the stamp or the records |
| `Interleaving.TwoMixableIff` | cluster/cluster.go:659-672 | for two live handlers it holds if and only if they do |
| `PushOrder.AloneIsRunPush` | cluster/cluster.go:430-443 | a push left alone sends the next number with the current records and time, as the cluster's one step does |
| `PushOrder.InOrderIff` | cluster/cluster.go:430-443 | whatever is interleaved, larger numbers go with records and times that are no older if and only if there are no two pushes |
| `PushOrder.OverlapMisorders` | cluster/cluster.go:430-443 | any two pushes have an interleaving with one local write that sends the newest records under the smaller number with the later time |
| `PushOrder.NewestRecordsLost` | cluster/cluster.go:430-443 | a replica under lww_per_node that is handed both, in any order, ends with what the writer had before its last write |
| `PushOrder.NoOverlapInOrder` | cluster/cluster.go:430-443 | pushes that do not overlap are in order, whatever local writes fall in between |
| `ClusterManager.Manager.constructor` | cluster/cluster.go:53-64 | state, record store and settings make up one node of the model, with no push pending |
| `ClusterManager.Manager.NotifyLocalRecordsChanged` | cluster/cluster.go:410-428 | starts a push exactly when the node is enabled, has peers and a token, and is neither replica-only nor read-only |
| `ClusterManager.Manager.RunCallbacks` | data/data.go:78-85 | the registered callback runs once for every call the store has made |
| `ClusterManager.Manager.WriteRecords` | data/data.go:356-368 | a local write with its callback is the cluster's LocalWrite step: the records become those written exactly if writing is allowed, and a push is started exactly when the callback was called and the settings allow it |
| `ClusterManager.Manager.HandleSnapshot` | cluster/cluster.go:644-675 | duplicate check, policy check, store with the skip flag raised, and commits are the cluster's Deliver or Pull step; the callback is not called, no push is started and the cache is untouched |
| `ClusterManager.Manager.ApplySnapshot` | cluster/cluster.go:644-675 | applied iff the snapshot is unseen, the policy permits it and the store is writable; then the records are the snapshot's, otherwise they stay |
| `ClusterManager.Manager.PullOnce` | cluster/cluster.go:493-577 | a pull is the cluster's Pull step: a disabled node or one without a token asks nobody, and a reply is handled like a push |
| `ClusterManager.Manager.PushToAllPeers` | cluster/cluster.go:430-452 | takes the next number and sends one packet to each peer in order, with the node's id, that number, the time and the current records: the cluster's RunPush step |
| `ClusterManager.Manager.PushRecordsToPeer` | cluster/cluster.go:260-290 | a push to one peer is the cluster's ManualPush step and its one packet is spelled out; a blank address fails only after the number is taken |
| `ClusterManager.Manager.SendCurrentSnapshot` | cluster/cluster.go:710-724 | answers a pull with the current number and a new time, taking no number |
| `Frames.Stream.WriteFrame` | cluster/proto.go:19-30 | refuses exactly oversized payloads, and otherwise appends length and payload |
| `Frames.Stream.ReadFrame` | cluster/proto.go:33-47 | reads the first frame, or fails for a short header, an oversized length or a short body having consumed what the source consumes |
| `Frames.BigEndianInverse` | cluster/proto.go:19-30 | decoding the four length bytes gives back every 32-bit length |
| `Frames.FromBigEndianInverse` | cluster/proto.go:33-47 | and encoding any four bytes' value gives back the bytes |
| `Frames.HeaderBytes` | cluster/proto.go:19-30 | the length bytes spell the length with the most significant one first |
| `Frames.FrameReadIff` | cluster/proto.go:33-47 | a frame is read iff the bytes start with such a header and as many bytes as it spells, at most 64 MiB |
| `Frames.RoundTrip` | cluster/proto.go:19-47 | a written frame is read back whatever follows it |
| `Frames.ReadOnlyWhatWasWritten` | cluster/proto.go:33-47 | a frame that is read is exactly an encoding followed by the rest |
| `Frames.WrittenIsRead` | cluster/proto.go:19-47 | a list of frames comes back as that list, trailing bytes unread |
| `Frames.ReadIsWritten` | cluster/proto.go:33-47 | reading n frames proves the stream starts with n encodings |
| `Frames.StreamRoundTrip` | cluster/proto.go:19-47 | reading gives this list and this rest if and only if the stream is the encoding of the list followed by the rest |
| `RRSetCodec.BuildRRSetCacheValue` | data/lookup_index.go:21-29 | the buffer loop builds the marker followed by one line a record |
| `RRSetCodec.ParseRRSetCacheValue` | data/lookup_index.go:31-53 | the line loop decodes, skipping blank lines and failing on any bad line or an empty result |
| `RRSetCodec.ClipRRSetTTLs` | data/lookup_index.go:55-71 | the clip loop: 1 for stale, otherwise the smaller of own and remaining, at least 1 |
| `RRSetCodec.DropTrailingSpace` | data/lookup_index.go:31-53 | trimming a value's end never changes what its lines decode to |
| `RRSetCodec.RoundTrip` | data/lookup_index.go:21-53 | decoding an encoded answer gives the same records in order, for records whose text is one line that parses back |
| `RRSetCodec.EncodedLines` | data/lookup_index.go:21-29 | the stored text is the marker line, then one line a record in order, each ended |
| `RRSetCodec.ParsedLines` | data/lookup_index.go:31-53 | one bad line spoils the whole; otherwise the records are those of the lines that are not blank, in order |
| `RRSetCodec.DecodeMeaning` | data/lookup_index.go:31-53 | a value decodes iff it has the marker, some other line is not blank and no line is bad |
| `LookupIndex.BuildIndex` | data/lookup_index.go:78-97 | the index maps each key to exactly the ascending positions of its rows |
| `LookupIndex.FirstFresh` | data/lookup_index.go:110-155 | position of the first wanted live row |
| `LookupIndex.Scan` | data/lookup_index.go:125-152 | one lookup loop, carrying the first expired row, computes first live or else first expired |
| `LookupIndex.IndexedHit` | data/lookup_index.go:110-155 | the indexed loop followed by the loop over all rows equals one linear scan by key: the second loop contributes nothing |
| `LookupIndex.PickedFresh` | data/lookup_index.go:110-155 | scanning a key's listed positions is scanning all rows for that key |
| `Cache.JoinsCollideIff` | data/lookup_index.go:73-75 | joining with NUL identifies two different pairs of strings if and only if one straddles the other |
| `Cache.KeysCollideIff` | data/lookup_index.go:73-75 | exactly when one index key stands for two different pairs of name and type |
| `Cache.KeysCompareParts` | data/lookup_index.go:73-75 | a query whose name and type have no NUL matches a row by key iff it does by name and by type, whatever the row holds |
| `Cache.NulCollision` | data/lookup_index.go:73-75 | two concrete pairs of name and type with one key |
| `Cache.LocalLookupIsScan` | data/lookup_index.go:238-260 | for queries without NUL the indexed local lookup is the linear FindAllRecords, whatever the table holds |
| `Cache.CacheLookupIsScan` | data/lookup_index.go:110-227 | and the indexed cache lookups are linear scans by name and type, whatever the cache holds |
| `Cache.Unexpired` | data/cache_compact.go:23-53 | keeps exactly the rows whose expiry lies after now |
| `Cache.UnexpiredInOrder` | data/cache_compact.go:23-53 | each of them once, in order and unchanged |
| `Cache.CompactionKeepsFresh` | data/cache_compact.go:23-53 | compacting at t changes no search for a live row at any later time |
| `Cache.CompactionInvisible` | data/cache_compact.go:23-53 | so every non-stale single-record and whole-answer lookup at the same or a later time is unchanged |
| `Cache.StaleOnlyPerKind` | data/lookup_index.go:266-298 | exactly when a stale whole answer and exactly when a stale single record is served |
| `Cache.ExpiredWholeBeatsLiveSingle` | data/lookup_index.go:287-293 | an expired whole answer is served although a live single record is there |
| `CacheFill.Add` | dnsrecordcache/dnsrecordcache.go:32-92 | the first row with the same name, type and value is renewed in place, keeping all but TTL, expiry and last use, or one is appended; it lives from now for exactly its own TTL or the floor, whichever is longer; every other row stays |
| `CacheFill.CacheDNSResponse` | resolver/resolver.go:553-571 | adds every record of the reply, if caching is on |
| `CacheFill.StoreSet` | resolver/resolver.go:522-543 | replaces the whole-answer row of the question in place or appends it |
| `CacheFill.AnswerTTL` | resolver/resolver.go:496-508 | the fold loop and the floor |
| `CacheFill.CacheSyntheticRRSetAnswer` | resolver/resolver.go:484-544 | the encoded answer takes the place of the first whole answer for the question's name, in any spelling, and type, and keeps its creation time, or is appended; unless caching is off or the answer empty |
| `CacheFill.CacheUpstreamAnswer` | resolver/resolver.go:546-551 | single rows, then the whole answer where the question calls for it |
| `CacheFill.MinTTL` | resolver/resolver.go:496-502 | an attained lower bound of the TTLs, the reference for the fold |
| `CacheFill.FoldTTLMeaning` | resolver/resolver.go:496-502 | the fold is the smallest TTL after the last zero, and zero if that comes last |
| `CacheFill.SetTTLMeaning` | resolver/resolver.go:503-508 | a whole answer is stored for exactly that or the floor, whichever is longer |
| `CacheFill.FloorMeaning` | resolver/resolver.go:492-495 | the floor for every setting: none if negative, ten minutes for 0, otherwise the setting, cut off at 32 bits |
| `CacheFill.FoldTTLIsMinIff` | resolver/resolver.go:496-502 | the fold is that minimum if and only if all TTLs are positive or the last is zero, and is zero iff the last is |
| `CacheFill.LeadingZeroForgotten` | resolver/resolver.go:496-502 | a zero before a positive TTL is forgotten |
| `CacheFill.SetTTLIsMinIff` | resolver/resolver.go:496-508 | the stored TTL is the floored minimum if and only if all TTLs are positive, the last is zero, or the fold is not above the floor |
| `CacheRuns.FillFacts` | resolver/resolver.go:484-571 | a fill keeps rows distinct, gives every written row at least the floor's lifetime and leaves the others alone |
| `CacheRuns.FillCovers` | resolver/resolver.go:546-571 | after a fill its rows are present |
| `CacheRuns.FilledLifetimes` | resolver/resolver.go:546-571 | after a fill each record of the answer (the last one of its exact key) has a row that lives from now for exactly its own TTL or the floor, whichever is longer |
| `CacheRuns.FillKeepsWholeIff` | resolver/resolver.go:467-482 | there is a whole answer for the question afterwards iff there was one, or the type is one of the four and the answer has several records or a single alias |
| `CacheRuns.FillGrowsIff` | resolver/resolver.go:546-571 | a fill leaves the size unchanged if and only if everything it writes has a row |
| `CacheRuns.RunKeepsTidy` | resolver/resolver.go:484-571 | any run of fills and compactions keeps exact keys distinct and one whole-answer row per question |
| `CacheRuns.RefillNeverGrows` | dnsrecordcache/dnsrecordcache.go:54-91 | refilling an answer never grows the cache, whatever was filled in between and whatever compactions ran before the floor's lifetime was over |
| `CacheRuns.OneSetPerKey` | data/lookup_index.go:158-227 | a lookup key has at most one decodable whole-answer row |
| `CacheRuns.StoreThenRead` | data/lookup_index.go:266-298 | after a fill, any fills of other questions and any compactions, a lookup before expiry under any spelling gives the same records in order, not stale, each TTL being the smaller of its own and the whole seconds left, at least 1 |
| `CacheRuns.StoreSingleThenRead` | data/lookup_index.go:110-155 | likewise for a single record: any lookup before it expires gives the record with the whole seconds left of its lifetime, rounded down |
| `ResolverData.DNSResolverData.constructor` | data/data.go:639-683 | a new store has matching indexes and the skip flag down |
| `ResolverData.DNSResolverData.StoreRecords` | data/data.go:639-652 | replaces records and index together; the callback runs exactly on a persisted, saved store with the flag down |
| `ResolverData.DNSResolverData.UpdateRecords` | data/data.go:356-368 | refuses exactly when local writes are rejected or the source is read-only |
| `ResolverData.DNSResolverData.ApplyClusterRecords` | data/data.go:656-668 | stores canonical names without calling the callback and leaves the flag down |
| `ResolverData.DNSResolverData.LookupLocalNonPTR` | data/lookup_index.go:238-260 | the indexed loop gives the parsable records of the name and type, in any spelling, in order, each with its own TTL |
| `ResolverData.DNSResolverData.StoreCacheRecords` | data/data.go:670-683 | replaces cache rows and index together |
| `ResolverData.DNSResolverData.CacheAnswer` | resolver/resolver.go:546-551 | a fill against the store keeps its index right |
| `ResolverData.DNSResolverData.CompactExpiredCacheRecords` | data/cache_compact.go:23-53 | keeps exactly the unexpired rows in order; removed and kept add up; the index stays right |
| `ResolverData.DNSResolverData.LookupCacheRR` | data/lookup_index.go:110-155 | both loops equal one scan: the first live single row for the name and type, read with the whole seconds left, else, if allowed, the first one, read with TTL 1 and marked stale |
| `ResolverData.DNSResolverData.LookupRRSetCache` | data/lookup_index.go:158-227 | both loops equal one scan for the types served whole: the first live decodable answer with its TTLs shortened to the time left, else, if allowed, the first one with TTLs of 1, marked stale |
| `ResolverData.DNSResolverData.TryFastLocalOrCache` | data/lookup_index.go:266-298 | local records, then the whole answer, then the single record, each as above and only where its setting is on |
| `ResolverData.FindAllRecords` | dnsrecords/dnsrecords.go:667-728 | the linear search gives the parsable matching records in order |
| `Served.SingleServed` | data/lookup_index.go:110-155 | what a single-record lookup serves, in terms of rows, spellings and times alone |
| `Served.WholeServed` | data/lookup_index.go:158-227 | what a whole-answer lookup serves, likewise |
| `Served.LocalServed` | data/lookup_index.go:238-260 | what the local lookup and the linear search serve, likewise |
| `Served.FastServed` | data/lookup_index.go:266-298 | what the fast path serves, likewise |
| `Race.Decide` | resolver/resolver.go:298-385 | for every arrival order, in terms of the arrivals alone: the local records if there are any, else the cached record, else the first reply that did not fail, has code 0 and an answer, else nothing; reached within 2 + n receives and at the first prefix that settles it; it waits for ever iff a result was dropped and nothing answered |
| `Race.Collect` | resolver/resolver.go:298-385 | the loop over the flags and first results stops exactly at the first settled prefix with that prefix's priority, and never uses up its receives undecided |
| `Race.SumMeaning` | resolver/resolver.go:298-385 | what is kept of the arrivals: the local and the cache result, and the first reply that did not fail, has code 0 and an answer |
| `Race.DroppedResultWaits` | resolver/resolver.go:291-294 | nothing local, nothing cached and the only upstream result dropped: nothing answers and the loop waits |
| `Race.SettledDecides` | resolver/resolver.go:298-385 | a settled prefix fixes the outcome whatever arrives later |
| `Race.SettledStays` | resolver/resolver.go:298-385 | what is settled stays settled |
| `Race.TwoFutures` | resolver/resolver.go:298-385 | an unsettled prefix has two continuations with different outcomes |
| `Race.SettledIff` | resolver/resolver.go:298-385 | so a prefix is settled iff all its completions agree: the loop decides as early as is possible |
| `Race.OrderOnlyPicksUpstream` | resolver/resolver.go:298-385 | reordering can change only which successful upstream is used, and only when neither local records nor cache had an answer |
| `Upstreams.ServerMatchesQuery` | dnsservers/dnsservers.go:90-114 | the loop over a row's whitelist finds exactly a covering entry (Selection.MatchesIff) |
| `Upstreams.CoversByLabels` | dnsservers/dnsservers.go:86-114 | an entry covers a name iff its labels are the name's last labels |
| `Upstreams.EndpointsOf` | dnsservers/dnsservers.go:119-149 | the selected endpoints are exactly those of the rows selected |
| `Upstreams.GetUpstreamEndpointsForQuery` | dnsservers/dnsservers.go:119-149 | matching rows if any row matches, otherwise the rows without a whitelist; active ones only (Selection.PrimariesInOrder says it of the rows' fields) |
| `Upstreams.EndpointInPrimaries` | dnsservers/endpoint.go:98-106 | address equal, transport equal up to case and space |
| `Upstreams.AppendPerServerFallbacks` | dnsservers/endpoint.go:109-135 | the seen-map loop refines a fold over the rows' fallback offers |
| `Upstreams.SelectForeground` | resolver/resolver.go:222-252 | primaries with row fallbacks, and the global fallback only when no active whitelist claims the name |
| `Upstreams.SelectBackground` | resolver/resolver.go:578-588 | primaries, or the global fallback when there are none |
| `Upstreams.FallbacksFromSharers` | dnsservers/endpoint.go:109-135 | primaries come first; everything else is the fallback of a row sharing a primary's endpoint |
| `Upstreams.SharersAreKept` | dnsservers/endpoint.go:109-135 | a health key is present iff a primary or a sharing row's fallback has it |
| `Upstreams.FallbackKeysNew` | dnsservers/endpoint.go:109-135 | no added fallback repeats a key |
| `Upstreams.WhitelistClaims` | dnsservers/dnsservers.go:119-149 | when an active row covers the name, exactly the active covering rows are primaries |
| `Upstreams.WhitelistIsExclusive` | resolver/resolver.go:222-252 | then all their endpoints are queried, nothing but those and the fallbacks of rows sharing them, and the global fallback settings have no influence |
| `Upstreams.InactiveMatchLeavesFallback` | resolver/resolver.go:222-252 | when only inactive rows cover the name, the configured global fallback is the only endpoint, in both paths |
| `Upstreams.BackgroundWithinForeground` | resolver/resolver.go:578-588 | background refresh queries no endpoint the foreground would not |
| `Selection.RowStandsFor` | dnsservers/endpoint.go:36-69 | the endpoint of a row: the URL for doh, otherwise the trimmed address and port, brackets around an address with a colon, port 853 for dot and 53 otherwise if none is given; unknown transports count as udp |
| `Selection.RowFallbackStandsFor` | dnsservers/endpoint.go:72-95 | a row has a fallback iff a fallback address or URL is given; it uses the row's transport and port 53 where its own are blank |
| `Selection.GlobalStandsFor` | dnsservers/endpoint.go:138-164 | the global fallback's endpoint: its own transport, doh counting as udp, and port 53 read as 853 for dot |
| `Selection.PortsTellApart` | dnsservers/endpoint.go:36-69 | rows with one address and different ports are different endpoints |
| `Selection.MatchesIff` | dnsservers/dnsservers.go:86-114 | a row claims a name iff one of its entries, dots and blanks aside and in any case, is the name or follows a dot in it |
| `Selection.PrimariesInOrder` | dnsservers/dnsservers.go:119-149 | the primaries are the endpoints of exactly the chosen rows, one each, in order |
| `Selection.FallbacksInOrder` | dnsservers/endpoint.go:109-135 | behind the primaries come, in the order of the rows, exactly the fallbacks of rows that share a primary's endpoint and are the first with a key no primary has |
| `Selection.OffersMeaning` | dnsservers/endpoint.go:109-135 | each row offers its own endpoint and its fallback |
| `Selection.ForegroundMeaning` | resolver/resolver.go:222-252 | the global fallback is asked last, iff it is configured, no active row claims the name and its key is new |
| `Selection.BackgroundMeaning` | resolver/resolver.go:578-588 | the refresh asks the primaries, or the configured global fallback alone if there are none |
| `Health.UpstreamHealthTracker.constructor` | data/upstream_health.go:28-31 | a new tracker knows no key |
| `Health.UpstreamHealthTracker.RecordForwardSuccess` | data/upstream_health.go:62-73 | a success clears the key's entry |
| `Health.UpstreamHealthTracker.ProbeFail` | data/upstream_health.go:81-99 | one more failure; reports the step that makes the key unhealthy |
| `Health.UpstreamHealthTracker.FilterHealthyUpstreamEndpoints` | data/upstream_health.go:150-180 | the healthy endpoints in order, or the whole list if there are none or checks are off |
| `Health.UnhealthyIffStreak` | data/upstream_health.go:62-99 | after any events a key is unhealthy iff its failures since its last success reach the threshold |
| `Health.ReportedOncePerStreak` | data/upstream_health.go:81-99 | the transition is reported at exactly the failure that reaches the threshold |
| `Health.BlankKeyIgnored` | data/upstream_health.go:62-99 | no run of events ever enters a blank key |
| `Health.UsableMeaning` | data/upstream_health.go:150-180 | with checks off or everything down all endpoints pass, otherwise exactly those whose trimmed address is not marked, in order |
| `Health.FilteredContainmentIff` | data/upstream_health.go:150-180 | after filtering, background stays within foreground iff it is empty, has a healthy endpoint, or the foreground has none |
| `Health.RefreshKeepsAskingPrimary` | resolver/resolver.go:578-588 | with the only primary down and a healthy global fallback, the foreground asks the fallback and the refresh the primary |
| `TokenBucket.PerIP.constructor` | ratelimit/ip.go:27-37 | a burst below 1 becomes 1; the table is empty and limited to 10000 |
| `TokenBucket.PerIP.Allow` | ratelimit/ip.go:40-74 | host part and blank client normalised, then refill, cap and spend, or fail open for a new client of a full table; no other client's bucket changes |
| `TokenBucket.StepSound` | ratelimit/ip.go:40-74 | tokens stay within 0 and the burst, and the table within its limit |
| `TokenBucket.PatientClientAdmitted` | ratelimit/ip.go:62-73 | a client that waits for one token is admitted |
| `TokenBucket.RateBound` | ratelimit/ip.go:40-74 | between any two calls a client with an entry is admitted at most burst + rps * elapsed seconds times |
| `TokenBucket.RefusedOnlyAtLimit` | ratelimit/ip.go:40-74 | and the limit is used in full: a refused client has been admitted more than burst + rps * elapsed seconds - 1 times since some call that found its bucket full |
| `TokenBucket.BurstAdmitted` | ratelimit/ip.go:57-74 | of any number of requests at one instant a new client gets exactly the first burst ones |
| `TokenBucket.FullTableNeverLimits` | ratelimit/ip.go:53-56 | a client without an entry in a full table is never limited in any run |
| `ResponseWindow.SlidingWindow.constructor` | abuse/sliding.go:27-38 | a table size of 0 or less becomes 50000 |
| `ResponseWindow.SlidingWindow.Allow` | abuse/sliding.go:41-59 | the decision, without changing anything |
| `ResponseWindow.SlidingWindow.RecordResponse` | abuse/sliding.go:62-80 | counts into the running window or starts a new one |
| `ResponseWindow.WindowBound` | abuse/sliding.go:41-80 | in every run of overlapping queries with at most c responses to a client outstanding, a counting window holds at most max - 1 + c responses, and any interval of one window length at most 2 * (max - 1 + c) - 1 |
| `ResponseWindow.SerialBound` | dnsserve/serve.go:86-123 | for queries handled one after the other that is max and 2 * max - 1 |
| `ResponseWindow.RefusedOnlyWhenFull` | abuse/sliding.go:41-80 | a client is refused only if it was sent its max responses within the last window |
| `ResponseWindow.WindowBoundReached` | dnsserve/serve.go:86-123 | for every limit and every c some run reaches 2 * (max - 1 + c) - 1, so the bound is the best possible |
| `Records.FindDNSRecordIndex` | dnsrecords/dnsrecords.go:101-114 | the first row with the normalised name, type and value, or -1 |
| `Records.FindDNSRecordIndexByID` | dnsrecords/dnsrecords.go:86-97 | the first row with the trimmed id; a blank id finds none |
| `Records.CanonShape` | dnsrecords/dnsrecords.go:121-125 | canonicalising removes exactly the blanks around a name and then the dots at its end |
| `Records.KeyIff` | dnsrecords/dnsrecords.go:101-133 | a row has a record's key iff name, type and value are the same up to case, blanks and dots, as the type allows |
| `Records.AddRecord` | dnsrecords/dnsrecords.go:230-320 | the search-then-update-or-append operation and its error cases |
| `Records.UpdateRecordByID` | dnsrecords/dnsrecords.go:441-485 | replaces the row with the id, unless another row holds the new key |
| `Records.RemoveNamed` | dnsrecords/dnsrecords.go:354-438 | removal by name alone succeeds only for a single match |
| `Records.RemoveExact` | dnsrecords/dnsrecords.go:354-438 | removal by name, type and value |
| `Records.RemoveRecordByID` | dnsrecords/dnsrecords.go:488-503 | removal by id |
| `Records.AddMeaning` | dnsrecords/dnsrecords.go:230-257 | a record that is not acceptable is refused; otherwise its tidied form, dated now, is added |
| `Records.AddInternalMeaning` | dnsrecords/dnsrecords.go:258-320 | a record no row means is appended under its own id, refused if that is taken, or a new one; otherwise nothing happens or, with update, the first row that means it is replaced and its id kept unless the record brings one |
| `Records.UpdateMeaning` | dnsrecords/dnsrecords.go:441-485 | succeeds iff the id is found, the record acceptable and no other row comes first for it; then exactly that row is replaced, keeping what belongs to the row |
| `Records.RemoveByIdMeaning` | dnsrecords/dnsrecords.go:488-503 | deletes exactly the first row with the id, or fails without a change |
| `Records.RemoveTripleMeaning` | dnsrecords/dnsrecords.go:354-438 | deletes exactly the first row that means the record, or fails without a change |
| `Records.RemoveByNameMeaning` | dnsrecords/dnsrecords.go:354-438 | deletes exactly the only row with the name, or fails without a change |
| `Records.AddKeepsKeys` | dnsrecords/dnsrecords.go:258-320 | adding keeps keys distinct, whatever the ids |
| `Records.AddKeepsIdsIff` | dnsrecords/dnsrecords.go:258-320 | adding keeps ids distinct iff an update does not take another row's id |
| `Records.UpdateCanStealId` | dnsrecords/dnsrecords.go:258-320 | updating one of two rows with the other's id leaves two rows with one id |
| `Records.UpdateKeepsBoth` | dnsrecords/dnsrecords.go:441-485 | updating by id keeps keys and ids distinct |
| `Records.RemoveKeepsBoth` | dnsrecords/dnsrecords.go:354-503 | so does every removal |
| `Records.ApplyIsLocal` | dnsrecords/dnsrecords.go:230-503 | no operation touches more than one row, and a failed one touches none |
| `Records.RunKeepsKeys` | dnsrecords/dnsrecords.go:214-503 | no sequence of operations, the add command included, ever yields two rows with one key |
| `Records.RunKeepsIds` | api/server.go:621-638 | sequences that call add-with-update with a blank id and get fresh ids keep ids distinct |
| `Records.CanonAgain` | dnsrecords/dnsrecords.go:121-125 | a second canonicalisation changes a name iff the first did not settle it, and then shortens it |
| `Records.AddThenRemoveIff` | dnsrecords/dnsrecords.go:230-438 | adding a new record and removing it by the same words restores the table iff its name settles |
| `Records.DottedNameStays` | dnsrecords/dnsrecords.go:121-125 | "a. ." needs two rounds, so a record of that name is not removed by its own words |
| `Dashboard.DashboardLive.constructor` | data/dashboard_live.go:15-22 | empty log and counters, default cap |
| `Dashboard.DashboardLive.SetLogCap` | data/dashboard_live.go:25-38 | clamps the cap and keeps the newest rows; a log holding all the cap allows still does iff the cap does not grow or nothing had been dropped |
| `Dashboard.DashboardLive.ClearLog` | data/dashboard_live.go:232-236 | empties the log only |
| `Dashboard.DashboardLive.Record` | data/dashboard_live.go:138-203 | enters the resolution, with the kind its outcome names in any case, and keeps the pruned counters in agreement with the full history; a complete log stays complete and a full one is complete |
| `Dashboard.DashboardLive.GetPerSecRates` | data/dashboard_live.go:103-135 | each rate times the window is the number of resolutions of its kind in the last completed seconds of the full history, despite pruning |
| `Dashboard.DashboardLive.GetSeries` | data/dashboard_live.go:239-258 | each of the 60 minutes up to now shows the number and mean duration of exactly its resolutions in the full history |
| `Dashboard.SecondsStep` | data/dashboard_live.go:138-203 | counting and pruning keep every retained second exact |
| `Dashboard.MinutesStep` | data/dashboard_live.go:138-203 | and every retained minute |
| `Dashboard.AppendLog` | data/dashboard_live.go:138-203 | a log that is the last cap resolutions since the last clear stays so, and a full log is always so |
| `Dashboard.CountIsSize` | data/dashboard_live.go:103-135 | the count that the rates rest on is the number of positions in the history with that time and kind |
| `Dashboard.MinuteDurations` | data/dashboard_live.go:239-258 | a minute's aggregate is the number and sum of the durations of exactly its resolutions |

## Left out

- Sockets, TLS, HTTP, listeners, dialling and timeouts: a connection is a list of bytes or a multiset of packets.
- JSON and files: saving and loading are taken as atomic and faithful; whether a save succeeded is a parameter.
- Loading an existing cluster state file: only a node's first start is modelled.
- The DNS library: printing and parsing a record are parameters, and `RRSetCodec.RoundTrip` assumes that a record's text is one line that parses back; values from the wire are assumed not to start with the marker of whole answers.
- DNSSEC, zone transfer, ad blocking, localhost answers, reverse (PTR) lookups and automatic PTR records.
- Cluster authentication, admin configuration, probes and service discovery.
- Convergence for nodes with local writes: a local write does not advance the stamp, so there is nothing to converge to.
- ClusterWorld.ReplicasAgree: excludes pulls made by the two replicas, because a pull reply carries an old number with a new time; ClusterWorld.HandledAlikeAgree covers them.
- ClusterWorld.NoEcho: follows from the definition of the cluster's steps; that the code takes such a step is ClusterManager.Manager.HandleSnapshot.
- ClusterWorld: a push is one step there; PushOrder splits it.
- Interleaving.ConsistentIff: excludes accepted local writes, which replace the records without a stamp.
- CacheRuns.StoreSingleThenRead: assumes that no other value is cached for the name and type, because a lookup serves the first live row; Served.SingleServed covers every table.
- Served and the lookups of ResolverData: what is served is said for queries without a NUL character; with one, two names can share a key (`Cache.KeysCollideIff`).
- Cache updates between a fill's read and its write: a fill is one step.
- In-place changes of record and cache slices, and slices shared between callers: those operations are modelled on lists as values.
- Message and log texts, last-probe and last-error fields, performance counters.
- ResolverData.FindAllRecords: models the branches for types other than PTR.
- Reading the sync policy from its setting: the policy is taken as already normalised.
- Parsing of command arguments and validation of addresses and names: a parameter of `Records`.
- Letter case beyond ASCII.
- Splitting host and port of a client address: a parameter of TokenBucket.
- Floating-point rounding: tokens and durations are reals, times are integers.
- ResponseWindow: reading the clock and using the table are one step, so times come in order.
- Conversion of a remaining lifetime to 32 bits: modelled as dropping the high bits.
- The response limiter's table size: recording a response adds entries without looking at the limit, so none holds.
- The random response limiter (rrl).
- Reading the dashboard log newest first.
