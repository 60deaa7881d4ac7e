# A verified model of the session archive

The session archive stores every request of a set of conversations in SQLite, keeps payloads in a
content-addressed blob table, replicates itself to importers by stable snapshots, and shows the
conversations again as turns. This project models the parts of it where correctness spans several
operations and proves what those parts promise, for every input and every run.

| part | modules | what is proved |
|---|---|---|
| payload compaction | `Cas`, `CasExact`, `CasStream`, `CasFormat` | expanding a compacted payload gives the value back, and exactly when it does not |
| blob table and collector | `BlobStore`, `Collector`, `CollectorAborts` | every referenced payload keeps its meaning through any run of writes and collections; exactly when a collection aborts |
| export cache | `BoundedCache`, `PayloadCache` | a bounded cache and its prefetch agree with uncached loading, and when all fits the prefetch is complete |
| ingest clock, digests, snapshots | `SnapshotQuery`, `SnapshotJoin`, `SnapshotBegin`, `SnapshotSelect`, `SnapshotCounts`, `SnapshotPages`, `DigestQueue`, `Ingest`, `SnapshotProgress` | digests at the fence are current in every reachable state; when a snapshot begins; its contents, totals and pages |
| replication | `Replication`, `ReplicationExample` | a full snapshot and any chain of deltas keep a replica equal to the source |
| snapshot leases | `SnapshotRegistry`, `RegistryObject`, `RegistryHistory`, `RegistryExamples` | capacity, pinning, ownership and expiry under every interleaving; exactly when a lease is swept early |
| seek-cursor export | `SeekExport` | batched export equals the one-shot export |
| session index and repair | `SessionIndex`, `CanonicalRepair` | count/min/max/summary law over every history; the repair is complete and idempotent |
| turn projection | `TurnProjection` | the equal-count exit is sound, a completed backfill is exact, also with ingests in between |
| conversation views | `Replay`, `Timeline`, `Turns` | conservation of input items; the grouping is the unique ordered partition |
| attribution migration | `Chains`, `Migration` | the loops end, where they end, and when two strategies agree |

`Types` and `Ordering` hold shared shapes: byte order on text and the unique ascending listing of a
finite set, which is what ORDER BY over a unique key returns.

Conventions. Tables are maps, sets or sequences; a committed transaction is one step; a WAL read
snapshot is an immutable copy of the state; a query with LIMIT is any function that answers within
its ORDER BY, so every batch size and every placement of batch cuts is covered at once. Code that
updates state in a loop is a method or a class method proved against a function, and the laws are
proved about that function.

Premises, each the least that the statements need: session ids are non-empty, because the empty text
marks "no move" in an ingest event (internal/archive/store.go:223); all fences belong to one history;
`encoding/json` decodes what it encoded and does not decode the empty input; SHA-256 has no
collisions and HMAC tokens name their claims; no digest is stale when the archive is opened, which
`Ingest.FreshForEverExactly` shows to be exactly what is needed; record ids are positive or start
texts non-empty (otherwise the seek walk skips the row, see `SeekExport.WalkIsComplete`); the
monotone clock is the one the registry reads.

Where the code falls short of what one might expect of it, the model follows the code and a lemma
gives the exact condition: data URLs and payload objects that pose as references
(`CasExact.RoundTripExactly`), stored text that quotes a reference (`CollectorAborts.AbortsExactly`),
stale digests of an older archive (`Ingest.FreshForEverExactly`), read transactions beyond the
capacity (`RegistryHistory.ExceedsExactly`), leases swept too early
(`RegistryHistory.SweptEarlyExactly`), start times compared as text
(`SessionIndex.FirstAtIsEarliestInstant`), repeated turn ids (`Turns.OpensItself`), deletions
(`TurnProjection.EarlyExitExactly`), and rename maps applied in entry order
(`Chains.OnePassReachesEnds`).

## Model

| member | source | states |
|---|---|---|
| Cas.RoundTrip | internal/archive/cas.go:96-195 | expanding a compacted value over a store that holds its blobs restores it, noise keys gone and data URLs rebuilt, whichever strings and subtrees the thresholds moved out, with fuel for its own nesting depth |
| Cas.PayloadRoundTrip | internal/archive/cas.go:31-95 | every payload reads back as its terminal event, its first JSON document restored, or its own bytes |
| Cas.OpaqueSurvives | internal/archive/cas.go:31-75 | a payload that is neither JSON nor a completed stream survives byte for byte |
| Cas.CompactValue | internal/archive/cas.go:96-147 | the recursive loops produce the compacted value and add exactly its blobs, each under its hash, to the table |
| Cas.CompactText | internal/archive/cas.go:118-135 | one string becomes a data-url reference, a text reference or itself, and the table grows by its blob only |
| CasExact.TextUnchangedExactly | internal/archive/cas.go:118-135 | a text survives the round trip if and only if compaction does not take it apart or it reads `data:<media>;base64,<data>` with no `;` or `,` in the media type and base64 that decodes and encodes to itself |
| CasExact.UnchangedExactlyWhenCanonical | internal/archive/cas.go:96-135 | what a round trip restores is the value without noise keys if and only if every data URL in it is spelled that way |
| CasExact.ParameterIsDropped | internal/archive/cas.go:118-128 | every data URL with a further parameter comes back without it |
| CasExact.ClashFails | internal/archive/cas.go:148-195 | an object at any depth with a string under the reference key that names no blob spoils the round trip for every fuel |
| CasExact.RoundTripExactly | internal/archive/cas.go:96-195 | over a store that holds the blobs and none of the posing names: the value comes back if and only if no object poses as a reference, unchanged if and only if its data URLs are canonical too, and with non-empty names the only other outcome is an error |
| CasStream.KeptExactly | internal/archive/cas.go:56-75 | what is kept, told from the bytes: of `pre event: response.completed gap data: body`, with no later marker, no earlier `data:`, a gap of at most 128 and a body that begins with an object typed `response.completed`, that object; otherwise the first document, otherwise the bytes |
| CasStream.StreamReadsBack | internal/archive/cas.go:31-54 | such a stream reads back as its completed event, restored, whatever came before it |
| CasStream.OtherReadsBack | internal/archive/cas.go:31-54 | any other payload reads back as its first document, restored, or byte for byte |
| CasFormat.NoiseExactly | internal/archive/cas.go:29-117 | an object loses exactly the keys whose lower case is `encrypted_content` or `internal_chat_message_metadata_passthrough` |
| CasFormat.InlineExactly | internal/archive/cas.go:118-135 | a text that is no data URL stays in the manifest if and only if it is shorter than 1024 |
| CasFormat.CompactSmall | internal/archive/cas.go:96-147 | at every depth no text of 1024 and no nested container of 16384 or more is left in the manifest |
| CasFormat.ReferenceSpelled | internal/archive/cas.go:14-27 | a reference has the fields `$cpa_blob`, `encoding`, `size` and, where there is one, `media_type`, with their values |
| CasFormat.DecimalReads | internal/archive/cas.go:14-27 | the size of a reference is written as the decimal digits that read as it |
| BlobStore.TouchedReachable | internal/archive/store.go:1393-1418 | the collector's reference walk covers every blob that expansion would load |
| BlobStore.ExpandFrame | internal/archive/cas.go:148-195 | expansion depends on nothing but the blobs it touches |
| BlobStore.LoadFrame | internal/archive/store.go:394-404 | a load survives any change that leaves the root's reachable blobs alone |
| BlobStore.SweepKeepsLoads | internal/archive/store.go:1324-1391 | a completed collection keeps every live root loading to the same bytes |
| BlobStore.PutLoads | internal/archive/store.go:278-300 | a payload just put loads back as what compaction kept of it |
| BlobStore.LoadUnique | internal/archive/store.go:394-404 | a root loads to at most one value, whatever fuel is given |
| Collector.StepPreserves | internal/archive/store.go:274-300 | a write or a collection keeps every referenced root loading to the payload it was made from |
| Collector.RunInvariant | internal/archive/store.go:1324-1391 | that holds in every state of every run of writers and collections |
| Collector.ReferencedPayloadSurvives | internal/archive/store.go:274-300 | a payload that stays referenced loads, after any steps in between, to what it was when first stored |
| Collector.Walk | internal/archive/store.go:1400-1418 | the recursive walk appends exactly the references of the value |
| Collector.Mark | internal/archive/store.go:1330-1362 | the worklist ends on every reference graph, succeeds exactly when every reachable blob is present, and then marks exactly the reachable ones |
| Collector.BlobTable.Gc | internal/archive/store.go:1324-1391 | a run leaves exactly the reachable blobs and counts the deleted ones, or aborts on a missing blob with nothing deleted |
| Collector.BlobTable.PutPayload | internal/archive/store.go:278-300 | the root is the manifest's hash and the table gains exactly the payload's blobs, keeping those already there |
| CollectorAborts.StructureRefs | internal/archive/store.go:278-300 | manifests and subtrees of a payload refer to nothing but the payload's own blobs |
| CollectorAborts.RunAccounted | internal/archive/store.go:1324-1391 | in every reachable state a blob whose references are not all present is a text, a data URL or raw bytes of some payload |
| CollectorAborts.AbortsExactly | internal/archive/store.go:1345-1362 | in every reachable state a collection aborts if and only if such a reachable leaf names a blob that is not there |
| CollectorAborts.UnquotedNeverAborts | internal/archive/store.go:1324-1391 | a run whose leaves quote no reference never aborts a collection |
| CollectorAborts.QuotedTextAborts | internal/archive/store.go:1393-1418 | a run: a payload with a long text that parses as a reference is stored and loads, and the collection after it deletes nothing |
| BoundedCache.TotalAdd | internal/archive/store.go:945-971 | adding an entry adds its length to the sum of the cached lengths |
| BoundedCache.Cache.LoadBlob | internal/archive/store.go:954-965 | a cached load returns what the table returns and keeps the cache bounded, counted and equal to the table |
| PayloadCache.ExpandValue | internal/archive/cas.go:148-195 | expansion through the cache equals expansion over the table |
| PayloadCache.LoadPayload | internal/archive/store.go:954-971 | a payload loaded through the cache equals the uncached load, errors included |
| BoundedCache.Cache.Admit | internal/archive/store.go:1110-1145 | admission by actual length keeps the 16 MiB and 1 MiB bounds whatever raw_size said, counts exactly when no row was cached before, and admits every row when all fits |
| BoundedCache.Cache.PrefetchSmall | internal/archive/store.go:1072-1145 | for any list of hashes the cache stays sound and gains none but the requested ones; for new hashes the count stays exact, and when all fits everything the table has is cached |
| BoundedCache.BoundsInBytes | internal/archive/store.go:816-817 | the cache never exceeds 16777216 bytes nor an entry 1048576 |
| PayloadCache.PrefetchClosure | internal/archive/store.go:992-1038 | the closure ends on cyclic references too, caches only blobs the roots reach, and when all of those fit caches every blob that expanding the roots would load |
| PayloadCache.TouchedLoaded | internal/archive/store.go:992-1038 | a closed set of followed manifests covers every blob that expansion touches, through any depth of manifests |
| PayloadCache.VisitRefs | internal/archive/store.go:1040-1070 | one walk collects exactly the references and exactly the manifest references |
| SnapshotJoin.FullQueryIs | internal/archive/snapshot.go:61-75 | the optimised query evaluated as joined, grouped, projected and ordered rows gives one row per session with records |
| SnapshotJoin.GenericQueryIs | internal/archive/snapshot.go:114-146 | the generic query evaluated over its two LEFT JOINs gives one row per selected session, unmatched rows uncounted |
| SnapshotJoin.FullMatchesGeneric | internal/archive/snapshot.go:61-75 | for every contents of the tables the optimised query returns the rows of the generic query with the delta switch off, in the same order |
| SnapshotBegin.ScanRows | internal/archive/snapshot.go:152-198 | the row loop rejects exactly when a row is invalid and otherwise collects summaries, missing digests and both counts |
| SnapshotBegin.Begin | internal/archive/snapshot.go:77-223 | fence checks first, then rejection, then missing digests, else the sorted snapshot |
| SnapshotBegin.BegunListsEveryRow | internal/archive/snapshot.go:152-208 | a begun snapshot lists every row once, nothing else, in (last_at descending, session ascending) order |
| SnapshotBegin.SetDigestOfSet | internal/archive/snapshot.go:241-272 | two session lists have the same set digest if and only if they hold the same summaries |
| SnapshotSelect.RowsAreChosen | internal/archive/snapshot.go:114-146 | the query returns one row per selected session |
| SnapshotSelect.BegunLists | internal/archive/snapshot.go:114-195 | a begun snapshot lists exactly the selected sessions, as the database describes them |
| SnapshotSelect.DeltaChoosesExactly | internal/archive/snapshot.go:114-132 | a delta chooses a session if and only if one of its records overlaps the lower bound or an event after the fence, up to the clock, names it as new or previous session |
| SnapshotCounts.BegunReports | internal/archive/snapshot.go:209-222 | a begun snapshot reports the clock as its fence and the archive's tombstone fence, and its set digest is over exactly its summaries in session order |
| SnapshotCounts.PageOrder | internal/archive/snapshot.go:203-208 | its list shows later last times first, equal ones by session id |
| SnapshotCounts.TombstoneTime | internal/archive/snapshot.go:166-176 | a tombstone's time is the greatest time text of the events that name its session, cut to microseconds |
| SnapshotCounts.SnapshotTotals | internal/archive/snapshot.go:152-222 | the counts are the sessions selected, the records in them, and the selected sessions without records |
| SnapshotCounts.FullSnapshotTotals | internal/archive/snapshot.go:61-75 | a full snapshot counts every record of the archive and no tombstone |
| SnapshotCounts.SummaryTimes | internal/archive/snapshot.go:178-184 | a summary's times are its least start and greatest completion text, as instants cut to microseconds |
| SnapshotPages.StableSessionSnapshot.Page | internal/archive/snapshot.go:298-328 | an open snapshot answers with the page after the cursor position, and refuses a bad limit, an unknown position or a closed snapshot |
| SnapshotPages.PagingCoversSnapshot | internal/archive/snapshot.go:298-328 | following cursors with any limit of one or more shows the whole list once each, in order |
| SnapshotPages.PageCountIsCeiling | internal/archive/snapshot.go:298-328 | it takes max(1, ceil(n/limit)) pages |
| DigestQueue.Queue.Enqueue | internal/archive/snapshot.go:429-443 | a prefix of the ids enters until the bound of 10000, nothing queued is forgotten |
| DigestQueue.Queue.Take | internal/archive/snapshot.go:451-466 | the least ids leave, in order, and all that stay are larger |
| Ingest.MentionedFence | internal/archive/store.go:209-226 | a session that an event names gets the new clock value as its fence |
| Ingest.WriteKeepsFresh | internal/archive/store.go:209-226 | a write keeps every digest either current or below its session's fence |
| Ingest.FlushIsFresh | internal/archive/snapshot.go:485-524 | the guarded second half of a digest refresh lands nothing stale, however old its first half is |
| Ingest.StaleWasStale | internal/archive/snapshot.go:485-558 | no step makes a digest stale: a stale row was the same row and stale before |
| Ingest.ExportHolds | internal/archive/snapshot.go:526-598 | an export holds one line per record of the session, in ascending request order, each with that record and the bytes its original and its response reference load to |
| Ingest.CollectKeepsPayloads | internal/archive/store.go:1331-1331 | a collection keeps the original, the upstream and the response payload of every record |
| Ingest.StepPreserves | internal/archive/snapshot.go:485-558 | every step of writers, collector and digest worker keeps the invariant |
| Ingest.RunInvariant | internal/archive/store.go:206-232 | the invariant holds in every reachable state |
| Ingest.DigestAtFenceIsCurrent | internal/archive/snapshot.go:485-524 | in every reachable state a digest at the session's fence is the hash of the session's current export, whose lines `Ingest.ExportHolds` describes |
| Ingest.StaleSinceOpening | internal/archive/store.go:177-232 | whatever the archive was opened with, a digest stale in a reachable state is a row it was opened with and was stale then |
| Ingest.FreshForEverExactly | internal/archive/store.go:177-232 | no run from an opened archive ever has a stale digest if and only if none was stale at opening |
| SnapshotProgress.BeginsExactly | internal/archive/snapshot.go:99-202 | a snapshot begins if and only if its fence is acceptable and every session it chooses is a readable tombstone or has a digest at its fence |
| SnapshotProgress.ListedExactly | internal/archive/snapshot.go:163-194 | a session is listed if and only if its id has 1 to 512 printable ASCII characters and it has no records and a readable last event, or readable times and a digest at its fence |
| SnapshotProgress.RefreshMakesReady | internal/archive/snapshot.go:485-524 | an undisturbed refresh makes its session ready |
| SnapshotProgress.RefreshAll | internal/archive/snapshot.go:468-483 | one worker can refresh any list of exportable sessions, one after the other, to their current digests and touch no other row |
| SnapshotProgress.RefreshedBegins | internal/archive/snapshot.go:199-202 | a snapshot that misses only digests begins once the sessions it waits for are refreshed |
| Replication.ListedIsCurrent | internal/archive/snapshot.go:166-194 | a listed summary is a tombstone exactly without records, and otherwise carries the hash of the current export |
| Replication.NoDigestMismatch | internal/archive/snapshot.go:344-372 | no session of a begun snapshot can end in the digest-mismatch error |
| Replication.ExportsExactly | internal/archive/snapshot.go:344-372 | in any database with fences within its clock a listed present session exports as announced if and only if its digest is not stale |
| Replication.QuietUnchanged | internal/archive/store.go:209-226 | a session no later event names keeps its rows and its export along the run |
| Replication.DeltaSynchronises | internal/archive/snapshot.go:99-195 | a delta from an earlier fence turns a replica in sync there into one in sync now, whatever lower bound was used |
| Replication.FullSynchronises | internal/archive/snapshot.go:77-223 | a full snapshot puts an empty replica in sync |
| Replication.ImportsSynchronise | docs/stable-session-snapshots.md:131-140 | after a full snapshot and any chain of deltas, each taken after the fence the previous snapshot reported, every import leaves the replica equal to the source at its own reported fence |
| Replication.SyncedHolds | docs/stable-session-snapshots.md:131-140 | a replica in sync has exactly the sessions that have records and holds for each one line per record with that record's payloads |
| Replication.FencesOfThisHistory | internal/archive/snapshot.go:99-108 | a fence of the archive's own run is never refused, one older than the tombstone fence always is |
| ReplicationExample.FullThenTombstone | docs/stable-session-snapshots.md:56-62 | a run exists with an ingest, a digest refresh and a deletion on which a full snapshot counts the record and the next delta carries its tombstone |
| ReplicationExample.StaleDigestMismatches | internal/archive/store.go:177-181 | an archive opened with a stale digest begins a snapshot whose session ends in the digest-mismatch error |
| SnapshotRegistry.StepPreserves | cmd/cpa-session-collector/snapshot.go:97-219 | every step of every goroutine keeps the registry invariant |
| SnapshotRegistry.RunInvariant | cmd/cpa-session-collector/snapshot.go:97-273 | the invariant holds in every state of every interleaving |
| SnapshotRegistry.EveryInterleaving | cmd/cpa-session-collector/snapshot.go:97-219 | registrations stay within capacity, ActiveExports counts the exports in flight, an entry in flight is registered and open, and each entry is registered, owned by one closer, or closed, never two of these |
| SnapshotRegistry.ExpiryNeverExtended | cmd/cpa-session-collector/snapshot.go:135-147 | an entry's expiry is its creation plus the TTL for ever |
| SnapshotRegistry.SweepIsExact | cmd/cpa-session-collector/snapshot.go:97-107 | a sweep removes and closes exactly the lapsed entries without an export in flight |
| SnapshotRegistry.EndSeesItsEntry | cmd/cpa-session-collector/snapshot.go:198-208 | when an export ends, its entry is still registered and open |
| SnapshotRegistry.OpenTransactions | cmd/cpa-session-collector/snapshot.go:180-219 | open read transactions are the registered entries plus those awaiting a late close |
| SnapshotRegistry.TokenResolvesToItsMint | cmd/cpa-session-collector/snapshot.go:257-273 | a token resolves only to claims minted for that entry, with that entry's id and bounds |
| SnapshotRegistry.MintedEarlier | cmd/cpa-session-collector/snapshot.go:238-255 | whatever resolves was minted by an earlier cursor step of the run |
| RegistryHistory.EntryOfRequest | cmd/cpa-session-collector/snapshot.go:135-147 | every entry of every run was made by one create step and carries for ever the id and bounds that step was given, its time as creation time and one TTL later as expiry |
| RegistryHistory.GetAnswersExactly | cmd/cpa-session-collector/snapshot.go:151-165 | along every run a registered, unexpired entry answers to lower bound, fence and limit if and only if its create step was given exactly these |
| RegistryHistory.TokenOfRequest | cmd/cpa-session-collector/snapshot.go:238-273 | a token resolves to the id and bounds of the request that created its entry and the position of an earlier cursor step |
| RegistryHistory.TokenStaysGood | cmd/cpa-session-collector/snapshot.go:238-273 | a token handed out once resolves to the same claims as long as its entry is registered and unexpired |
| RegistryHistory.SweepInPlainTerms | cmd/cpa-session-collector/snapshot.go:97-107 | in every run a sweep removes an entry if and only if it has no export in flight and its expiry or its idle limit is reached |
| RegistryHistory.RemembersLessExactly | cmd/cpa-session-collector/snapshot.go:196-201 | in every run an entry remembers less than its latest use if and only if the last step to record a use was the end of an export that had finished before a use |
| RegistryHistory.SweptEarlyExactly | cmd/cpa-session-collector/snapshot.go:97-107 | in every run an idle entry used less than the idle TTL ago is swept all the same if and only if it remembers the finish time, at least the idle TTL old, of such an export |
| RegistryHistory.CreateOpens | cmd/cpa-session-collector/snapshot.go:115-149 | a create that finds room leaves more read transactions open than the capacity if and only if the late closes fill the room it found |
| RegistryHistory.ExceedsExactly | cmd/cpa-session-collector/snapshot.go:180-219 | in every state more transactions than the capacity are open if and only if registered entries and late closes together exceed it |
| RegistryExamples.SweptAfterUse | cmd/cpa-session-collector/snapshot.go:196-201 | a run from the empty registry in which an entry is swept four units after a use although its idle TTL is ten |
| RegistryExamples.LateCloseExceedsCapacity | cmd/cpa-session-collector/snapshot.go:200-212 | a run from the empty registry in which a registry for one snapshot has two read transactions open |
| RegistryObject.StableSnapshotRegistry.CleanupLocked | cmd/cpa-session-collector/snapshot.go:97-107 | the loop over the map performs the sweep step, in any visiting order |
| RegistryObject.StableSnapshotRegistry.Create | cmd/cpa-session-collector/snapshot.go:115-149 | the critical section performs the create step, whose entry `RegistryHistory.EntryOfRequest` describes, and succeeds exactly when there is room and the snapshot begins |
| RegistryObject.StableSnapshotRegistry.Get | cmd/cpa-session-collector/snapshot.go:151-165 | it succeeds exactly for a live entry and the bounds it was created with, and renews the lease only then |
| RegistryObject.StableSnapshotRegistry.ExportBegin | cmd/cpa-session-collector/snapshot.go:180-191 | it succeeds exactly for a live entry and pins it |
| RegistryObject.StableSnapshotRegistry.ExportEnd | cmd/cpa-session-collector/snapshot.go:196-212 | it unpins the entry and asks for a late close exactly when the last export of a registered entry finished at or after its expiry |
| RegistryObject.StableSnapshotRegistry.Cursor | cmd/cpa-session-collector/snapshot.go:238-255 | a token is minted only for the registered, unexpired entry and recorded with its claims |
| SeekExport.CutBatch | internal/archive/store.go:830-847 | a batch ends right after the first row that reaches the byte limit, and without its last row is below it |
| SeekExport.SeekSkipsExactly | internal/archive/store.go:826-831 | seeking after the k-th row leaves exactly the rows behind it, however many timestamps are equal |
| SeekExport.ExportInBatches | internal/archive/store.go:822-875 | for every batch size and byte limit the loop ends and emits the walk once, in order |
| SeekExport.WalkIsComplete | internal/archive/store.go:823-826 | the walk emits every row if and only if none has an empty start and a non-positive id |
| SeekExport.LegacyRestricted | internal/archive/store.go:1173-1185 | the one-shot export restricted to a session is the session's (started_at, id) order |
| SeekExport.ExportSession | internal/archive/store.go:819-879 | the batched export emits each record of the session exactly once, by start text and then id, and equals the one-shot export restricted to it |
| SessionIndex.OfferPreserves | internal/archive/session_index.go:11-42 | one offered record, new or seen before, keeps counts, bounds and summary in step with the accepted ones |
| SessionIndex.StepPreserves | internal/archive/session_index.go:78-112 | an ingest or a backfill transaction keeps the index law |
| SessionIndex.RunInvariant | internal/archive/session_index.go:11-116 | so does every sequence of them |
| SessionIndex.EveryHistory | internal/archive/store.go:1216-1224 | from an archive with any unindexed records, after any ingests, repeats and interrupted backfills, each row counts its indexed requests, holds the least start, greatest completion and first earliest non-empty text, and the counts add up to the total Stats reports |
| SessionIndex.BackfillHasWork | internal/archive/session_index.go:59-116 | one backfill transaction on such an archive indexes a record that no ingest had indexed |
| SessionIndex.RunKeepsIdentity | internal/archive/store.go:311-311 | no run of ingests and backfills moves a record to another session, changes its start, or replaces a summary it has |
| SessionIndex.RunNamed | internal/archive/session_index.go:11-14 | only records with both ids are ever indexed |
| SessionIndex.CompletedBackfill | internal/archive/session_index.go:59-116 | a backfill that worked off its list leaves every record indexed, with any ingests in between |
| SessionIndex.FirstAtIsEarliestInstant | internal/archive/session_index.go:31-33 | first_at is the earliest instant in every session over a set of texts if and only if their text order never contradicts their instants |
| SessionIndex.FractionSortsFirst | internal/archive/session_index.go:23-33 | of two requests started at 5 s and 5.1 s first_at reports the later instant |
| SessionIndex.FullPass | internal/archive/session_index.go:59-116 | one pass over the missing requests leaves every record with both ids indexed |
| SessionIndex.SessionTables.IndexSessionRecord | internal/archive/session_index.go:11-42 | the statements perform the upsert, or nothing for empty ids and known requests |
| SessionIndex.SessionTables.BackfillTransaction | internal/archive/session_index.go:86-108 | one transaction indexes its whole batch, or nothing when a record is gone |
| SessionIndex.SessionTables.BackfillSessionIndex | internal/archive/session_index.go:59-116 | whatever was committed is a prefix of the work list in steps of eight; a pass over the missing requests that was neither cancelled nor stopped by a vanished record leaves every record indexed |
| CanonicalRepair.WindowExactly | internal/archive/plugin.go:508-514 | the window id is the text without outer spaces, cut before its first colon unless that colon leads |
| CanonicalRepair.HomeByFacets | internal/archive/session_repair.go:24-43 | where a record belongs, told from the facet table alone: the window of its bytewise least non-empty `thread.id`, else `header.thread-id`, else `header.session-id`, else where it is; an empty window leaves it |
| CanonicalRepair.RepairedByFacets | internal/archive/session_repair.go:24-81 | after the repair every record is in the session that the facet table gives it |
| CanonicalRepair.EveryRecordHome | internal/archive/session_repair.go:24-81 | every record with a canonical id ends in that session, its turn too, and every other record stays |
| CanonicalRepair.ContentsKept | internal/archive/session_repair.go:57-81 | the record set, ids, times, summaries and payload refs survive |
| CanonicalRepair.CanonicalKept | internal/archive/session_repair.go:24-28 | a repair does not change what canonical ids are computed from |
| CanonicalRepair.SecondScanIsEmpty | internal/archive/session_repair.go:24-50 | a second run finds nothing to repair, in any row order, even when the marker was lost |
| CanonicalRepair.OldIdKept | internal/archive/session_repair.go:76-80 | the old session id of every moved record stays as a facet |
| CanonicalRepair.SessionFacetMoved | internal/archive/session_repair.go:70-75 | a moved record's session facet is its new session and nothing else |
| CanonicalRepair.FacetsAfter | internal/archive/session_repair.go:57-81 | the facet table after the repair, facet by facet: new session alone, old session kept as execution facet, everything else as before |
| CanonicalRepair.RowFacetsAfter | internal/archive/session_repair.go:57-66 | a moved record's own facets: `session.id` is the new session alone, `execution.session.id` gains the old one, all others stay |
| CanonicalRepair.RebuiltRows | internal/archive/session_repair.go:82-111 | each rebuilt session row counts the records that belong to it and holds their least start, greatest completion and earliest non-empty summary |
| CanonicalRepair.RebuiltIndex | internal/archive/session_repair.go:82-111 | the rebuilt index puts every record under its home session and satisfies the index law |
| CanonicalRepair.TurnsStillFollow | internal/archive/session_repair.go:64-69 | every turn keeps the id and session of its record |
| CanonicalRepair.ArchiveTables.CollectRepairs | internal/archive/session_repair.go:24-43 | the scan collects exactly the records whose canonical id, as `CanonicalRepair.HomeByFacets` determines it, is another session |
| CanonicalRepair.ArchiveTables.ApplyRepairs | internal/archive/session_repair.go:57-81 | the loop performs all repairs on records, turns and facets |
| CanonicalRepair.ArchiveTables.RepairCanonicalSessions | internal/archive/session_repair.go:15-119 | one run puts every record where the facet table says it belongs, rebuilds the index only when something moved, and does nothing behind the marker |
| TurnProjection.StepPreserves | internal/archive/store.go:316-324 | ingest, repair and backfill keep each turn an exact copy of its record's id, session and facets |
| TurnProjection.RunInvariant | internal/archive/store.go:316-324 | so does every run without deletions |
| TurnProjection.RunKeepsIdentity | internal/archive/store.go:311-324 | along every run a record keeps its id, start and request payloads |
| TurnProjection.NoIdCollision | internal/archive/turn_projection.go:218-224 | projecting a record never meets another turn's id |
| TurnProjection.EarlyExitExactly | internal/archive/turn_projection.go:172-180 | equal counts mean equal sets if and only if no turn of the session is stale |
| TurnProjection.EarlyExitSound | internal/archive/turn_projection.go:172-180 | on every reachable state the early exit leaves a complete projection |
| TurnProjection.DeletionBreaksEarlyExit | internal/archive/turn_projection.go:172-180 | after a deletion the counts can agree on different sets |
| TurnProjection.AfterOrigin | internal/archive/turn_projection.go:181-188 | the walk's starting cursor precedes a record if and only if the record has a start text or a positive id |
| TurnProjection.CompletedWalk | internal/archive/turn_projection.go:181-258 | for every batch size and any ingests in between, a walk that saw a short batch has projected exactly the session's records |
| TurnProjection.TurnTable.BackfillTurnSession | internal/archive/turn_projection.go:171-258 | the exit or the walk ends with exactly the session's records projected and other sessions untouched |
| TurnProjection.TurnTable.BackfillTurnProjection | internal/archive/turn_projection.go:143-169 | after the loop every listed session is projected exactly |
| Replay.SurvivorsCounted | internal/archive/timeline.go:352-367 | each key survives as often as it occurs beyond the replay |
| Replay.ReplayRemoved | internal/archive/timeline.go:352-367 | entries that begin with the replay leave exactly the rest |
| Timeline.SignatureExactly | internal/archive/timeline.go:335-338 | entries with single-line role, label and call id share a signature if and only if they agree in role, label, call id and text |
| Timeline.BrokenLabelClashes | internal/archive/timeline.go:335-338 | a line break inside a label lets different entries share a signature |
| Timeline.CommonEntryPrefix | internal/archive/timeline.go:340-350 | the longest common prefix by signature |
| Timeline.SubtractEntries | internal/archive/timeline.go:352-367 | the count map removes exactly the first occurrences the replay holds |
| Timeline.FreshIsDifference | internal/archive/timeline.go:352-367 | the delta is a subsequence whose signatures are the suffix minus the replay as multisets |
| Timeline.ContinuationDelta | internal/archive/timeline.go:139-143 | for previous input ++ previous response ++ new, the delta is exactly new |
| Timeline.ContinuationShowsNew | internal/archive/timeline.go:139-180 | such a request shows its new entries and its response and counts the previous input as history |
| Timeline.InputConserved | internal/archive/timeline.go:139-172 | input items are history plus removed replays plus shown entries, for every kind, trimmed ones included |
| Timeline.ShownIsSubsequence | internal/archive/timeline.go:139-180 | the shown input entries are the last surviving entries of the suffix, in order |
| Timeline.ShownBound | internal/archive/timeline.go:155-172 | snapshots and rebuilds show at most 24 input entries, a detected retry none |
| Timeline.RetryExactly | internal/archive/timeline.go:155-165 | unless declared, a request is a retry if and only if its whole non-empty input repeats the beginning of the previous input |
| Timeline.RebuildExactly | internal/archive/timeline.go:155-165 | unless declared, it is a rebuilt context if and only if its long input begins differently from the previous one and holds no new compaction |
| Timeline.SnapshotExactly | internal/archive/timeline.go:155-165 | unless declared, it is a history snapshot if and only if it is the first of its session, long, and free of compactions |
| Timeline.CompactionExactly | internal/archive/timeline.go:145-156 | a request is a compaction if and only if declared one or something new in it has that role |
| Timeline.ContinuationExactly | internal/archive/timeline.go:155-165 | unless declared, it continues a tool call if and only if something new is a tool result, nothing new is from the user or a compaction, and it is no long first request and no rebuilt context |
| Timeline.OtherKinds | internal/archive/timeline.go:145-165 | every other kind is the declared one, or `turn` |
| Timeline.ShownTexts | internal/archive/timeline.go:173-178 | shown entries keep role, label and call id; a text over 40000 is cut there and marked |
| Timeline.RequestTimeline | internal/archive/timeline.go:112-189 | the method computes the view the laws are about |
| Turns.SessionTurnGroups | internal/archive/turns.go:209-298 | the loop yields the grouping and each group describes its members |
| Turns.GroupingUnique | internal/archive/turns.go:224-235 | the rows determine the grouping |
| Turns.GroupsPartition | internal/archive/turns.go:209-298 | the groups are non-empty and together hold every request once, in order |
| Turns.MembersAgree | internal/archive/turns.go:224-255 | a group's id is the explicit id of every member that has one, and members without one share its summary |
| Turns.ConflictExactly | internal/archive/turns.go:224-235 | a row starts a new group if and only if, where it and the group have explicit ids, the group's first is another, and otherwise both have summaries and the group's first is another |
| Turns.GroupTells | internal/archive/turns.go:236-257 | a listed turn spans, counts and lists its rows, shows the text of the first with a summary, else of the first, and is named by the first explicit id, else after its first request |
| Turns.BoundaryWitness | internal/archive/turns.go:224-235 | every boundary has an earlier member whose explicit id or summary contradicts the next row |
| Turns.Reverse | internal/archive/turns.go:63-67 | the in-place swap loop reverses the list |
| Turns.SessionTurnPage | internal/archive/turns.go:58-80 | the page of the list in the asked order, and the total |
| Turns.PagesCover | internal/archive/turns.go:68-79 | consecutive pages show every group once |
| Turns.DescendingIsReversed | internal/archive/turns.go:63-79 | newest-first pages show the same groups backwards |
| Turns.FindTurn | internal/archive/turns.go:82-109 | a turn id opens the first group that has it, and nothing exactly when none has |
| Turns.OpensItself | internal/archive/turns.go:82-109 | every listed turn opens as itself if and only if no explicit id occurs on rows of two groups |
| Turns.RepeatedTurnId | internal/archive/turns.go:224-245 | explicit ids a, b, a give two groups named a, and the second never opens |
| Chains.AcyclicExactly | scripts/migrate_attribution.ts:259-312 | a map is acyclic if and only if following it ends from everywhere |
| Chains.StepDown | scripts/migrate_attribution.ts:285-292 | one rename shortens the chain by one and keeps its end |
| Chains.OnePassReachesEnds | scripts/migrate_attribution.ts:325-346 | one pass in entry order takes every value to its chain end if and only if every target that is a source comes later |
| Chains.FlatMap | scripts/migrate_attribution.ts:314-347 | when no target is a source, one pass, the chain end and the pointwise rename agree |
| Migration.BatchDrops | scripts/migrate_attribution.ts:281-308 | a non-empty batch of candidates lowers the summed chain heights |
| Migration.AttributionRows.MigrateRowsBatched | scripts/migrate_attribution.ts:259-312 | for any batches the loop ends; every row that held a source in any column has each value followed along its map to a non-source and NULL as empty text, every other row is untouched |
| Migration.UnsettledForEver | scripts/migrate_attribution.ts:274-282 | a row on a cycle is a candidate after any number of batches, so the requirement is exact |
| Migration.AcyclicSettles | scripts/migrate_attribution.ts:259-312 | acyclic maps meet the requirement on every table |
| Migration.ScalarColumn.UpdateScalarBatched | scripts/migrate_attribution.ts:314-347 | for any batches each value becomes what one pass over the entries makes of it |
| Migration.FacetTable.ReplaceFacetsBatched | scripts/migrate_attribution.ts:349-396 | for any batches the table becomes the image of itself under the renames |
| Migration.FlatMigration | scripts/migrate_attribution.ts:259-396 | when no target is a source all three loops rename pointwise |
| Migration.ColumnLoopStopsShort | scripts/migrate_attribution.ts:325-346 | with b to c listed before a to b the column loop leaves a at b while the row loop takes it to c |

## Left out

- gzip, the codec column and decompression errors: blob data is the uncompressed content.
- JSON lexing, number conversion, SHA-256, HMAC and base64: they enter as the functions of `Cas.Codec` or as symbolic constructors, with the laws named above as premises; bytes after the first JSON document are dropped by `decodeFirst`.
- Cas.RoundTrip: expansion takes fuel, because the source recurses without a bound and would not end on a manifest that refers to itself; the lemma needs no more fuel than the value's own nesting.
- Cas.CompactValue: works on values; the source overwrites the same arrays and maps in place. Depth is modelled as nested or not, all the source asks of it.
- PayloadCache.ExpandValue: which of several load errors is reported (map iteration order) is not modelled, only that there is one.
- SnapshotSelect.BegunLists: the julianday comparison with the lower bound is the parameter `overlap`, and timestamp parsing the parameter `parse`.
- Ingest.StepPreserves: an exported line is the tuple of values it is printed from; a transaction with several record changes is a run of single changes, and the digest worker's two transactions are steps on values.
- SnapshotRegistry.StepPreserves: random snapshot ids are taken to be unused ones; entries are values addressed by handles.
- SeekExport.ExportInBatches: the table does not change during one export; record contents are only their sizes.
- SessionIndex.EveryHistory: the model, project, key, principal and facet columns of the index are not modelled; stored times are taken to print as they were read.
- SessionIndex.FirstAtIsEarliestInstant: about first_at; the same holds for last_at.
- CanonicalRepair.EveryRecordHome: facet JSON is a map of lists; unreadable facet JSON counts as an empty map.
- TurnProjection.CompletedWalk: the batch read and its write are one step, since no ingest changes a record's id or session between them; repairs run before the backfill, as at start-up.
- Turns.SessionTurnGroups: tool names, outcome, model and identity columns of a turn, the text cleaning functions and the choice between the two tables are not modelled.
- Timeline.RequestTimeline: entries are inputs; how JSON bodies become entries, the choice of the previous request and the cut of a text inside a multi-byte character are not modelled. Signatures are the hashed texts themselves.
- Migration.AttributionRows.MigrateRowsBatched: the JSON columns, the change counters and JavaScript's inherited property names are not modelled.
- Facet back-fill of the turn projection, request previews, SSE normalisation, legacy payload migration and the training export: each rewrites one row at a time from that row alone, so no property spans them.
- HTTP handlers, tickets and heartbeats, the browser UI, the plugin's header extraction, the backup command, identity resolution and the attestation script.
