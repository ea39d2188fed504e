# bt-sniffer verification

A Dafny model of the parts of bt-sniffer whose correctness is not obvious from reading one function:
the metainfo layout checker, the job queue with its quotas, sweeps, hints and claims, identity merging
with its trigger-kept counters, the bounded event history and its streaming reader, the iterative
lookup and its pacer, per-IP TCP permits, resumable sample ingest, the fixed-bucket quantiles and the
sampling backpressure. `dafny verify dfyconfig.toml` checks everything.

Where the program mutates an object, the model is a class with the same fields, and its methods are
proved against functions of the old state; where it only computes, the model is a function with lemmas.
Each SQL table is a map, each SQL statement a function whose precondition is the constraint it must not
trip, and each transaction one method that commits or leaves the tables as they were. Concurrency is
modelled as interleaved steps (event stream, TCP permits, pacer, abandoned writes), as arbitrary
interference by the other address family (lookup) or as other transactions between two calls (sweeps,
claims). Digests, the completeness of a dictionary and the validity of a hybrid are parameters of the
identity model (`Env`); time is a number that does not run backwards.

## What is proved, by component

- **Metainfo** (`Orders`, `Bencode`, `TorrentFiles`, `FileTree`, `PieceMath`, `Layout`, `PathRules`,
  `Metainfo`): the checker accepts exactly the dictionaries that satisfy an order-free layout rule; in
  every accepted hybrid each file with bytes sits in the padded v1 stream at its own v2 offset and both
  formats count the same pieces; a flattened tree is ascending and prefix-free, so the later conflict
  test cannot fire for v2 or hybrid; the sort-and-neighbours test and the binary search equal the
  all-pairs rules.
- **Event history** (`EventHistory`, `EventStream`): over every run of emissions, evictions and polls
  the retained events are one suffix of what was emitted, a connection delivers consecutive events, and
  a lost event leads to a reset that ends it.
- **Saved metadata** (`MetadataDb`, `IdentityStore`, `IdentitySave`, `IdentityTransaction`,
  `CatalogBackfill`): every save, also into a database with damaged rows, keeps aliases, canonical
  hashes, declared constraints and counters right; all identities of the saved bytes then lead to one
  row and no other identity changes where it leads; the order of two saves of a hybrid does not matter;
  for each database it is known beforehand whether the catalog backfill completes, and whenever it does
  every row is catalogued.
- **Jobs** (`Ranking`, `Hints`, `JobsDb`, `Admission`, `Discovery`, `PagedSweep`, `Backfill`, `Claim`,
  `Fencing`): the in-memory quotas agree with the database through every admission, trimming hints to
  eight loses nothing fresh, sweeps that pause and resume are complete, claims are exclusive, and every
  modelled transaction that writes jobs, a save included, keeps them fenced.
- **Network** (`NodeDistance`, `Lookup`, `LookupPacer`, `TcpLimits`): the lookup terminates within its
  bounds and has converged when it ends normally, dropping expired pacer entries changes no grant, and
  the table of weakly held semaphores behaves like a plain map of waiting lines.
- **Ingest and measurement** (`Ingest`, `Histogram`, `Backpressure`): retried segments have
  exactly-once effect, quantiles enclose the exact nearest-rank sample, and the pause flags follow laws
  stated over the whole log of readings.

`Common` holds the option type and the 64-bit limit, and `Records` the hash and job rows that the saved
metadata and the job queue share.

## Results that needed a condition

- A hybrid is accepted if and only if its layout is aligned **and** the piece boundary at its end is a
  64-bit number: the checker computes that boundary with checked arithmetic even when the stream itself
  still fits (`Layout.CheckHybrid`). `Layout.AlignedButTooLarge` is an aligned layout of four files that
  is rejected for that reason.
- A sweep from an empty cursor to an empty result is complete if and only if its first call found room
  (or nothing had to be seen): a blocked call hands back the cursor it was given, and an empty one looks
  like a finished sweep (`PagedSweep.SweepIsComplete`).
- The v5 upgrade copies rows unchecked, so that every alias is the digest of its row's bytes if and only
  if every old row was intact (`CatalogBackfill.UpgradeV5`, with a damaged row in
  `CatalogBackfill.DamagedRowIsCopied`). The invariants of saving and of the catalog backfill therefore
  allow a damaged row whose only alias is the v1 hash it carries; no save or backfill step adds, removes
  or repairs such an alias.
- A catalog backfill step is refused if and only if its row is intact and its dictionary is malformed or
  one of its identities already leads to other bytes (`CatalogBackfill.BackfillRow`); the program then
  ends the sweep with an error. The sweep completes if and only if no due row is refused as the database
  stands and no two due rows claim one identity for different bytes (`CatalogBackfill.BackfillAll`).
- An admission leaves the reserve free if and only if more than the reserve was free before
  (`Admission.AdmissionLeavesReserve`). `Admission.Quota.Enqueue` ensures that for every hash that is not
  recent. The revival of a dormant job and the announcement of a peer are charged to the total alone and
  can take a reserved slot: `Discovery.AnnouncementReachesReserve`.
- The quantile read from the buckets never lies above the bucket of the exact nearest-rank sample. It is
  that bucket if and only if the stored buckets before it stay below the rank, which always holds up to
  2^64 - 1 samples; `Histogram.SaturationReadsLow` is a case beyond that where it reads low.
- The order of the two fields of a connection permit matters exactly when the permit is dropped by the
  last ticket of its IP: in the other order the entry stays behind without a reference
  (`TcpLimits.WrongDropOrderLeaks`).

## Model

| member | source | states |
|---|---|---|
| Bencode.ReadPath | src/collection/metainfo.rs:77-105 | a path is accepted exactly when the value is a non-empty list of byte strings that are safe segments, and its components are the bytes of the items in order |
| TorrentFiles.ParseFile | src/collection/metainfo.rs:357-429 | a parsed entry keeps the path it was given, has a target exactly when it is a symlink, and a symlink has no bytes |
| FileTree.FlattenAscends | src/collection/metainfo.rs:487-516 | flattening any accepted tree gives strictly ascending paths, none a prefix of another, all below the start |
| FileTree.FlattenIsExact | src/collection/metainfo.rs:487-516 | the flattened list holds exactly the leaves of the tree, each parsed from its own properties |
| FileTree.TreeWalk.Walk | src/collection/metainfo.rs:487-516 | the walk with one shared path and one shared list restores the path and appends exactly the flattened files, with the same error otherwise |
| PieceMath.PaddingReachesBoundary | src/collection/metainfo.rs:247-262 | the padding formula reaches the next piece boundary, less than one piece away |
| Layout.HybridStreamMatchesTree | src/collection/metainfo.rs:234-275 | in an aligned hybrid each file with bytes sits in the v1 stream at its v2 offset, v1 and v2 piece counts are equal, and trailing padding is shorter than one piece |
| Layout.CheckHybrid | src/collection/metainfo.rs:234-275 | the comparison loop accepts exactly the aligned layouts whose end boundary is a 64-bit number |
| Layout.AlignedButTooLarge | src/collection/metainfo.rs:268-273 | four files form an aligned layout whose stream fits 64 bits while its end boundary does not |
| Layout.CompareFile | src/collection/metainfo.rs:243-264 | one turn keeps the stream offset, the v2 end and the tree index in step, and rejects only layouts that are not aligned |
| Layout.ContentEndPieces | src/collection/metainfo.rs:243-270 | up to its last byte of content an aligned stream occupies exactly the pieces of its files |
| Layout.SumFiles | src/collection/metainfo.rs:276-304 | the totals loop succeeds exactly when the piece space is a 64-bit number, and then gives total, padding, space and pieces |
| Layout.SpacePieces | src/collection/metainfo.rs:285-303 | the v2 piece space spans exactly the sum of the files' own pieces |
| Layout.SpaceEndsWithContent | src/collection/metainfo.rs:234-303 | the v2 piece space of an aligned hybrid ends where the content of its v1 stream ends |
| PathRules.NeighboursSuffice | src/collection/metainfo.rs:305-314 | in a sorted list some pair of paths conflicts if and only if two neighbours do |
| PathRules.NeighbourConflict | src/collection/metainfo.rs:305-314 | the adjacent-pairs scan finds a conflict exactly when some two entries are equal or prefix-related |
| PathRules.FirstLargerExtends | src/collection/metainfo.rs:315-323 | a missing target is a directory of some file if and only if it is one of the first file after it |
| PathRules.ResolveTarget | src/collection/metainfo.rs:315-323 | the binary search accepts exactly the targets that are a file or a directory above one |
| PathRules.CheckPaths | src/collection/metainfo.rs:305-323 | the path stage rejects a list exactly for an all-pairs conflict or, without one, for a dangling symlink |
| PathRules.TreeHasNoConflict | src/collection/metainfo.rs:306-314 | a flattened tree, or a v1 list whose contents are one, has no conflicting paths |
| Metainfo.ReadV1Files | src/collection/metainfo.rs:430-476 | the loop over the v1 list gives the same files, or the same first error, as reading the entries one by one |
| Metainfo.CheckV1 | src/collection/metainfo.rs:477-486 | the v1 check succeeds exactly when the stream fits 64 bits and the piece string holds one 20-byte digest per started piece, and then gives their number |
| Metainfo.PieceCountsAgree | src/collection/metainfo.rs:276-303 | a hybrid reports the same piece count as the v2-only branch computes from the tree |
| Metainfo.AnalyzeFiles | src/collection/metainfo.rs:219-337 | the stages after the header accept exactly the valid dictionaries and report the true totals, padding, piece space and piece count; a path conflict is reported only for v1 |
| Metainfo.Analyze | src/collection/metainfo.rs:168-356 | the whole check accepts exactly the dictionaries valid for their format; what it reports satisfies the layout and path rules, and its totals, padding, piece space and pieces are those of the files |
| EventHistory.EvictKeepsSuffix | src/observation/history.rs:77-87 | eviction keeps a suffix of what was emitted with an exact byte total, leaves every entry within the limits, and drops nothing that could have stayed |
| EventHistory.EmitIsFaithful | src/observation/observer.rs:105-157 | an emission adds the next sequence number and keeps the history an exact, limited suffix |
| EventHistory.Scan | src/observation/observer.rs:237-263 | a page holds exactly the matching events between cursor and next, stops at the limit, and its next cursor skips no match |
| EventHistory.History.EvictNow | src/observation/history.rs:77-87 | popping under a clock that moves between tests ends where one test at the last reading would |
| EventHistory.History.EmitEvent | src/observation/observer.rs:105-157 | the locked method does exactly one emission step at three non-decreasing clock readings |
| EventHistory.History.ReadWindow | src/observation/observer.rs:225-230 | a window read evicts first and reports the sequences evicted + 1 to latest |
| EventHistory.History.ReadPage | src/observation/observer.rs:237-263 | a page read evicts first, returns a correct page, its window, and is complete exactly when nothing was ever evicted |
| EventStream.FullPage | src/monitor/api.rs:326-358 | the unfiltered page the stream works with is the page the history returns |
| EventStream.StepKeepsInv | src/monitor/api.rs:289-368 | every step of emitter, evicting reader or stream keeps the history faithful and the delivery gap-free |
| EventStream.EveryRunIsGapFree | src/monitor/api.rs:264-369 | over every run a connection has delivered start + 1, start + 2, ... up to its cursor, without gap or repeat, and a reset is its last output |
| EventStream.PollResetsExactlyOnLoss | src/monitor/api.rs:289-325 | a window test resets exactly on another run id, a lost event, a cursor from the future, or an oversized snapshot that is due |
| EventStream.PageResetsExactlyOnLoss | src/monitor/api.rs:326-358 | an eviction between window and page ends in a reset exactly when it took an undelivered event; otherwise the cursor advances |
| EventStream.LossIsPermanent | src/monitor/api.rs:289-359 | once an undelivered event is evicted the connection never delivers an event again |
| EventStream.DoneIsFinal | src/monitor/api.rs:276-278 | after its end a connection sends nothing |
| MetadataDb.ConsistentChecks | src/storage/schema.rs:314-343 | exact counters satisfy the CHECK clauses, in particular total at least indexed |
| MetadataDb.IndexedAllMeansAllKnown | src/collection/catalog/queries.rs:551-571 | indexed equals total exactly when every metadata row has a catalog row with known coverage |
| MetadataDb.PutCatalogKeeps | src/storage/schema.rs:188-223 | inserting or updating a catalog row keeps all counters equal to the true counts |
| MetadataDb.DeleteCatalogKeeps | src/storage/schema.rs:193-216 | deleting a catalog row keeps all counters equal to the true counts |
| MetadataDb.InsertMetadataKeeps | src/storage/schema.rs:321-323 | inserting a metadata row under a new hash keeps constraints and counters |
| MetadataDb.DeleteMetadataKeeps | src/storage/schema.rs:324-326 | deleting a row nothing refers to keeps constraints and counters |
| MetadataDb.RenameMetadataKeeps | src/collection/metadata_store.rs:57-65 | taking a free canonical hash keeps constraints and counters once the old catalog row is gone |
| IdentityStore.MatchIsByKey | src/collection/metainfo.rs:531-544 | a 20-byte key matches an identity of the bytes with exactly that swarm key, and nothing exactly when no digest the format allows has it |
| IdentityStore.Identities | src/collection/metainfo.rs:545-558 | one or two digests of the bytes, including the source, v1 before v2 |
| IdentityStore.MergeKeepsIdentities | src/collection/metadata_store.rs:92-106 | merging two intact rows with the same bytes keeps every alias a digest of its row or the only alias of a damaged one, and every canonical hash with its alias |
| IdentityStore.MergeIdentical | src/collection/metadata_store.rs:92-106 | the six statements of a merge trip no constraint, keep the identity invariants, move aliases and links, and delete only the merged row |
| IdentitySave.FoundIsGenuine | src/collection/metadata_store.rs:28-46 | a row that an identity of the bytes leads to, and that holds those bytes, is never a damaged one, so no merge touches a damaged row |
| IdentitySave.Gather | src/collection/metadata_store.rs:28-46 | the first loop conflicts exactly when an identity leads to other bytes, and otherwise folds what was found into one intact row, or changes nothing |
| IdentitySave.RenameRow | src/collection/metadata_store.rs:57-65 | the row takes its canonical hash after its old catalog row is removed, with every invariant kept |
| IdentityTransaction.EnsureCatalog | src/collection/catalog/mod.rs:11-124 | a current catalog row is left alone, any other is written with its coverage |
| IdentityTransaction.Register | src/collection/metadata_store.rs:66-84 | the second loop makes each identity an alias, records and links its swarm key, and closes the other lookup |
| IdentityTransaction.LinkedAt | src/collection/metadata_store.rs:66-78 | the source's own key carries its label, an existing label is kept, a derived key only fills a gap |
| IdentityTransaction.MetadataStore.Save | src/collection/metadata_store.rs:9-89 | a save is refused exactly for a bad size, no matching key, a malformed dictionary or a clash, and then changes nothing; an accepted one leaves exactly the described tables; identity invariants, constraints and counters hold in either case, damaged rows or not |
| IdentityTransaction.SaveReachesOneRow | src/collection/metadata_store.rs:9-89 | after an accepted save all identities lead to one row holding exactly the bytes under the canonical hash; only a row with the same bytes is gone and no row changes its bytes |
| IdentityTransaction.SaveOnlyAdds | src/collection/metadata_store.rs:9-89 | an accepted save makes its own identities lead to its bytes and changes for no other identity which bytes it leads to |
| IdentityTransaction.ClashIsOtherBytes | src/collection/metadata_store.rs:28-46 | a save clashes exactly when one of its identities is already an alias of other bytes |
| IdentityTransaction.SaveKeepsDamage | src/collection/metadata_store.rs:9-89 | no save adds a wrong alias, and none repairs or removes one |
| IdentityTransaction.NextSaveFindsRow | src/collection/metadata_store.rs:29-46 | once all identities are aliases of one row, the next lookup finds that row and nothing to merge |
| IdentityTransaction.BothOrNeither | src/collection/metadata_store.rs:9-89 | two saves of the same bytes under two of their keys are both accepted and reach the same row, or both refused alike with nothing changed |
| IdentityTransaction.HybridOrderDoesNotMatter | src/collection/metadata_store.rs:9-89 | saving a hybrid under v1 then v2, or v2 then v1, at any times gives the same four outcomes, the same aliases and the same labels |
| CatalogBackfill.BackfillOne | src/collection/catalog/queries.rs:492-549 | one step takes the smallest due row above the cursor; it is refused exactly when that row is intact and cannot be stored; with no row left it reports whether indexed equals total |
| CatalogBackfill.BackfillRow | src/collection/catalog/queries.rs:530-541 | an intact row is saved again and a damaged one gets a placeholder without an alias; refused exactly for an intact row with a malformed dictionary or a clash |
| CatalogBackfill.StepKeepsCompletable | src/collection/catalog/queries.rs:492-549 | a step makes its row no longer due, makes no other row due, and neither helps nor harms the completion of the sweep |
| CatalogBackfill.BackfillAll | src/collection/catalog/queries.rs:492-549 | steps from an empty cursor end complete exactly for the completable databases, and then no row is due, every metadata row is catalogued and indexed equals total; wrong aliases stay as they were |
| CatalogBackfill.UpgradeV4Recounts | src/storage/schema.rs:170-228 | the v4 rebuild leaves counters equal to the true counts |
| CatalogBackfill.UpgradeV5 | src/storage/schema.rs:248-376 | the v5 rebuild satisfies the invariants of saving, links every row to its own hash as v1_full, writes each old catalog row with unknown coverage, and has wrong aliases exactly for the damaged rows |
| CatalogBackfill.Migrate | src/storage/schema.rs:248-376 | an upgrade followed by a sweep from an empty cursor completes exactly for completable databases and keeps the wrong aliases of damaged rows |
| CatalogBackfill.DamagedRowIsCopied | src/storage/schema.rs:248-376 | a row whose hash is no digest of its bytes is copied and leaves an alias that is no digest |
| NodeDistance.XorInjective | src/dht/shortlist.rs:16-26 | no two node ids are equally far from a target |
| NodeDistance.ShortlistIsClosest | src/dht/shortlist.rs:16-26 | no live candidate outside the shortlist is nearer than one inside |
| Lookup.SharedPeers.Collect | src/collection/lookup.rs:253-269 | peers stay distinct and at most 32, and below the limit every peer found is kept |
| Lookup.TrimKeepsClosest | src/collection/lookup.rs:248-252 | trimming keeps exactly 256 candidates, each nearer than any dropped one |
| Lookup.FillSlots | src/collection/lookup.rs:180-206 | filling takes the shortlist nearest first, keeps at most 3 in flight and 32 queries, never repeats an id or address, and leaves a slot free only when the queries are spent or no shortlisted candidate is untried |
| Lookup.SettleIsSound | src/collection/lookup.rs:236-252 | any reply frees one slot and keeps every bound and the no-repeat rule, even when the answering node was trimmed |
| Lookup.Run | src/collection/lookup.rs:160-273 | the lookup terminates for all replies and interference, within its bounds, and a normal end below both limits has the 8 closest live candidates all succeeded |
| LookupPacer.LastOfIsLast | src/collection/lookup.rs:32-66 | the last grant of an IP is the latest one in the full history |
| LookupPacer.GrantKeepsSpacing | src/collection/lookup.rs:46-66 | a grant no earlier than the full history allows keeps 100 ms overall and 1 s per IP |
| LookupPacer.Pacer.Attempt | src/collection/lookup.rs:46-66 | with expired entries dropped, grant and wait are exactly those of the full grant history |
| LookupPacer.Interleave | src/collection/lookup.rs:32-66 | whatever the interleaving of workers, all grants stay spaced |
| TcpLimits.AcquireRefines | src/collection/tcp_limits.rs:47-72 | acquiring, over weak entries and strong counts, is joining the IP's line |
| TcpLimits.LeaveRefines | src/collection/tcp_limits.rs:24-41 | dropping a permit or a wait is leaving the line, and the entry goes with the last ticket |
| TcpLimits.TcpState.Acquire | src/collection/tcp_limits.rs:47-72 | the method upgrades or replaces the entry and then takes the permit or queues |
| TcpLimits.TcpState.Drop | src/collection/tcp_limits.rs:24-41 | the acquisition is released before the ticket looks at the strong count |
| TcpLimits.EveryInterleavingRefines | src/collection/tcp_limits.rs:24-72 | every interleaving of acquisitions, cancellations and releases behaves like plain first-come-first-served lines |
| TcpLimits.TableHasExactlyTheLines | src/collection/tcp_limits.rs:24-72 | the table holds exactly the IPs with a holder or waiter, each with exactly one holder and one shared semaphore |
| TcpLimits.SwappedKeepsTable | src/collection/tcp_limits.rs:36-41 | in the other field order the ticket never sees the last reference: all but the table comes out the same, and the table keeps every entry |
| TcpLimits.WrongDropOrderLeaks | src/collection/tcp_limits.rs:36-41 | in the other field order the entry outlives every ticket of its IP exactly when the last one left, and exactly then the table no longer matches the tickets |
| Ranking.LimitIsFirst | src/collection/jobs/hints.rs:62-73 | ORDER BY with LIMIT k selects exactly the members with fewer than k ahead |
| Hints.EveryRunTracks | src/collection/jobs/hints.rs:48-73 | over every run of announcements and cleanups the stored hints above the latest cutoff are exactly the fresh top eight of the whole merged log |
| Hints.MergedLogIsLatest | src/collection/jobs/hints.rs:48-61 | the merged log holds the latest time announced for each peer |
| Hints.OrderDoesNotMatter | src/collection/jobs/hints.rs:48-73 | two runs with the same announcements in any order store the same hints above both cutoffs |
| Hints.AnnouncedHints | src/collection/jobs/hints.rs:48-73 | the two statements upsert and trim one hash and leave the hints of all others alone |
| JobsDb.EnqueuedCounts | src/collection/jobs/admission.rs:396-448 | creating or reviving adds exactly one active job, anything else none |
| JobsDb.EnqueuedWaiting | src/collection/jobs/admission.rs:114-136 | an admission lengthens the first-attempt queue by at most one, and only for a recent hash |
| Admission.AdmissionLeavesReserve | src/collection/jobs/admission.rs:396-448 | an admission leaves the whole reserve free exactly when more than the reserve was free before |
| Admission.Quota.constructor | src/collection/jobs/admission.rs:168-190 | the loaded counters agree with the database, and recent room fits the buffer or what was already waiting |
| Admission.Quota.Enqueue | src/collection/jobs/admission.rs:218-243 | the counters keep agreeing with the database; a job appears exactly when there is room and cause; a hash that is not recent leaves the whole reserve free |
| Admission.Quota.Observe | src/collection/jobs/admission.rs:191-217 | with the buffer on only a dormant job past its delay is revived, charged to the total, which stays at the reserve exactly if it was above it; active jobs stay within the limit or what they were |
| Discovery.MergeIsUnique | src/collection/records.rs:181-194 | a hash table is determined by its start and the set of observations: neither order nor repetition matters |
| Discovery.SavedMerges | src/collection/records.rs:181-194 | upserting a segment adds its observations to the minimum and maximum of each hash |
| Discovery.ReplayChangesNothing | src/collection/records.rs:181-194 | saving a segment that has been merged before changes nothing |
| Discovery.SaveHashes | src/collection/records.rs:26-103 | a segment within limits is merged row by row and exceeds no quota on the way; an invalid one changes nothing |
| Discovery.DiscoverPeer | src/collection/jobs/hints.rs:17-82 | an announcement is refused exactly when the queue is full and the hash has no active job; otherwise times, job and hints are updated, an admission takes one free slot, and no hash ever holds more than eight hints |
| Discovery.AnnouncementReachesReserve | src/collection/jobs/hints.rs:32-49 | announcing a stored hash that is not recent can take the last reserved slot |
| Discovery.CleanupExpired | src/collection/jobs/hints.rs:106-123 | one cleanup deletes only expired hints, oldest first, and as many as fit one batch |
| PagedSweep.SweepIsComplete | src/collection/jobs/admission.rs:462-562 | a finished sweep scans in strictly ascending order, and all rows visible throughout if and only if its first call was not blocked or there were none |
| PagedSweep.BlockedSweepIsEmpty | src/collection/jobs/admission.rs:462-562 | a sweep whose first call is blocked ends at once with nothing scanned |
| Backfill.BackfillPage | src/collection/jobs/admission.rs:462-562 | one call is a sweep step over the hash order; every scanned hash that may have a job has an active one, and active jobs stay bounded |
| Backfill.BackfillRecentPage | src/collection/jobs/admission.rs:299-377 | one call is a sweep step over first sighting and hash, and the first-attempt queue never outgrows its old size or the buffer |
| Backfill.BoundIsCursor | src/collection/jobs/admission.rs:16-21 | the single lower bound of the recent query selects exactly the window rows beyond the cursor |
| Backfill.HistorySweepIsComplete | src/collection/jobs/admission.rs:462-562 | a finished sweep not blocked at its first call has scanned every hash stored throughout, with other transactions in between, and left a job where one was due |
| Backfill.RecentSweepIsComplete | src/collection/jobs/admission.rs:299-377 | the same for hashes that stay in the recent window with the same first sighting |
| Claim.ClassesPartition | src/collection/jobs/claim.rs:187-225 | a row satisfies exactly the class predicate that its CASE label names |
| Claim.HintsFor | src/collection/jobs/claim.rs:102-129 | the peers handed out are exactly the fresh legal hints, newest first, and there is one exactly when a fresh legal hint exists |
| Claim.ClaimNext | src/collection/jobs/claim.rs:41-160 | nothing is claimed exactly when no job is due; otherwise the least due job of the first non-empty class starts a new generation, and a hint claim carries a peer |
| Fencing.ClaimsAreFenced | src/collection/jobs/claim.rs:94-101 | no two claims of a run share hash and generation, and later claims of a hash have larger ones |
| Fencing.SaveIsAllowed | src/collection/metadata_store.rs:79-83 | closing the jobs of the other keys in a save is a step of such a run: no job disappears and no generation falls |
| Ingest.Storage.Save | src/storage/mod.rs:235-252 | only a confirmation proves that a segment, and everything queued before it, has run; without one it may still commit later |
| Ingest.ConfirmedAdvances | src/collection/ingest/mod.rs:69-88 | confirming the next segment covers a longer prefix of the batch and nothing else |
| Ingest.SampleIngest.SaveNext | src/collection/ingest/mod.rs:69-88 | the resume offset advances only over a confirmed segment |
| Ingest.SampleIngest.SaveBatch | src/collection/ingest/mod.rs:54-90 | a batch leaves the slot only when all of it is confirmed; a failure or cancellation keeps it with its offset |
| Ingest.SampleIngest.Run | src/collection/ingest/mod.rs:38-92 | no batch is lost, repeated or reordered, and a run that finishes leaves the table equal to its start merged with every sample ever delivered |
| Histogram.BucketBrackets | src/histogram.rs:56-64 | the buckets before that of a value hold only smaller samples, and with it all that are not larger |
| Histogram.StoredPrefix | src/histogram.rs:48-64 | a prefix of the saturating buckets is exact unless it already exceeds 64 bits |
| Histogram.FoundBucket | src/histogram.rs:67-92 | the bucket found is never above that of the exact nearest-rank sample, and equals it exactly while the buckets before it stay below the rank |
| Histogram.NearestRankExists | src/histogram.rs:65-77 | there is a nearest-rank sample for every rank that occurs |
| Histogram.NearestRankIsUnique | src/histogram.rs:65-77 | there is only one nearest-rank sample of a rank |
| Histogram.SaturationReadsLow | src/histogram.rs:67-92 | with more samples than 64 bits count, a full first bucket makes the maximum read too low |
| Histogram.Histogram.Record | src/histogram.rs:56-64 | after recording, the buckets are the saturated tallies of one more sample |
| Histogram.Histogram.Merge | src/histogram.rs:48-53 | merging equals having recorded both lists of samples |
| Histogram.Histogram.Count | src/histogram.rs:93-95 | the saturating fold is the saturated number of samples |
| Histogram.Histogram.ReadQuantile | src/histogram.rs:67-92 | no answer exactly for no samples; the scan always ends inside the buckets, and the answer encloses the exact nearest-rank sample |
| Backpressure.BacklogEndsSteadily | src/collection/backpressure.rs:78-95 | a backlog pause ends only after low readings spanning thirty seconds with none higher between |
| Backpressure.SteadyLowResumes | src/collection/backpressure.rs:78-95 | while the clock does not run back, any such stretch does end it |
| Backpressure.CapacityHolds | src/collection/backpressure.rs:69-77 | a capacity pause outlasts every reading at or above the resume mark and every storage pause |
| Backpressure.CapacityModeNeverWaits | src/collection/backpressure.rs:78-85 | in capacity mode no backlog pause ever starts |
| Backpressure.Backpressure.Update | src/collection/backpressure.rs:46-100 | each reading extends the log lawfully, resumes counts the paused-to-running edges, paused time sums the intervals that began paused, and the result tells whether the overall pause changed |
| Backpressure.Backpressure.Report | src/collection/backpressure.rs:102-104 | a report accounts the interval up to now and leaves the pause state alone |

## Left out

- Bencode bytes, parse budgets, SHA digests and display text: the checker model starts from the decoded value tree; hidden and executable flags of a file are not carried.
- SQLite, FTS5, query plans and time budgets: a transaction is one atomic step; the order of expired hints with equal times is fixed by key, which SQLite leaves open.
- Integer widths of counters that cannot be reached (event sequence numbers, generations, row ids, number of pieces as a machine word) are unbounded; the 64-bit checks the program makes itself are modelled.
- EventStream.EveryRunIsGapFree: the connection is a state machine rather than an object, because its steps interleave with other threads; filters, JSON shapes and the snapshot contents are not modelled.
- Lookup.Run: the deadline that cancels a running lookup is not modelled; sockets and token handling become arbitrary replies.
- TcpLimits.EveryInterleavingRefines: the global connection limit around the per-IP permits is not modelled, and the semaphore's queue is first come, first served.
- Fencing.ClaimsAreFenced: the transactions that finish a claimed job are only known not to delete jobs or lower generations; retry times, failure counts and the choice of class order are not modelled.
- IdentityTransaction.MetadataStore.Save: the error text of a closed job is not modelled, search text is reduced to whether coverage is complete, and the checks that stored times are not negative are not modelled.
- Ingest.SampleIngest.Run: several ingests over one database appear to each other as other writers; logging and event emission are not modelled.
- Histogram.FoundBucket: the bracket of the exact sample is claimed only up to 2^64 - 1 samples; beyond that the lemma gives the one-sided bound and the condition on the stored buckets.
- The count-and-sum wrapper around the histogram, deferral counters, statistics, spans and logs: easy sums.
- Session start, supervision, shutdown, routing tables, transactions, HTTP, the web interface and scripts: plumbing around these cores.
- Retry policy, transitions of finished jobs and peer connections (src/collection/jobs/transitions.rs, src/collection/jobs/policy.rs, src/collection/peer): not part of this model.
