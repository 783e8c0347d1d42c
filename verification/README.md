# FileFerry in Dafny

FileFerry is an encrypted, deduplicating backup engine over an immutable object
store. This project models its core and proves what the engine promises: that
commits are complete under any interleaving of clients, that a backup restores
to the tree it was made of, that retention never marks what the policy keeps,
that `check` finds exactly the damage that matters, and that the pieces below
(local store, retries, encodings, key slots, calendar, globbing) do what the
pieces above rely on.

`dafny verify dfyconfig.toml` checks everything.

## How the modules fit together

* **Store.** `ObjectStore` is the contract, an atomic map of immutable objects.
  `LocalStore` refines it by temporary files and hard links, `LocalPut` is one
  such put that nobody disturbs, `RetriedStore` by
  attempts that may take effect although they report a failure. `Keys` is the
  syntax of object keys.
* **Repository.** `Repository` has the stored types and symbolic encryption,
  `Manifests`, `Readers` and `Backup` the formats, `Integrity` the invariant of
  the stored objects. `Protocol` is the state machine: any number of backups,
  forgets and key additions, one store operation per step, any of which may
  never take its next step. `WriteSnapshot` is one backup from start to end
  with its counters and the objects it publishes, `StoredBytes` the bytes it
  uploads, and `WriterRuns` shows that it is a run of the backup client.
* **Reading.** `Visibility` is the committed-snapshot reader, operation by
  operation, and `PublicationRuns` sets it beside running clients.
  `Authenticity` says which objects the readers accept and what their errors
  mean. `Check`, `CheckMeaning`, `CheckCounts`, `Damage` and `Subset` are the
  repository check. `SteadyReads` and `ReadingRuns` set restore and check beside
  running clients.
* **Trees.** `Exclusion` and `Glob` decide what is pruned, `Walker` walks, and
  `Patterns` says what both do for the text of any pattern.
  `Chunking` cuts, `SourceManifests` says which walks give valid manifests,
  `RoundTrip` closes the circle in memory, `PartialRestore` selects paths.
  `Destination`, `DestinationWrites`, `ModTimes` and `FileSystems` restore into
  a file system, and `RestoredTree` says what is then in it.
* **Retention.** `Calendar` and `Retention` are the rules, `RetentionPlan` the
  plan that is computed, and `PlanMeaning` says it with dates and seconds.
  `ForgetPlan` is its use, `ForgetMarkers` the writing of markers, `ForgetRuns`
  a whole forget and what readers see afterwards, `RetentionRuns` its safety
  over whole runs, and `PlannedBackups` follows a backup's tags into later plans.
* **Keys.** `Encoding` is about associated data and HKDF `info` strings,
  `KeySlots` about opening a repository, `KeySlotDocuments` about the documents
  it accepts, `KeySlotWrites` about creating one and adding a slot, and
  `KeySlotRuns` about concurrent creates, opens and adds.

## How to read the model

* Cryptography is symbolic. A sealed object records the subkey, kind, object
  name and nonce it was sealed with and opens only with the same subkey, kind
  and name; two seals with different nonces are different bytes, so the store
  refuses the second one under one key. Keyed content ids are arbitrary
  functions; theorems that need it require that they do not collide
  (`CollisionFree`, `ChecksDiffer`).
* Ids of snapshots, chunks and indexes are fixed-width hexadecimal strings.
  They are modelled as naturals in the order in which those strings sort.
* Compression, JSON and the content-defined chunker enter by contract: the
  first two give back what they were given, and chunk ranges are contiguous,
  non-empty and cover the input. Sizes after compression, lengths of stored
  objects, nonces, random ids, file contents and the clock are inputs.
* A reader takes a `history`: the state of the store at each of its operations.
  The functions over one state are what it computes when nobody else writes,
  and, by `ReadingRuns` and `Visibility`, also beside running clients.
* A loop over a vector is a `method` proved equal to a recursive function that
  takes the last element off; the properties are then lemmas about that
  function.
* In `KeySlotRuns` an open is one step. Objects never change, so reading the
  bootstrap and the listed slots later gives the same (`OpenLaterIsTheSame`). In `Protocol`
  a forget plans in one step; `ForgetPlan` shows that reading operation by
  operation beside other clients gives that plan.

## Where the statements are less than one might expect, because the code is

* `wildcard_match` takes each part at its first occurrence and then requires
  the end, so `*.tmp` rejects `.tmp.tmp`. It is exact if and only if the
  pattern is non-empty and has no `*` or ends in `*`.
* `civil_from_days` casts its year to `i32`. Buckets are the calendar's exactly
  for times before 67767976233532800 seconds; at that second they fall back.
* A percentage of chunks is rounded up exactly while the product, which
  saturates, is at most 18446744073709551700.
* A written snapshot can be read back only if the backup had no root at all or
  exactly one, which is a directory, and every file still had its captured size
  when it was read.
* A backup whose index is stored already, for example an empty one, seals it
  again under another nonce, which the store refuses as a conflict.
* The root directory of a snapshot cannot be restored onto `/`: that path has
  no parent, and the destination check refuses it.
* Keys below `.fileferry-tmp` are accepted by `validate_key` and stored, but
  never listed: a put of one is told Created and the object is lost to every
  listing.
* `check` reads forgotten commits too.
* An external key slot opens the repository exactly when its check value was
  made for the master key that it wraps, this repository and its own id. A slot
  with a check of its own for another key therefore passes; a slot that wraps
  another key than its check was made for never opens. For the whole open: it
  yields no other key than a given one if and only if the slot that decides for
  the passphrase, if any does, wraps that key.
* An attempt that itself reports an existing object is taken at its word by the
  retrying store, so its conflict says nothing about the stored bytes.

## Model

| member | source | states |
|---|---|---|
| `Calendar.DaysAndDatesAdvanceTogether` | crates/fileferry-policy/src/lib.rs:269-282 | every day number has a valid Gregorian date, and the next day has the next date of the calendar |
| `Calendar.CivilRoundTrip` | crates/fileferry-policy/src/lib.rs:269-282 | counting days year by year and month by month gives back the day number the date was computed from, for all days |
| `Calendar.DateRoundTrip` | crates/fileferry-policy/src/lib.rs:269-282 | every valid date is the date of exactly one day |
| `Calendar.CivilIsCalendar` | crates/fileferry-policy/src/lib.rs:269-282 | the arithmetic is a calendar: it starts at 1970-01-01 on day 0 and advances date by date in both directions |
| `Calendar.CalendarCounts` | crates/fileferry-policy/src/lib.rs:269-282 | a sequence of dates that starts at the epoch and advances date by date is unique |
| `Calendar.LaterDaysHaveLaterDates` | crates/fileferry-policy/src/lib.rs:269-282 | days are in the order of their dates |
| `Calendar.CastIsExact` | crates/fileferry-policy/src/lib.rs:265-282 | the casts to i32 and u32 lose nothing if and only if the time is before the first second of the year 2147483648 |
| `Calendar.BucketsFollowTheCalendar` | crates/fileferry-policy/src/lib.rs:172-191 | month and year buckets never go back in time, and two times share one exactly when their month or year is the same |
| `Calendar.BucketsFallBackAtOverflow` | crates/fileferry-policy/src/lib.rs:172-191 | at the second after the year 2147483647 the year bucket falls from 2147483647 to -2147483648 |
| `PlanMeaning.HoursAreStretches` | crates/fileferry-policy/src/lib.rs:151-157 | two snapshots share an hour bucket if and only if for some k both times lie from 3600k up to the next multiple of 3600 seconds |
| `PlanMeaning.DaysAreStretches` | crates/fileferry-policy/src/lib.rs:158-164 | two snapshots share a day bucket if and only if for some k both times lie from 86400k up to the next multiple of 86400 seconds |
| `PlanMeaning.WeeksAreStretches` | crates/fileferry-policy/src/lib.rs:165-171 | two snapshots share a week bucket if and only if for some k both times lie from 604800k up to the next multiple of 604800 seconds |
| `PlanMeaning.MonthsAndYearsAreThoseOfTheCalendar` | crates/fileferry-policy/src/lib.rs:172-191 | before the first second of 2147483648 two snapshots share a month bucket if and only if year and month of their dates agree, and a year bucket if and only if the years agree |
| `PlanMeaning.RulesMeanPeriods` | crates/fileferry-policy/src/lib.rs:134-263 | each count rule selects a snapshot if and only if no later one has its hour, day, week, month or year and fewer than the count of these occur later |
| `Retention.KeptIsPathIndependent` | crates/fileferry-policy/src/lib.rs:134-230 | keeping from old and new snapshots together is keeping from the kept old ones and the new ones |
| `Retention.KeptIsInherited` | crates/fileferry-policy/src/lib.rs:134-230 | a kept snapshot stays kept among any fewer snapshots that include it |
| `Retention.ForgettingKeepsKept` | crates/fileferry-policy/src/lib.rs:134-230 | dropping snapshots that are not kept changes nothing about what is kept |
| `Retention.LeadersFillTheQuota` | crates/fileferry-policy/src/lib.rs:243-263 | if at least `count` buckets are newer than a snapshot among all snapshots, at least `count` are among the selected leaders alone |
| `Retention.GenerosityIsMonotone` | crates/fileferry-policy/src/lib.rs:134-230 | raising counts or adding rules never turns Keep into Forget |
| `Retention.NewestIsKept` | crates/fileferry-policy/src/lib.rs:134-230 | any count rule keeps the newest snapshot |
| `Retention.KeepLastMeansNewest` | crates/fileferry-policy/src/lib.rs:145-153 | keep-last N keeps exactly the snapshots with fewer than N newer ones |
| `RetentionPlan.Plan` | crates/fileferry-policy/src/lib.rs:134-230 | decisions are the snapshots newest first; with distinct ids a snapshot gets `keep-last` if and only if keepLast is set and fewer than so many are later, `keep-hourly` to `keep-yearly` if and only if that field is set, no later one has its hour, day, week, month or year, and fewer than so many of these occur later, `keep-tag:` and a tag if and only if policy and snapshot have the tag, no other reason, and is forgotten if and only if it gets none |
| `RetentionPlan.SortNewestFirst` | crates/fileferry-policy/src/lib.rs:135-141 | a permutation of the input, newest first by time and then id |
| `RetentionPlan.KeepLast` | crates/fileferry-policy/src/lib.rs:145-153 | the rule's reason goes to the first snapshots of the list, up to the count, and the reasons of other rules stay |
| `RetentionPlan.KeepPeriodic` | crates/fileferry-policy/src/lib.rs:243-263 | the rule's reason goes to exactly the snapshots that open one of the first `count` buckets |
| `RetentionPlan.KeepTagged` | crates/fileferry-policy/src/lib.rs:193-201 | the rule's reason goes to exactly the snapshots with the tag |
| `RetentionPlan.CollectReasons` | crates/fileferry-policy/src/lib.rs:134-241 | the collected map holds exactly what all rules of the policy give |
| `RetentionPlan.CollectedReasonsAreReasons` | crates/fileferry-policy/src/lib.rs:134-241 | seen from positions in the sorted list, with early stop, the rules select what they select declaratively |
| `RetentionPlan.ReasonsSayWhy` | crates/fileferry-policy/src/lib.rs:134-230 | which policy field gives which literal reason, in terms of times, dates and tags |
| `RetentionPlan.KeptMeansReason` | crates/fileferry-policy/src/lib.rs:134-230 | a snapshot is kept if and only if it has some such reason |
| `RetentionPlan.PlanIgnoresInputOrder` | crates/fileferry-policy/src/lib.rs:134-141 | two listings of the same snapshots with distinct ids lead to the same sorted list and so the same decisions |
| `RetentionPlan.SortedListIsUnique` | crates/fileferry-policy/src/lib.rs:135-141 | a set of snapshots with distinct ids has one newest-first listing |
| `ForgetPlan.IdsToForget` | crates/fileferry-cli/src/lib.rs:1749-1782 | on any store, reading, planning, sorting and removing repeats gives the ids that the plan of the manifests read forgets, or the first failure; on a repository in order these are exactly the ids outside the kept set of the visible snapshots |
| `ForgetPlan.ForgottenByPlan` | crates/fileferry-cli/src/lib.rs:1764-1770 | the ids of the decisions to forget are those outside the kept set |
| `ForgetPlan.ReadingGivesTheSnapshots` | crates/fileferry-cli/src/lib.rs:1749-1763 | on a repository in order the reader succeeds if and only if all visible manifests can be read, and then returns their snapshots, each once |
| `ForgetPlan.SnapshotsReadAreDistinct` | crates/fileferry-cli/src/lib.rs:1749-1763 | whatever the store holds, damaged or not, each snapshot is read at most once |
| `ForgetPlan.PlanReadLaterIsTheSame` | crates/fileferry-cli/src/lib.rs:1749-1763 | reading the listed manifests in any later state gives what reading them at the listing gives, the first failure included |
| `ForgetPlan.ForgetPlanStepwise` | crates/fileferry-cli/src/lib.rs:1749-1782 | reading operation by operation beside other clients ends in the phase that the forget client of the state machine reaches in its one planning step at the listing |
| `RetentionRuns.RetentionIsSafe` | crates/fileferry-core/src/lib.rs:1378-1420 | after any run of backups, forgets on stale listings and crashes, no snapshot kept among all commits is marked, and the policy keeps the same ones whether or not it sees the marked ones |
| `RetentionRuns.StepKeepsRetention` | crates/fileferry-core/src/lib.rs:1378-1420 | each single step keeps marks and pending plans outside the kept set of all commits |
| `RetentionRuns.PlanIsSafe` | crates/fileferry-cli/src/lib.rs:1749-1782 | a plan made from a stale listing names nothing that is kept among all commits |
| `RetentionRuns.KeptWithoutForgotten` | crates/fileferry-core/src/lib.rs:1378-1420 | when marks are outside the kept set, the policy keeps the same snapshots without the marked ones |
| `ForgetMarkers.WriteForgetMarkers` | crates/fileferry-core/src/lib.rs:1378-1420 | succeeds if and only if there are ids and nothing but the same marker is in the way of any; then each id has its marker, field by field, nothing else was added, and each write says whether its marker is new; otherwise exactly the ids below the smallest one in the way are marked |
| `ForgetMarkers.MarkingIsARun` | crates/fileferry-core/src/lib.rs:1378-1420 | a forget client that takes its remaining steps while others pause has marked all its ids and has nothing left, or has failed at the first id that cannot be marked |
| `ForgetMarkers.WriteMarkersAsClient` | crates/fileferry-core/src/lib.rs:1378-1420 | writing the markers of a plan is such a run of the forget client: the same store, and all done if and only if the writer succeeds |
| `ForgetMarkers.ForgetMarksItsPlan` | crates/fileferry-core/src/lib.rs:1378-1420 | a forget client with free marker keys takes one step for each planned id, ends with nothing to do, and leaves for each id the marker with version 0, its manifest and commit keys and the time, and nothing else |
| `ForgetRuns.ReadCommittedMeaning` | crates/fileferry-core/src/lib.rs:1307-1376 | in a repository in order the reader returns exactly the committed, unforgotten manifests, if all can be read |
| `ForgetRuns.MarkedAreHidden` | crates/fileferry-core/src/lib.rs:1307-1420 | after ids are marked the reader returns none of them and every other snapshot it returned before |
| `ForgetRuns.CommittedOfOneState` | crates/fileferry-core/src/lib.rs:1307-1376 | on any store that nobody changes, reading operation by operation is reading one state |
| `ForgetRuns.Forget` | crates/fileferry-cli/src/lib.rs:1749-1782 | a forget that nobody disturbs succeeds if and only if the visible snapshots can be read and some has no reason to be kept; then the ids of exactly those are marked, and afterwards readers see exactly the snapshots with a reason; a dry run and a failure change nothing |
| `ForgetRuns.WholeForgetIsARun` | crates/fileferry-core/src/lib.rs:1307-1420 | the forget client of the state machine, alone from its start to its end, leaves readers exactly those snapshots too |
| `PlannedBackups.WrittenIsPlanned` | crates/fileferry-core/src/lib.rs:1028-1259 | in every later state, planning sees a written snapshot with the time and the tags it was written with, and no other snapshot with its id |
| `PlannedBackups.DoneIsPlanned` | crates/fileferry-core/src/lib.rs:1028-1259 | the same of every backup that is done, in every later state of every run |
| `PlannedBackups.WrittenIsRead` | crates/fileferry-cli/src/lib.rs:1749-1763 | the same of what the committed-snapshot reader hands to the plan |
| `PlannedBackups.KeptTagIsNeverMarked` | crates/fileferry-core/src/lib.rs:1378-1420 | a committed snapshot with a tag that the policy keeps is never marked, whatever all clients do |
| `PlannedBackups.KeepTaggedBackup` | crates/fileferry-core/src/lib.rs:1028-1420 | a backup that is written in any reachable state with a tag that the policy keeps is not marked in any later state of any run |
| `Glob.WildcardMatch` | crates/fileferry-core/src/lib.rs:3645-3683 | the loop with its moving remainder computes the part-by-part matching function |
| `Glob.WildcardIsSound` | crates/fileferry-core/src/lib.rs:3645-3683 | what the code accepts for a non-empty pattern, the pattern means |
| `Glob.WildcardIsComplete` | crates/fileferry-core/src/lib.rs:3645-3683 | greedy matching loses nothing when a non-empty pattern has no star or ends in one |
| `Glob.WildcardIsExact` | crates/fileferry-core/src/lib.rs:3645-3683 | the code decides the meaning of a pattern for all values if and only if the pattern is non-empty and has no star or ends in one |
| `Glob.RepeatedSuffixIsMissed` | crates/fileferry-core/src/lib.rs:3645-3683 | a star and a suffix means the doubled suffix, which the code rejects |
| `Exclusion.SegmentsMatchMeaning` | crates/fileferry-core/src/lib.rs:3628-3643 | the recursion accepts if and only if the pattern's segments can be laid over the path, each matching one segment or, for `**`, a run of them |
| `Exclusion.ExclusionIsInherited` | crates/fileferry-core/src/lib.rs:3558-3601 | a bare name, and a rule written for a directory's contents, excludes everything below what it excludes |
| `Exclusion.RuleSegmentsAreNames` | crates/fileferry-core/src/lib.rs:3558-3576 | the segments of a rule as it is built are never empty and hold no slash |
| `Exclusion.BareNameRule` | crates/fileferry-core/src/lib.rs:3558-3601 | the rule built from a bare name excludes a path if and only if some component matches the name |
| `Exclusion.DirectoryRule` | crates/fileferry-core/src/lib.rs:3558-3601 | the rule built from any name with a slash behind it, `**` included, excludes a path if and only if its first component matches the name |
| `Patterns.RuleSpellsItsPattern` | crates/fileferry-core/src/lib.rs:3558-3576 | the segments of the rule built from any text are the names that the text spells: separated by one or more slashes or backslashes, with any number around them |
| `Patterns.NamesAreUnique` | crates/fileferry-core/src/lib.rs:3558-3576 | a text spells one list of names |
| `Patterns.RuleMeansItsPattern` | crates/fileferry-core/src/lib.rs:3586-3601 | a rule built from any text excludes a path if and only if the text is one name and some component matches it, or it ends in a slash and its names can be laid over as many first components, or it does not and its names can be laid over the whole path |
| `Patterns.InnerSlashRule` | crates/fileferry-core/src/lib.rs:3586-3601 | two or more names joined by slashes, or by backslashes, exclude exactly the paths they can be laid over |
| `Patterns.LeadingSlashRule` | crates/fileferry-core/src/lib.rs:3586-3601 | with a slash in front, so do one or more names |
| `Patterns.TrailingSlashRule` | crates/fileferry-core/src/lib.rs:3586-3601 | with a slash behind them, names exclude exactly the paths whose first components they can be laid over |
| `Walker.Walk` | crates/fileferry-core/src/lib.rs:348-403 | the queue loop returns the recursive listing of the root |
| `Walker.VisitChildren` | crates/fileferry-core/src/lib.rs:370-400 | one round of the queue appends the unexcluded children in order and queues their directories |
| `Walker.QueueShrinks` | crates/fileferry-core/src/lib.rs:348-403 | each round leaves fewer nodes below the queued directories, so the loop ends |
| `Walker.WalkFromMeaning` | crates/fileferry-core/src/lib.rs:348-403 | a walk from any queue lists exactly what lies unexcluded below the queued directories |
| `Walker.WalkFromIsDistinct` | crates/fileferry-core/src/lib.rs:348-403 | it lists each path once |
| `Walker.ParentsComeFirst` | crates/fileferry-core/src/lib.rs:348-403 | it lists no path before its parent |
| `Walker.WalkIsExact` | crates/fileferry-core/src/lib.rs:338-410 | the walk lists each node with no excluded self-or-ancestor exactly once, the root first, parents before children, and does not follow symlinks |
| `Patterns.WalkByPatterns` | crates/fileferry-core/src/lib.rs:338-410 | with rules built from any texts, a walk lists a node if and only if the tree has it and no text excludes its path or a path above it |
| `Patterns.WalkWithoutNames` | crates/fileferry-core/src/lib.rs:338-410 | with the rules `**/` and a name, for any names, a walk lists exactly the nodes on whose path no component matches a name |
| `SourceManifests.DirectoryManifestIsValid` | crates/fileferry-core/src/lib.rs:3251-3371 | the manifest of one unchanging directory root always passes validation |
| `SourceManifests.OtherRootsAreRejected` | crates/fileferry-core/src/lib.rs:3251-3311 | the manifest of several roots, or of one that is no directory, never passes |
| `SourceManifests.ManifestIsValidExactly` | crates/fileferry-core/src/lib.rs:3251-3371 | a written manifest passes if and only if there was no root or one directory root, and all files still had their captured sizes |
| `Manifests.Validate` | crates/fileferry-core/src/lib.rs:3251-3336 | accepts if and only if all paths are normal and distinct, sizes match without overflow, only files have chunks and only directories have descendants; a rejection names an entry and a fault it has |
| `Manifests.ValidateEntry` | crates/fileferry-core/src/lib.rs:3257-3313 | the checks of one entry against the paths seen before |
| `Manifests.ValidateAncestors` | crates/fileferry-core/src/lib.rs:3315-3333 | finds a non-empty proper ancestor that is recorded as something else than a directory, if there is one |
| `Manifests.CheckedTotal` | crates/fileferry-core/src/lib.rs:3291-3303 | the sum of the chunk lengths, or None if it exceeds a u64 |
| `Backup.IndexCoversPieces` | crates/fileferry-core/src/lib.rs:1169-1176 | after the sort and the removal of repeats the index is strictly increasing by chunk id and covers exactly the chunks that were seen |
| `Backup.DedupIncreases` | crates/fileferry-core/src/lib.rs:1169-1172 | removing repeats from a list sorted by id leaves strictly increasing ids |
| `Backup.IndexEntryIsOfFirstPiece` | crates/fileferry-core/src/lib.rs:1169-1172 | of several pieces with one chunk, the index has the entry of the first, as the stable sort and the removal of repeats leave it |
| `Chunking.PiecesRebuildData` | crates/fileferry-core/src/lib.rs:510-523 | the pieces of contiguous ranges that cover a file, put together, are the file |
| `WriteSnapshot.StoreChunk` | crates/fileferry-core/src/lib.rs:1103-1146 | the chunk is there afterwards; it is written if and only if it was absent, as exactly one new object, and nothing else changes |
| `WriteSnapshot.StoreFile` | crates/fileferry-core/src/lib.rs:1085-1166 | succeeds if and only if all ranges lie within the file; then all its pieces are stored, each counted once as written or reused, and what a failing file has stored is exactly its pieces so far |
| `WriteSnapshot.StoreEntries` | crates/fileferry-core/src/lib.rs:1063-1167 | succeeds if and only if every file can be read and cut, else reports the first that cannot; every source entry becomes one manifest entry with its pieces, and the counters say what was read and stored |
| `WriteSnapshot.PutObject` | crates/fileferry-core/src/lib.rs:2771-2790 | one put; the bytes it reports are what it adds to the sizes of all objects |
| `WriteSnapshot.Publish` | crates/fileferry-core/src/lib.rs:1172-1235 | succeeds if and only if none of index, manifest and commit marker is in the way of other bytes; then all three are stored as they were sealed, no chunk object was added, and the bytes reported are those of the objects that were added |
| `WriteSnapshot.Write` | crates/fileferry-core/src/lib.rs:1028-1259 | succeeds if and only if all files can be read and cut and nothing is in the way of the publication; then the stored manifest opens to the time and tags given and one entry for each source, with its path, metadata and references to the chunks of its bytes; the stored index opens to the ids and lengths of exactly these chunks, with the stored length of each that was added; the commit marker has version 0 and names the manifest; the counters conserve: kinds add up to the sources, chunks are written or reused, written ones are the new chunk objects, bytes uploaded are the sizes of all new objects, bytes scanned are those the manifest refers to; the store afterwards is exactly determined, success or failure |
| `WriteSnapshot.SealedManifestHolds` | crates/fileferry-core/src/lib.rs:1193-1219 | the sealed manifest of a job opens to time, tags and one entry for each source, field by field |
| `WriteSnapshot.SealedIndexHolds` | crates/fileferry-core/src/lib.rs:1169-1191 | the sealed index opens to the ids and lengths of the chunks, and for each chunk that was added to the length of the object that is stored |
| `WriteSnapshot.FirstPieceIsStored` | crates/fileferry-core/src/lib.rs:1103-1146 | of several pieces with one new chunk, the first is the one that is stored, under its nonce |
| `WriteSnapshot.RepeatedIndexIsRefused` | crates/fileferry-core/src/lib.rs:2771-2790 | a stored index that was sealed under another nonce makes the same index unpublishable |
| `WriteSnapshot.DeduplicationConserves` | crates/fileferry-core/src/lib.rs:1063-1259 | kinds add up to the entries, bytes scanned are the bytes the manifest refers to, and the index lists each chunk id that the manifest refers to once, in order, and no other |
| `StoredBytes.OneNewObject` | crates/fileferry-core/src/lib.rs:1103-1235 | the bytes of a growing store increase by the size of each object that is added, whatever the order of the sum |
| `WriterRuns.WholeBackupIsARun` | crates/fileferry-core/src/lib.rs:1028-1259 | in any world, the backup client alone takes steps that leave the store the sequential writer leaves, and is done if and only if nothing was in the way of the publication |
| `WriterRuns.WriteAsClient` | crates/fileferry-core/src/lib.rs:1028-1259 | the sequential writer, whether it succeeds or stops, is a run of a new backup client for what it handled, all others pausing, and succeeds if and only if that client is done |
| `Integrity.PutIndexKeepsInv` | crates/fileferry-core/src/lib.rs:1172-1191 | writing the index of stored chunks keeps the invariant |
| `Integrity.PutManifestKeepsInv` | crates/fileferry-core/src/lib.rs:1193-1219 | writing a manifest whose index is stored keeps the invariant |
| `Integrity.ChunkReadsBack` | crates/fileferry-core/src/lib.rs:1924-2000 | under the invariant each chunk reference of a complete body resolves, opens and has its id and length |
| `Integrity.CommitsAreComplete` | crates/fileferry-core/src/lib.rs:1028-1259 | under the invariant every commit has its manifest, its index, and for every chunk an agreeing index entry and an authentic object with that id |
| `Protocol.BackupStepIsOk` | crates/fileferry-core/src/lib.rs:1063-1259 | each step of a backup keeps the invariant and what the backup relies on next |
| `Protocol.ForgetStepIsOk` | crates/fileferry-core/src/lib.rs:1378-1420 | each step of a forget does too, and marks only committed snapshots |
| `Protocol.StepKeepsInv` | crates/fileferry-core/src/lib.rs:1028-1420 | a step of any client keeps the invariant of store and all clients, and changes no object |
| `Protocol.RunKeepsInv` | crates/fileferry-core/src/lib.rs:1028-1420 | so does any run |
| `Protocol.ReachableCommitsAreComplete` | crates/fileferry-core/src/lib.rs:1028-1259 | in every reachable state of any interleaving every commit is complete, and no later step changes or removes an object |
| `Repository.SealedOpensOnlyAsItself` | crates/fileferry-core/src/lib.rs:2758-2848 | an object opens if and only if it was sealed with this subkey, kind and name |
| `Authenticity.ManifestReadsExactly` | crates/fileferry-core/src/lib.rs:1261-1305 | on any store a manifest is read if and only if the object under its key was sealed as one for this repository and key, names its id, hashes to it and is valid |
| `Authenticity.IndexReadsExactly` | crates/fileferry-core/src/lib.rs:1496-1534 | the same of an index |
| `Authenticity.ChunkReadsExactly` | crates/fileferry-core/src/lib.rs:1924-2000 | a reference yields bytes if and only if the index has its chunk with the same key and length, and the object under that key was sealed as a chunk with these bytes, of that length and content id |
| `Authenticity.ManifestFaults` | crates/fileferry-core/src/lib.rs:1261-1305 | each error of a manifest read says what is wrong with the object |
| `Authenticity.IndexFaults` | crates/fileferry-core/src/lib.rs:1496-1534 | so does each error of an index read |
| `Authenticity.ChunkFaults` | crates/fileferry-core/src/lib.rs:1924-2000 | so does each error of a chunk read: no index entry, another key or length, missing, not opened, longer, shorter, or another id |
| `Authenticity.MarkerReadsExactly` | crates/fileferry-core/src/lib.rs:1447-1494 | a forget marker is accepted if and only if it has version 0 and names the id of its key with its manifest and commit |
| `Authenticity.MarkerFaults` | crates/fileferry-core/src/lib.rs:1447-1494 | otherwise the error says whether it is missing, cannot be decoded, or says something else |
| `Authenticity.CommitReadsExactly` | crates/fileferry-core/src/lib.rs:1555-1602 | a commit marker is accepted by the check if and only if it has version 0 and names the id of its key with its manifest |
| `Authenticity.ListedReadsExactly` | crates/fileferry-core/src/lib.rs:1307-1355 | for a listed commit the reader yields a manifest if and only if the marker is such a one, not forgotten, and the manifest is read, and nothing if and only if it names a forgotten snapshot |
| `Authenticity.ListedFaults` | crates/fileferry-core/src/lib.rs:1307-1355 | otherwise its error says which of these is wrong |
| `Authenticity.CheckNamesWhatIsMissing` | crates/fileferry-core/src/lib.rs:3492-3520 | on any store the check calls an object missing only if it is, and never reports a missing manifest, index or chunk by another name |
| `Readers.LoadIndexEntries` | crates/fileferry-core/src/lib.rs:2186-2204 | one read per index over any sequence of states: later entries replace earlier ones, or the first failure stops the loop |
| `Readers.RestoreFileContents` | crates/fileferry-core/src/lib.rs:1924-2000 | one read per chunk over any sequence of states: the concatenation of the chunks or the first failure |
| `Readers.RestoreAll` | crates/fileferry-core/src/lib.rs:1876-2013 | the entry loop over any sequence of states sorts restored entries into directories and files with their times, symlinks, and warnings with their texts, or stops at the first failure |
| `Readers.RestoreSnapshot` | crates/fileferry-core/src/lib.rs:1849-2013 | the whole restore into memory, operation by operation over any sequence of states, with its order of errors, computes the specified contents, and counts the entries it selected |
| `SteadyReads.RestoreIsSteady` | crates/fileferry-core/src/lib.rs:1849-2013 | if the objects it reads do not change between its reads, a restore operation by operation is the restore of one state |
| `ReadingRuns.RestoreBesideRun` | crates/fileferry-core/src/lib.rs:1849-2013 | on a repository in order and beside any running clients, a restore gives exactly what the state of its first read holds, failure included |
| `Visibility.ReadForgotten` | crates/fileferry-core/src/lib.rs:1357-1376 | over any sequence of states, one listing and one read per marker collect the ids the markers name, or the first failure, damaged markers included |
| `Visibility.ReadAll` | crates/fileferry-core/src/lib.rs:1322-1352 | over any sequence of states, two reads per listed commit collect the manifests that are not forgotten, or the first failure |
| `Visibility.ReadCommittedStepwise` | crates/fileferry-core/src/lib.rs:1307-1355 | the whole reader, operation by operation over any sequence of states, computes the specified reading along it, its first failure included |
| `Visibility.ListedMarkersRead` | crates/fileferry-core/src/lib.rs:1357-1376 | in a growing store the listed markers, damaged ones too, read later as they read at the listing |
| `Visibility.StepwiseReadsFrom` | crates/fileferry-core/src/lib.rs:1307-1355 | on a repository in order the stepwise reading gives the commits of its listing without those forgotten at its start, as its last state holds them |
| `Visibility.ReadCommittedFromExactly` | crates/fileferry-core/src/lib.rs:1322-1355 | whatever the store holds, reading the listed commits fails with the failure of the smallest id that fails, and otherwise returns what the single commits give, in order and each once |
| `Visibility.ReadersSeePublicationAtomically` | crates/fileferry-core/src/lib.rs:1307-1355 | beside any clients, the reader operation by operation returns every snapshot visible throughout and none uncommitted at the end or forgotten at the start, each once with its stored manifest, in order of time and id, and fails only if a committed one is unreadable |
| `Visibility.SortManifests` | crates/fileferry-core/src/lib.rs:2561-2569 | a listing of the same manifests in order of time and then id |
| `Visibility.UncommittedStepsAreInvisible` | crates/fileferry-core/src/lib.rs:1307-1355 | adding objects other than markers to a repository in order never changes what the reader returns |
| `PublicationRuns.UnpublishedRunsAreInvisible` | crates/fileferry-core/src/lib.rs:1028-1235 | a run in which no step writes a commit or forget marker leaves the reader's result unchanged |
| `PublicationRuns.KeyAdditionIsInvisible` | crates/fileferry-core/src/lib.rs:648-686 | a key addition stores its slot if its key is free, changes nothing else, and leaves every reader's result as it was |
| `PublicationRuns.RunGivesHistory` | crates/fileferry-core/src/lib.rs:1307-1355 | the states of a run at any increasing points are a history in the sense the reader needs |
| `PublicationRuns.ReaderBesideRun` | crates/fileferry-core/src/lib.rs:1307-1355 | the reader's promise, however its single operations fall between the steps of any run |
| `Check.RunCheck` | crates/fileferry-core/src/lib.rs:1545-1755 | the check operation by operation over any sequence of states, with its maps, counters, bytes read and labels, computes the specified result |
| `Check.CheckAllCommits` | crates/fileferry-core/src/lib.rs:1555-1671 | the commit loop gathers, commit by commit, the first index entry noted for each chunk and the bytes read, or the first failure |
| `Check.CheckOneCommit` | crates/fileferry-core/src/lib.rs:1555-1671 | one commit: marker, manifest, indexes, references |
| `Check.CheckSelected` | crates/fileferry-core/src/lib.rs:1673-1742 | the chunk loop counts the chunks and bytes read or stops at the first failure |
| `CheckCounts.CheckCountsMetadata` | crates/fileferry-core/src/lib.rs:1545-1755 | a check that succeeds counts, for each commit, its marker, its manifest and each index of the manifest, and reports the repository, the time, and the count or percentage in decimal |
| `CheckCounts.ThreeObjectsForEachCommit` | crates/fileferry-core/src/lib.rs:1555-1671 | in a repository in order these are three objects for each commit |
| `CheckCounts.CheckReadsEachChunkOnce` | crates/fileferry-core/src/lib.rs:1673-1742 | it reads the smallest of the chunks that files of committed snapshots need, all of them for a full check, each once however many files share it, counts them, and its bytes are the sizes of all objects it read |
| `SteadyReads.CheckIsSteady` | crates/fileferry-core/src/lib.rs:1545-1755 | if the objects it reads do not change between its reads, the check operation by operation is the check of one state |
| `SteadyReads.CheckOfOneState` | crates/fileferry-core/src/lib.rs:1545-1755 | on any store that nobody changes, the check operation by operation is the check of that one state |
| `ReadingRuns.CheckBesideRun` | crates/fileferry-core/src/lib.rs:1545-1755 | on a repository in order and beside any running clients, the check gives exactly what the state of its listing gives, counters and bytes included |
| `CheckMeaning.CheckMeansRestorable` | crates/fileferry-core/src/lib.rs:1545-1755 | if indexes that authenticate were written by backups, a full check is Ok if and only if every commit marker is well formed and every snapshot restores |
| `CheckMeaning.HonestEntriesAgree` | crates/fileferry-core/src/lib.rs:1655-1671 | keeping the first index entry of a chunk id is sound: any two honest ones read the same |
| `CheckMeaning.RestoreIsResolveAndRead` | crates/fileferry-core/src/lib.rs:1849-2013 | a snapshot restores if and only if its references resolve and each referenced chunk reads back |
| `Damage.CheckDetectsDamage` | crates/fileferry-core/src/lib.rs:1545-1755 | after any run, and any deletions and replacements by unauthentic bytes, a full check is Ok if and only if every remaining commit is well formed and restores to its original contents |
| `Damage.RestoresOriginal` | crates/fileferry-core/src/lib.rs:1849-2013 | whatever a restore returns from the damaged repository is what the original held |
| `Subset.SelectedCountIsMonotone` | crates/fileferry-core/src/lib.rs:2365-2379 | more chunks or a higher percentage never select fewer, and at least one when there is one |
| `Subset.PercentIsCeiling` | crates/fileferry-core/src/lib.rs:2365-2379 | the percentage is rounded up exactly if and only if the product does not saturate past 18446744073709551700 |
| `Subset.SelectionIsPrefix` | crates/fileferry-core/src/lib.rs:3501-3511 | a selection is the smallest ids: everything left out is larger than everything selected |
| `Subset.SubsetFailureIsFullFailure` | crates/fileferry-core/src/lib.rs:1673-1742 | if a subset check fails, every larger one and the full check fail with the same error |
| `RoundTrip.StoredJobRestores` | crates/fileferry-core/src/lib.rs:1849-2013 | a stored snapshot restores to exactly what its backup read, or is rejected because its manifest is invalid |
| `RoundTrip.BackupThenRestore` | crates/fileferry-core/src/lib.rs:1028-2013 | that holds in every state after the backup is done, whatever runs before, beside and after it |
| `RoundTrip.WrittenSnapshotRestores` | crates/fileferry-core/src/lib.rs:1028-2013 | a snapshot whose commit marker is in a reachable state restores to what its backup read in that state and after any further steps |
| `RoundTrip.BackUpAndRestore` | crates/fileferry-core/src/lib.rs:1028-2013 | the sequential writer and then the restore, on one store in order: a successful write restores to exactly the files that were read, or its manifest is rejected |
| `RoundTrip.RestoreReturnsTheTree` | crates/fileferry-core/src/lib.rs:1028-2013 | for one unchanging directory root the restored contents are exactly the walked directories, file bytes, modification times and symlink targets |
| `RoundTrip.ManifestListsTheWalk` | crates/fileferry-core/src/lib.rs:1028-1259 | the manifest that is read back lists the walked paths in order, each with the kind, size, link target and modification time of its node |
| `RoundTrip.JobDescribesTree` | crates/fileferry-core/src/lib.rs:1063-1167 | cutting the files of a walk into pieces and putting them together again gives the walked tree |
| `PartialRestore.PartialRestoreIsPartOfWhole` | crates/fileferry-core/src/lib.rs:1849-1875 | if the whole snapshot restores, restoring some paths fails only for unusable or missing paths, and otherwise gives exactly the part of the whole at or below them |
| `PartialRestore.ScopedEntriesRestore` | crates/fileferry-core/src/lib.rs:3232-3249 | restoring the selected entries is selecting from the restored entries |
| `PartialRestore.FirstMissingMeaning` | crates/fileferry-core/src/lib.rs:3402-3422 | a requested path is reported missing if and only if no entry lies at or below some path, and then it is the first such path |
| `PartialRestore.PathIsAccepted` | crates/fileferry-core/src/lib.rs:2876-2897 | a requested path is accepted if and only if it has only names and `.`, and then stands for its names |
| `PartialRestore.PathsAreAccepted` | crates/fileferry-core/src/lib.rs:2869-2874 | requested paths are accepted if and only if each one is |
| `PartialRestore.RequestedIsRestored` | crates/fileferry-core/src/lib.rs:1849-2013 | a restore of requested paths gives exactly the directories, files, symlinks and warnings of the whole that are at or below the names of one of them |
| `Destination.SafeIsWritable` | crates/fileferry-core/src/lib.rs:2922-3035 | with no symlink at or above the destination, a destination that passes its check has only directories above it and nothing at it that may not be replaced |
| `Destination.SafeExactly` | crates/fileferry-core/src/lib.rs:2922-3035 | with no symlink at or above the destination, the check of one path passes if and only if only directories lie above it and nothing is at it but a directory for a directory, or a file that may be overwritten for a file |
| `Destination.RefusalNamesTheObstacle` | crates/fileferry-core/src/lib.rs:2922-2997 | below existing directories, the error says whether a symlink, a node of another kind or an existing node is in the way |
| `Destination.FirstObstacleStops` | crates/fileferry-core/src/lib.rs:2999-3035 | the first node above a path that is no directory is the one that is reported, as a symlink or as of the wrong kind |
| `Destination.CheckedAncestor` | crates/fileferry-core/src/lib.rs:2999-3035 | what the ancestor loop has accepted below the destination root is a directory, so no later lookup goes through a symlink |
| `Destination.PreflightConcat` | crates/fileferry-core/src/lib.rs:2040-2067 | the three preparation loops are one preflight of directories, files and symlinks in this order |
| `DestinationWrites.RestoredIsCompatible` | crates/fileferry-core/src/lib.rs:3251-3371 | whatever restores from a validated manifest has distinct normal paths and only directories above other nodes |
| `DestinationWrites.PreflightMeansNoConflicts` | crates/fileferry-core/src/lib.rs:2040-2067 | after a successful preflight no planned write is in the way of another one or of the file system |
| `DestinationWrites.PreflightExactly` | crates/fileferry-core/src/lib.rs:2040-2067 | the whole preflight succeeds if and only if every wanted node can be written |
| `DestinationWrites.PreparesExactly` | crates/fileferry-core/src/lib.rs:2040-2067 | that is, if and only if every directory, file and symlink of the contents can be |
| `FileSystems.FileSystem.CreateDirAll` | crates/fileferry-core/src/lib.rs:3037-3042 | adds a directory for each missing prefix and nothing else, if no existing one is something else |
| `FileSystems.FileSystem.WriteItem` | crates/fileferry-core/src/lib.rs:3037-3101 | a writable item is there afterwards, with the directories above it, and all else is as before |
| `FileSystems.FileSystem.Prepare` | crates/fileferry-core/src/lib.rs:2040-2067 | the preparation loop computes the preflight and changes nothing |
| `FileSystems.FileSystem.WriteAll` | crates/fileferry-core/src/lib.rs:2069-2126 | after a conflict-free plan every write of the list succeeds and the overlay grows by exactly these items |
| `FileSystems.FileSystem.ApplyTime` | crates/fileferry-core/src/lib.rs:3108-3131 | sets a usable time of a file or directory that is there, and otherwise leaves all times and warns with the reason of the source |
| `FileSystems.FileSystem.ApplyTimes` | crates/fileferry-core/src/lib.rs:2145-2165 | one loop over written items sets each usable time, counts them, and warns for each other one in order |
| `FileSystems.TimesAreRestored` | crates/fileferry-core/src/lib.rs:2145-2165 | setting the times of files and then directories leaves every one of them with the time it had, if it is usable |
| `ModTimes.AllTimesHold` | crates/fileferry-core/src/lib.rs:2145-2165 | on different paths no later time overwrites an earlier one |
| `ModTimes.SetOrWarned` | crates/fileferry-core/src/lib.rs:3108-3176 | each planned time is set or warned about, never both or neither |
| `FileSystems.FileSystem.RestoreToDestination` | crates/fileferry-core/src/lib.rs:2015-2126 | an absolute destination without a symlink at or above it and contents that can be read are restored if and only if each directory, file and symlink can be written: only directories above it, and nothing at it but a directory for a directory or, with overwriting, a file for a file; then each is there with its bytes or target, also where a file was, all else is as before but for missing directories above, and files and directories have their times; any error, and any dry run, leaves the file system as it was; counts, bytes and warnings are reported, the same warnings by a dry run |
| `FileSystems.OverlayStep` | crates/fileferry-core/src/lib.rs:2069-2126 | one more write extends the overlay by one item |
| `FileSystems.NextIsWritable` | crates/fileferry-core/src/lib.rs:2069-2126 | what was written already is not in the way of the next item |
| `RestoredTree.OutsideIsUntouched` | crates/fileferry-core/src/lib.rs:2015-2126 | outside the destination nothing changes except that missing directories above it appear |
| `RestoredTree.PreflightOfEmpty` | crates/fileferry-core/src/lib.rs:2909-3035 | into an empty destination other than `/` the preflight always succeeds |
| `RestoredTree.RootDestinationIsRefused` | crates/fileferry-core/src/lib.rs:2999-3005 | onto `/` the root directory of a snapshot is always refused |
| `RestoredTree.RestoreRebuildsTree` | crates/fileferry-core/src/lib.rs:2015-2126 | in an empty destination a path holds a node after the restore if and only if the pruned source tree has it there and it is restorable |
| `RestoredTree.RestoreRebuildsPart` | crates/fileferry-core/src/lib.rs:2015-2126 | restoring requested paths into an empty destination leaves exactly the tree nodes at or below them and the directories that lead there |
| `RestoredTree.TreeTimesHold` | crates/fileferry-core/src/lib.rs:2145-2165 | files and directories of the restored part have the modification times they had in the source tree, if these are usable |
| `RestoredTree.RestoreTree` | crates/fileferry-core/src/lib.rs:2015-2126 | the restore of all or some paths of a tree into an empty destination, beside any running clients, succeeds and leaves exactly the selected nodes, the directories that lead to them, and their times |
| `RestoredTree.BackupThenRebuild` | crates/fileferry-core/src/lib.rs:1028-2126 | backup of an unchanging tree, any later run, restore into an empty destination: the pruned tree is rebuilt exactly |
| `RestoredTree.BackupThenRebuildPart` | crates/fileferry-core/src/lib.rs:1028-2126 | the same for requested paths: the restore is planned if and only if they can be normalized and the walk lists each of them, and then leaves exactly what lies at or below them and the directories that lead there |
| `ObjectStore.PutNeverChangesObjects` | crates/fileferry-testkit/src/lib.rs:39-57 | a put keeps every object, and is Ok if and only if the key holds exactly these bytes afterwards |
| `ObjectStore.FakeObjectStore.PutIfAbsent` | crates/fileferry-testkit/src/lib.rs:39-57 | created when absent, already present for equal bytes, conflict otherwise |
| `ObjectStore.FakeObjectStore.Get` | crates/fileferry-testkit/src/lib.rs:59-68 | the bytes under the key, or not found |
| `ObjectStore.FakeObjectStore.Exists` | crates/fileferry-testkit/src/lib.rs:70-72 | whether the key is present |
| `ObjectStore.FakeObjectStore.Delete` | crates/fileferry-testkit/src/lib.rs:74-79 | removes the key and nothing else |
| `LocalStore.StepKeepsInv` | crates/fileferry-storage/src/lib.rs:935-990 | every step of every writer keeps: temporary files belong to their writer, visible names hold complete bytes |
| `LocalStore.StepRefines` | crates/fileferry-storage/src/lib.rs:935-990 | a step leaves the visible objects alone or is one whole put of the atomic store with the same answer |
| `LocalStore.RunsAreAtomic` | crates/fileferry-storage/src/lib.rs:935-990 | every interleaving with failures and crashes is a sequence of atomic puts |
| `LocalStore.ObjectsAreImmutable` | crates/fileferry-storage/src/lib.rs:935-990 | a visible object never changes or disappears |
| `LocalStore.ReportsAreTrue` | crates/fileferry-storage/src/lib.rs:935-990 | Created and AlreadyPresent mean the key holds the writer's complete bytes, a conflict that it holds others, and each key is created at most once |
| `LocalStore.ListingShowsVisibleObjects` | crates/fileferry-storage/src/lib.rs:1020-1043 | for every key, a listing shows exactly the visible objects under the prefix |
| `LocalStore.TempFilesAreNeverListed` | crates/fileferry-storage/src/lib.rs:1020-1043 | no temporary file is ever listed |
| `LocalStore.CreatedIsListedUnlessReserved` | crates/fileferry-storage/src/lib.rs:1020-1043 | after Created, any key is listed if and only if it does not lie below the temporary directory's name |
| `LocalStore.ReservedKeysAreValid` | crates/fileferry-storage/src/lib.rs:540-585 | every valid segment below the temporary directory's name makes a key that validation accepts and listings skip |
| `LocalStore.ReservedKeyIsLost` | crates/fileferry-storage/src/lib.rs:935-1043 | one writer that puts an object under such a key is told Created, and no listing shows it |
| `LocalPut.AloneItFinishes` | crates/fileferry-storage/src/lib.rs:935-990 | a put that nobody disturbs and whose key listings do not skip ends after at most six steps: Created with exactly its object added when the key is free, otherwise with nothing changed and the answer that comparing the bytes gives |
| `Keys.KeysAreJoinedNames` | crates/fileferry-storage/src/lib.rs:540-585 | a non-empty value is a valid key if and only if it is one or more names joined by slashes, each of letters, digits, `.`, `_`, `-` and `=`, and none of them `.` or `..` |
| `Keys.ContainsMeansSegmentPrefix` | crates/fileferry-storage/src/lib.rs:519-529 | the string test for a prefix compares whole segments |
| `Keys.SegmentsAreInjective` | crates/fileferry-storage/src/lib.rs:478-480 | different keys have different paths |
| `RetriedStore.PauseDoubles` | crates/fileferry-storage/src/lib.rs:459-462 | the saturating step from one pause to the next gives min(initial * 2^k, max) for every k |
| `RetriedStore.RetryableErrors` | crates/fileferry-storage/src/lib.rs:107-116 | which five errors are retried and which five are not |
| `RetriedStore.PolicyObjectStore.TryPut` | crates/fileferry-storage/src/lib.rs:359-375 | one attempt, whatever happens around it, leaves the key untouched or with the first value offered |
| `RetriedStore.PolicyObjectStore.PutIfAbsent` | crates/fileferry-storage/src/lib.rs:348-412 | attempts and pauses are as configured, I/O, backend and timeout errors and no others are retried, the key is untouched or holds the first value offered, Ok means it holds these bytes; a conflict means it holds others, unless an attempt itself invented it |
| `RetriedStore.WithoutRivals` | crates/fileferry-storage/src/lib.rs:348-389 | with no other client, any error leaves the store as it was or with exactly this object added |
| `Encoding.LenPrefixedIsSelfDelimiting` | crates/fileferry-crypto/src/lib.rs:482-485 | a length-prefixed value can be read back whatever follows it |
| `Encoding.BuildObjectAad` | crates/fileferry-crypto/src/lib.rs:356-363 | the growing buffer ends as the specified associated data |
| `Encoding.ObjectAadIsInjective` | crates/fileferry-crypto/src/lib.rs:356-363 | equal associated data of valid contexts means equal version, kind and name |
| `Encoding.BuildKeySlotAad` | crates/fileferry-crypto/src/lib.rs:469-480 | the growing buffer ends as the specified associated data |
| `Encoding.KeySlotAadIsInjective` | crates/fileferry-crypto/src/lib.rs:469-480 | equal associated data means equal KDF parameters and salt |
| `Encoding.SlotsAndObjectsAreSeparate` | crates/fileferry-crypto/src/lib.rs:356-480 | associated data of a key slot is never that of an object |
| `Encoding.BuildSubkeyInfo` | crates/fileferry-crypto/src/lib.rs:142-151 | the growing buffer ends as the specified `info` |
| `Encoding.PurposeLabelsArePrefixFree` | crates/fileferry-crypto/src/lib.rs:200-212 | no purpose label begins another one |
| `Encoding.SubkeyInfoIsInjective` | crates/fileferry-crypto/src/lib.rs:142-151 | equal HKDF `info` (RFC 5869, section 2.3) means equal purpose and context |
| `KeySlots.SlotOpensForItsPassphrase` | crates/fileferry-crypto/src/lib.rs:248-285 | a created slot yields its master key for its own passphrase and a decryption error for any other |
| `KeySlots.RepositoryKeySlots` | crates/fileferry-core/src/lib.rs:784-826 | the slots of the bootstrap object, then the validated listed ones, or the first failure |
| `KeySlots.OpenRepository` | crates/fileferry-core/src/lib.rs:619-646 | the loop yields the decision of the first slot that decides |
| `KeySlots.FirstUnlockIsGenuine` | crates/fileferry-core/src/lib.rs:619-646 | an unlocked master key comes from a slot that unlocks and verifies, and all slots before it failed to decrypt |
| `KeySlots.DecidingSlotOpens` | crates/fileferry-core/src/lib.rs:619-646 | if a slot unlocks and verifies and all before it fail to decrypt, the loop yields what this slot wraps |
| `KeySlots.ExternalSlotOpensExactly` | crates/fileferry-core/src/lib.rs:764-781 | an external slot that the passphrase unlocks opens the repository if and only if its check was made for the key it wraps, this repository and its id |
| `KeySlots.OpensOnlyWithMasterExactly` | crates/fileferry-core/src/lib.rs:619-646 | on any store whose slots can be read, opening yields no other master key than a given one if and only if the slot that decides for this passphrase, if any does, wraps it |
| `KeySlots.OpenedMasterIsRecorded` | crates/fileferry-core/src/lib.rs:619-646 | on any store whose external checks were made for one master key, an opened repository has that key or one that a bootstrap slot yields for this passphrase |
| `KeySlots.ConsistentSlotOpens` | crates/fileferry-core/src/lib.rs:764-781 | a concrete store in which a slot wrapping another key, with a check made for that key, does open |
| `KeySlotDocuments.BootstrapLoadsExactly` | crates/fileferry-core/src/lib.rs:711-762 | a bootstrap document is accepted if and only if it has the magic, version 0, an id, some slot and no features |
| `KeySlotDocuments.BootstrapFaults` | crates/fileferry-core/src/lib.rs:711-762 | otherwise the error says which of these is wrong |
| `KeySlotDocuments.ExternalReadsExactly` | crates/fileferry-core/src/lib.rs:784-897 | a listed slot is accepted if and only if it has the magic, version 0, this repository's id, the id of its key and a check |
| `KeySlotDocuments.ExternalFaults` | crates/fileferry-core/src/lib.rs:784-897 | otherwise the error says which of these is wrong |
| `KeySlotDocuments.UnlocksExactly` | crates/fileferry-crypto/src/lib.rs:267-285 | a slot yields a master key if and only if its parameters are usable and it was wrapped with this passphrase, these parameters, salt and nonce around this key |
| `KeySlotDocuments.UnlockFaults` | crates/fileferry-crypto/src/lib.rs:267-285 | otherwise the error says whether a field is malformed, the parameters are unusable, or it does not decrypt |
| `KeySlotDocuments.AttemptDecides` | crates/fileferry-core/src/lib.rs:619-646 | only a failed decryption is left to the next slot; any other error, and a check that does not fit, decides |
| `KeySlotWrites.CreateRepository` | crates/fileferry-core/src/lib.rs:556-617 | where no bootstrap object is, a create with usable parameters stores exactly the bootstrap document with its id and one slot, field by field, and returns id and key; where one is, it opens; otherwise nothing changes |
| `KeySlotWrites.AddKeySlot` | crates/fileferry-core/src/lib.rs:648-686 | an add opens with the current passphrase and stores exactly the document of the new slot, field by field, or changes nothing and says why |
| `KeySlotWrites.CreateIsARun` | crates/fileferry-core/src/lib.rs:556-617 | the create client of the state machine does the same in two steps while others pause |
| `KeySlotWrites.AddIsARun` | crates/fileferry-core/src/lib.rs:648-686 | so does the add client |
| `KeySlotWrites.CreatedAndAddedOpens` | crates/fileferry-core/src/lib.rs:556-686 | a created repository with one slot added opens with exactly the two passphrases and yields the key it was created with |
| `KeySlotRuns.StepKeepsInv` | crates/fileferry-core/src/lib.rs:556-686 | every step of creates, opens and adds keeps all stored slots and all held results on one repository, and changes no object |
| `KeySlotRuns.OneRepository` | crates/fileferry-core/src/lib.rs:556-686 | all creates, opens and adds that succeed carry one repository id and one master key |
| `KeySlotRuns.OpensIffItHasASlot` | crates/fileferry-core/src/lib.rs:619-646 | in every reachable state a passphrase opens the repository if and only if it made some visible slot |
| `KeySlotRuns.UnlocksLast` | crates/fileferry-core/src/lib.rs:556-686 | later creates and adds never break an earlier unlock or change what it yields |
| `KeySlotRuns.SuccessLasts` | crates/fileferry-core/src/lib.rs:556-686 | after a success its passphrases open the same repository in every later state |
| `KeySlotRuns.SlotsReadLaterAreTheSame` | crates/fileferry-core/src/lib.rs:784-826 | reading the listed external slots later gives what it gives at the time of the listing |
| `KeySlotRuns.OpenLaterIsTheSame` | crates/fileferry-core/src/lib.rs:619-646 | the whole open, bootstrap included, gives in any later state what it gives at the time of its listing |

## Left out

* S3 (`S3Store`), network errors as such, and the documented get-then-overwrite fallback, which is not race-safe.
* Inside Argon2id, XChaCha20-Poly1305, HKDF, BLAKE3, zstd, FastCDC and serde: foreign code, taken by contract.
* `select_snapshot`, `list_snapshot_entries` and `snapshot_summaries`: filters and maps over lists that are modelled; they would only add easy members.
* Parsing of retention policy specifications, and command line output, configuration and exit codes.
* Creation times, permissions and other metadata than sizes, symlink targets and modification times.
* Platforms whose system time does not hold every i64 of seconds: there a captured time can be out of range for another reason than its nanoseconds.
* Compressed sizes and lengths of stored objects are inputs; of them the model says only which chunk and which stored object an index entry's lengths belong to.
* Timeouts and concurrency limits of the storage policy: an operation that times out is an attempt that may or may not take effect, possibly later.
* Prune, leases, upload state, key removal and rotation, which the repository does not implement.
* Redaction and zeroing of secrets.
* I/O errors of the walk, relative roots, and reading the source while it changes: the walk is over an unchanging tree. File contents that differ from the captured size are modelled.
* Destinations with `..` components, hard links, symlinks above the destination (success is claimed without any at or above it; errors and dry runs with any), I/O faults and other processes during a restore.
- LocalStore.Step: allows a failure or crash at every point, also where the code ignores the error of removing the temporary file, so it has more behaviours than the code.
- FileSystems.FileSystem.RestoreToDestination: does not repeat the action and verified flags of the single items, which are functions of the request; setting a time fails only where the item is not there, I/O errors being left out.
- LocalStore.Run: keys of which one is a directory of the other can both be linked, which the code's file system refuses, so it has more behaviours than the code.
- RetriedStore.PolicyObjectStore.PutIfAbsent: promises nothing about the bytes under the key when an attempt's own failure is that the object exists; the code passes that failure on.
- KeySlots.OpenWith: takes the listing in any order; the code sorts it, which is one such order.
- KeySlots.Usable: the product of eight and the parallelism is not wrapped at 32 bits, and Argon2's own limits are not modelled.
- Encoding.BuildObjectAad: bytes only; memory limits of the buffer are not modelled.
