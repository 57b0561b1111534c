# FileFlows ingestion core, modelled in Dafny

This project models the logic at the core of FileFlows. A *watched library* is a
configured folder. Files found in it, either by a filesystem watcher or by a periodic
scan, are queued, filtered and classified against the stored library files. New ones are
recorded as `Unprocessed` (or `Duplicate`). A *flow worker* then claims one file at a time
and runs it through its library's flow.

Around that pipeline sit several smaller pieces:

- the SQL order in which unprocessed files are claimed;
- the query-timing log levels and the value a failed query yields;
- the 0.6.1 upgrade pass that repairs creation dates;
- the video-file scan endpoint;
- three client-side components: the library-files page's status bar and column width, the
  editor dialog's input registry and model dictionary, and a table button's enabling rule.

Modules, one per source file (plus shared vocabulary):

| module | file | models |
|---|---|---|
| `Common` | common.dfy | options, .NET ticks, ordinal string helpers, ASCII lower-casing |
| `Models` | models.dfy | `FileStatus`, `Library`, `LibraryFile`, `ObjectReference` |
| `RecordStore` | record_store.dfy | the library-file store: lookup by path or fingerprint, insert, update |
| `LibraryRules` | library_rules.dfy | the decisions of `WatchedLibrary` as functions: filters, the hidden walk, known-file classification, relative path, the new record, scan gates, traversal order, the guarded enqueue |
| `WatchedLibraries` | watched_library.dfy | the `WatchedLibrary` class: queue, drain step, timer, watcher events, reconfiguration, scan |
| `FlowWorkers` | flow_worker.dfy | the `FlowWorker` claim and run |
| `ClaimOrder` | claim_order.dfy | `UNPROCESSED_ORDER_BY`, `Database_Log`, `Database_Get` |
| `Upgrade061` | upgrade_0_6_1.dfy | `UpdateLibraryFileDates` over an array of records |
| `VideoFiles` | video_files.dfy | `VideoFileController.Scan` and its `SearchDirectory` |
| `LibraryFilesPage` | library_files_page.dfy | `RefreshStatus`, `PostLoad`, `SelectUnprocessed` |
| `Editors` | editor.dfy | the `Editor` registry, model dictionary, field lookups and `Save` |
| `FlowTableButtons` | flow_table_button.dfy | `FlowTableButton.Enabled`, `Table_SelectionChanged`, the `Label`/`Icon` setters |

Everything the code asks of the outside world is a parameter:

- the regex engine, as a function from (pattern, input) to matched / not matched / threw;
- the filesystem, as a `Probe` per path and a `Dir` tree for enumeration;
- the fingerprint, the clock, the schedule, the translator and each input's validation.

The record store is a sequence in which record *i* has uid *i + 1*, so uid 0 keeps the
meaning of `Guid.Empty`. Stateful classes of the source are Dafny classes whose methods
are proved against specification functions. The properties are lemmas about those
functions.

`IsKnownFile` is modelled as written. At Server/Workers/WatchedLibrary.cs:279 the
fingerprint lookup runs only when the computed fingerprint is null or empty. The lemmas
`NonEmptyFingerprintNeverDuplicate`, `IdenticalContentIsNotDuplicate` and
`EmptyFingerprintPairsWithUnfingerprinted` state what that code does:

- a file whose content is already stored is classified as new;
- a file whose fingerprint came back empty is paired with any stored file that has an
  empty fingerprint.

A fingerprint that came back null is looked up as "" (`NullFingerprintLookedUpAsEmpty`);
see "## Left out".

Because a known file never comes back with a duplicate (`KnownIsNeverDuplicate`), the
`Update` branch of `ProcessQueuedItem` (lines 225-229) cannot run. `DrainPath` therefore
only ever inserts.

## Model

| member | source | states |
|---|---|---|
| Common.ToLowerKeepsPrefix | Server/Workers/WatchedLibrary.cs:140 | a path that starts with the library root literally also passes the lower-cased prefix test |
| Common.MaxOf | Server/Workers/WatchedLibrary.cs:165 | the maximum of the last-write times bounds every element and is one of them |
| RecordStore.FindByPath | Server/Workers/WatchedLibrary.cs:256 | the lookup returns a stored record with that name, or none exists |
| RecordStore.FindByFingerprint | Server/Workers/WatchedLibrary.cs:281 | the lookup returns a stored record with that fingerprint, or none exists |
| RecordStore.LibraryFileStore.constructor | Server/Workers/WatchedLibrary.cs:232 | the store starts empty and valid |
| RecordStore.LibraryFileStore.Add | Server/Workers/WatchedLibrary.cs:232 | insertion appends the record under the next uid and keeps uids positional |
| RecordStore.LibraryFileStore.Update | Server/Workers/WatchedLibrary.cs:270 | an update overwrites the record with the same uid and nothing else; an unknown uid changes nothing |
| RecordStore.FoundRecordIsAddressable | Server/Workers/WatchedLibrary.cs:266-270 | a record found by path sits at position uid - 1, so writing it back by uid hits the same record |
| LibraryRules.ExclusionWins | Server/Workers/WatchedLibrary.cs:383-391 | a set exclusion filter that matches rejects the path whatever the inclusion filter says |
| LibraryRules.InclusionDecides | Server/Workers/WatchedLibrary.cs:393-400 | otherwise a set, working inclusion filter decides in both directions |
| LibraryRules.NoEffectiveFilterAccepts | Server/Workers/WatchedLibrary.cs:381-403 | with no filter, or only filters whose regex throws, the path is accepted |
| LibraryRules.UnchangedKnownFileSkipped | Server/Workers/WatchedLibrary.cs:256-264 | a known file with reprocessing off or a creation time not newer yields (true, null, null) and writes nothing |
| LibraryRules.RecreatedFileReset | Server/Workers/WatchedLibrary.cs:265-272 | a newer creation time resets exactly the stored record to Unprocessed with the new times, and the caller still skips it |
| LibraryRules.KnownIsNeverDuplicate | Server/Workers/WatchedLibrary.cs:253-295 | a known file is never reported with a duplicate |
| LibraryRules.NonEmptyFingerprintNeverDuplicate | Server/Workers/WatchedLibrary.cs:275-294 | as written, a non-empty fingerprint never produces a duplicate reference |
| LibraryRules.IdenticalContentIsNotDuplicate | Server/Workers/WatchedLibrary.cs:278-291 | a store holding another file with the same fingerprint still classifies the new file as not a duplicate |
| LibraryRules.EmptyFingerprintPairsWithUnfingerprinted | Server/Workers/WatchedLibrary.cs:279-290 | an empty ("") fingerprint passes the IsNullOrEmpty test, so the lookup runs and the file is reported, with that fingerprint, as a duplicate (a LibraryFile reference) whenever a stored file has an empty fingerprint |
| LibraryRules.NullFingerprintLookedUpAsEmpty | Server/Workers/WatchedLibrary.cs:281 | the modelling assumption for the null case: a null fingerprint is reported as null and finds the same duplicate as a lookup of "" |
| LibraryRules.RelativePath | Server/Workers/WatchedLibrary.cs:196-202 | the relative path exists exactly when the path is long enough, and the root part plus it rebuild the full path |
| LibraryRules.RelativePathOfJoin | Server/Workers/WatchedLibrary.cs:196-202 | root + separator + rel relativises back to rel for a root without a trailing separator |
| LibraryRules.RelativePathUnderSeparatorRoot | Server/Workers/WatchedLibrary.cs:196-198 | a root ending in '/' or '\' is stripped without an extra character |
| LibraryRules.RelativePathExample | Server/Workers/WatchedLibrary.cs:196-202 | /lib/a.mp4 under /lib becomes a.mp4 |
| LibraryRules.HoldUntil | Server/Workers/WatchedLibrary.cs:214 | HoldMinutes > 0 holds until now plus that many minutes, else DateTime.MinValue |
| LibraryRules.HoldIsInTheFutureExactlyWhenConfigured | Server/Workers/WatchedLibrary.cs:214 | the hold lies after now exactly when HoldMinutes is positive |
| LibraryRules.NewRecord | Server/Workers/WatchedLibrary.cs:203-222 | status is Duplicate iff a duplicate was found, order is -1, the hold follows HoldMinutes, a folder has size 0 |
| LibraryRules.NormalizedScanInterval | Server/Workers/WatchedLibrary.cs:493-494 | an interval below 10 becomes 60, others stay |
| LibraryRules.DisabledOrOutOfScheduleNeverScans | Server/Workers/WatchedLibrary.cs:496-503 | a disabled or out-of-schedule library is never scanned |
| LibraryRules.StaleLibraryGetsFullScan | Server/Workers/WatchedLibrary.cs:505-506 | a last scan over an hour old forces a full scan |
| LibraryRules.NonFullScanSkipped | Server/Workers/WatchedLibrary.cs:508-519 | a non-full scan stops within the interval, and in watch mode once ScanComplete is set |
| LibraryRules.SubdirFilesPrecedeOwnFiles | Server/Workers/WatchedLibrary.cs:637-650 | GetFiles lists every subdirectory's files, and the directory's own files form the tail |
| LibraryRules.EnqueuedExtends | Server/Workers/WatchedLibrary.cs:447-451 | the guarded enqueue only appends: the old queue is a prefix |
| LibraryRules.EnqueuedContents | Server/Workers/WatchedLibrary.cs:536-540 | afterwards a path is queued iff it was queued before or offered |
| LibraryRules.EnqueuedKeepsNoDuplicates | Server/Workers/WatchedLibrary.cs:566-570 | the QueueContains guard keeps the queue free of duplicates |
| LibraryRules.EnqueueQueuedIsNoOp | Server/Workers/WatchedLibrary.cs:447-451 | offering a path already queued changes nothing |
| LibraryRules.ScanCandidatesAreEligible | Server/Workers/WatchedLibrary.cs:550-563 | a file scan offers exactly the matching, non-'_' files that are not unchanged known files |
| LibraryRules.MatchingPathsMatch | Server/Workers/WatchedLibrary.cs:440-445 | a watcher event offers exactly the paths passing IsMatch |
| LibraryRules.SubdirNames | Server/Workers/WatchedLibrary.cs:533-541 | a folder scan offers each immediate subdirectory's full name, in order |
| WatchedLibraries.InadmissiblePathLeavesStore | Server/Workers/WatchedLibrary.cs:134-144 | a path failing IsMatch, ending in '_' or outside the root is dropped before any record is written |
| WatchedLibraries.DrainStoreEffect | Server/Workers/WatchedLibrary.cs:151-233 | the store changes only by the known-file reset or by appending the new record built from the classification, and only for an admissible, unstored path |
| WatchedLibraries.AdmittedStoreEffect | Server/Workers/WatchedLibrary.cs:151-233 | past the admission checks, the store changes only by the known-file reset or by appending the new record for an unstored path |
| WatchedLibraries.StoredPathIsNeverAdded | Server/Workers/WatchedLibrary.cs:151-153 | a path already stored is never inserted again |
| WatchedLibraries.DrainKeepsStoreInvariants | Server/Workers/WatchedLibrary.cs:224-233 | draining keeps uids positional and paths unique in the store |
| WatchedLibraries.KnownResetKeepsStoreInvariants | Server/Workers/WatchedLibrary.cs:266-270 | the reset of a known file writes back to its own slot, so uids stay positional and paths unique |
| WatchedLibraries.AppendKeepsStoreInvariants | Server/Workers/WatchedLibrary.cs:232 | inserting a new path under the next uid keeps uids positional and paths unique |
| WatchedLibraries.RequeueKeepsNoDuplicates | Server/Workers/WatchedLibrary.cs:171 | dequeuing and re-queuing the head keeps the queue duplicate-free |
| WatchedLibraries.WatchedLibrary.constructor | Server/Workers/WatchedLibrary.cs:37-59 | scanner mode when Scan is set or the path is missing, else a watcher on the path; the timer is started and the queue is empty |
| WatchedLibraries.WatchedLibrary.QueueItem | Server/Workers/WatchedLibrary.cs:681-688 | appends at the tail and starts the timer |
| WatchedLibraries.WatchedLibrary.QueueContains | Server/Workers/WatchedLibrary.cs:695-701 | true iff the path is queued |
| WatchedLibraries.WatchedLibrary.QueueCount | Server/Workers/WatchedLibrary.cs:657-663 | the queue length |
| WatchedLibraries.WatchedLibrary.QueuedHasItems | Server/Workers/WatchedLibrary.cs:669-675 | true iff the queue is not empty |
| WatchedLibraries.WatchedLibrary.TryDequeue | Server/Workers/WatchedLibrary.cs:110-114 | removes and returns the head; an empty queue yields nothing |
| WatchedLibraries.WatchedLibrary.OfferPath | Server/Workers/WatchedLibrary.cs:447-451 | queues the path unless already queued, starting the timer when it does |
| WatchedLibraries.WatchedLibrary.FileIsHidden | Server/Workers/WatchedLibrary.cs:311-336 | the loop computes HiddenVerdict: own attribute, then at most 21 parent directories below the root |
| WatchedLibraries.WatchedLibrary.IsKnownFile | Server/Workers/WatchedLibrary.cs:253-295 | returns CheckKnown's classification and applies its reset write to the store |
| WatchedLibraries.WatchedLibrary.ProcessQueuedItem | Server/Workers/WatchedLibrary.cs:105-251 | dequeues the head and leaves step, store and queue as DrainPath says; a requeued folder goes to the back; the queue stays free of duplicates (Valid) |
| WatchedLibraries.WatchedLibrary.DrainOne | Server/Workers/WatchedLibrary.cs:118-233 | the checks on one dequeued path end in DrainPath's step and store; only a requeued folder goes back on the queue |
| WatchedLibraries.WatchedLibrary.DrainAdmittedPath | Server/Workers/WatchedLibrary.cs:151-233 | for an admitted path: the known-file check, the folder wait, the access check and the insertion, as DrainAdmitted says |
| WatchedLibraries.WatchedLibrary.OnQueueTimer | Server/Workers/WatchedLibrary.cs:73-90 | drains one path and restarts the timer only while live with items queued; the queue stays free of duplicates (Valid) |
| WatchedLibraries.WatchedLibrary.FileChangeEvent | Server/Workers/WatchedLibrary.cs:438-452 | a matching path that is not queued is queued |
| WatchedLibraries.WatchedLibrary.WatcherChanged | Server/Workers/WatchedLibrary.cs:405-436 | a directory in a file library offers every file below it; otherwise only an existing file is considered, so a folder library ignores directory events and a missing path is ignored; a file still growing is ignored; an existing, settled file is offered; the queue stays free of duplicates (Valid) |
| WatchedLibraries.WatchedLibrary.OfferEach | Server/Workers/WatchedLibrary.cs:411-414 | every matching path below the changed directory that is not yet queued is queued, in order |
| WatchedLibraries.WatchedLibrary.UpdateLibrary | Server/Workers/WatchedLibrary.cs:454-485 | a missing path forces scanner mode; scanner to watch installs a watcher, watch to scan drops it, a path change reinstalls it; a pre-2020 last scan clears ScanComplete |
| WatchedLibraries.WatchedLibrary.Dispose | Server/Workers/WatchedLibrary.cs:338-344 | marks disposed, removes the watcher and stops the timer |
| WatchedLibraries.WatchedLibrary.GetFiles | Server/Workers/WatchedLibrary.cs:637-650 | the recursive listing equals AllFiles: subdirectories first, unreadable parts skipped |
| WatchedLibraries.WatchedLibrary.QueueSubdirectories | Server/Workers/WatchedLibrary.cs:531-542 | every subdirectory not yet queued is queued; the count is the number added |
| WatchedLibraries.WatchedLibrary.QueueScanFiles | Server/Workers/WatchedLibrary.cs:545-572 | every eligible file not yet queued is queued in traversal order; the count is the number added |
| WatchedLibraries.WatchedLibrary.OfferScanFile | Server/Workers/WatchedLibrary.cs:550-571 | one file is queued iff it is eligible and not yet queued; otherwise nothing changes |
| WatchedLibraries.WatchedLibrary.Scan | Server/Workers/WatchedLibrary.cs:487-590 | a busy mutex does nothing; each gate stops the scan with the queue unchanged; otherwise the queue grows by the scan's offer under the guard; the queue stays free of duplicates (Valid) |
| WatchedLibraries.WatchedLibrary.NormalizeInterval | Server/Workers/WatchedLibrary.cs:493-494 | an interval below 10 becomes 60, every other field is kept |
| WatchedLibraries.WatchedLibrary.CheckGates | Server/Workers/WatchedLibrary.cs:496-525 | the early returns of Scan, in order, yield exactly the gate GateScan computes |
| WatchedLibraries.WatchedLibrary.ScanGated | Server/Workers/WatchedLibrary.cs:496-573 | a closed gate is reported with the queue unchanged; an open one runs the tree scan |
| WatchedLibraries.WatchedLibrary.ScanTree | Server/Workers/WatchedLibrary.cs:530-573 | an unreadable folder library fails with the queue unchanged; otherwise the queue grows by the scan's offer under the guard and the count is the number added |
| FlowWorkers.SingleByName | Server/Workers/FlowWorker.cs:41 | a stored record with the name is found whenever one exists, else a fresh record with uid 0 |
| FlowWorkers.StampedWriteIsUpsert | Server/Workers/FlowWorker.cs:41-59 | after the write the store holds one record for the file with the new flow name and dates; it is new iff none was stored; other records are unchanged |
| FlowWorkers.SingleOfUnique | Server/Workers/FlowWorker.cs:41 | in a store with unique names, lookup finds the record at its position |
| FlowWorkers.SingleOfAppended | Server/Workers/FlowWorker.cs:44-50 | a newly inserted record is found by its name |
| FlowWorkers.InsertFresh | Server/Workers/FlowWorker.cs:42-51 | a new record under the next uid keeps uids positional and names unique, and is found by its name |
| FlowWorkers.OverwriteAt | Server/Workers/FlowWorker.cs:52-59 | overwriting a stored record in place keeps the store invariants, and the new record is found by its name |
| FlowWorkers.FlowRecordStore.constructor | Server/Workers/FlowWorker.cs:41 | the store starts empty and valid |
| FlowWorkers.FlowRecordStore.Update | Server/Workers/FlowWorker.cs:44-58 | a record with uid 0 is inserted under the next uid, another overwrites its slot |
| FlowWorkers.FlowWorker.constructor | Server/Workers/FlowWorker.cs:11-15 | nothing claimed |
| FlowWorkers.FlowWorker.Process | Server/Workers/FlowWorker.cs:70-82 | refused, changing nothing, iff already processing, the library is null or has no flow; an accepted claim sets file, library and Processing and triggers a run |
| FlowWorkers.FlowWorker.Execute | Server/Workers/FlowWorker.cs:18-68 | no claim does nothing; a missing file or flow resets the claim; a missing flow faults before the write; otherwise the stamped record is upserted and dispatched |
| ClaimOrder.OrderKey | Server/Services/LibraryFileService.Db.cs:19-20 | a positive ProcessingOrder is the key, any other order gets 1000000 |
| ClaimOrder.ClaimOrderIsStrictTotal | Server/Services/LibraryFileService.Db.cs:18-20 | the claim order is irreflexive, asymmetric, transitive and total up to equal keys |
| ClaimOrder.ExplicitOrderComesFirst | Server/Services/LibraryFileService.Db.cs:19-20 | an explicit order below 1000000 precedes every unset row, one above it follows |
| ClaimOrder.PriorityBreaksTies | Server/Services/LibraryFileService.Db.cs:20 | on equal keys a higher library priority goes first and a missing library last |
| ClaimOrder.HeadIsClaimedFirst | Server/Services/LibraryFileService.Db.cs:18-20 | the first row of a sorted result is claimed no later than any other |
| ClaimOrder.ClaimOrderExamples | Server/Services/LibraryFileService.Db.cs:18-20 | concrete rows ordered by key, priority and modification date |
| ClaimOrder.LogLevelRanges | Server/Services/LibraryFileService.Db.cs:25-34 | over 10 s error, over 3 s warning, over 1 s debug, else no log, each as an exact range |
| ClaimOrder.LogLevelMonotone | Server/Services/LibraryFileService.Db.cs:25-34 | a slower query never logs at a lower level |
| ClaimOrder.DatabaseGet | Server/Services/LibraryFileService.Db.cs:43-61 | the row or default(T); a throwing query logs an error and skips the timing log |
| ClaimOrder.FailureLooksLikeNoRow | Server/Services/LibraryFileService.Db.cs:49-57 | a failed query returns the same value as an empty one |
| Upgrade061.Repaired | Server/Upgrade/Upgrade_0_6_1.cs:31-36 | a pre-1900 file gets both times set to now, others are unchanged |
| Upgrade061.RepairAll | Server/Upgrade/Upgrade_0_6_1.cs:29-38 | each file is repaired in place, in order |
| Upgrade061.UpdateLibraryFileDates | Server/Upgrade/Upgrade_0_6_1.cs:26-39 | the array afterwards is RepairAll of the old one, and the records written are the repaired stale ones in order |
| Upgrade061.NoStaleFileAfterRepair | Server/Upgrade/Upgrade_0_6_1.cs:28-38 | with a clock at or after 1900 no file predates 1900 afterwards |
| Upgrade061.FreshFilesUntouched | Server/Upgrade/Upgrade_0_6_1.cs:31 | files dated 1900 or later are unchanged |
| Upgrade061.WrittenAreRepairedStale | Server/Upgrade/Upgrade_0_6_1.cs:31-36 | a record is written iff it is the repair of a stale file |
| Upgrade061.WrittenCountsStale | Server/Upgrade/Upgrade_0_6_1.cs:29-37 | one write per stale file |
| Upgrade061.RepairIsIdempotent | Server/Upgrade/Upgrade_0_6_1.cs:29-38 | a second pass changes and writes nothing |
| Upgrade061.NothingWrittenWithoutStale | Server/Upgrade/Upgrade_0_6_1.cs:31-37 | with no stale file nothing is written |
| LibraryFilesPage.IndexOf | Client/Pages/LibraryFiles/LibraryFiles.razor.cs:148 | the first position of the status, or -1 exactly when absent |
| LibraryFilesPage.SortKeyValues | Client/Pages/LibraryFiles/LibraryFiles.razor.cs:138 | each listed status gets its position in the order (Unprocessed 0, OutOfSchedule 1, Processing 2, Processed 3, FlowNotFound 4, ProcessingFailed 5), and only that status does; Duplicate gets 100 |
| LibraryFilesPage.WithDefaultsPresence | Client/Pages/LibraryFiles/LibraryFiles.razor.cs:138-143 | the defaults loop only appends zero-count entries; every listed status but FlowNotFound is present, FlowNotFound only if it was |
| LibraryFilesPage.Completed | Client/Pages/LibraryFiles/LibraryFiles.razor.cs:138-143 | the defaults loop yields WithDefaults over the status order |
| LibraryFilesPage.Contains | Client/Pages/LibraryFiles/LibraryFiles.razor.cs:141 | true iff some entry has the status |
| LibraryFilesPage.SortByKeysPermutes | Client/Pages/LibraryFiles/LibraryFiles.razor.cs:148 | the stable sort by key is a permutation of its input |
| LibraryFilesPage.SortByKeysSorted | Client/Pages/LibraryFiles/LibraryFiles.razor.cs:148 | the stable sort by key is ordered by key |
| LibraryFilesPage.OrderByStatusCorrect | Client/Pages/LibraryFiles/LibraryFiles.razor.cs:148 | the status bar is ordered by key, unlisted statuses last, and is a permutation of the data |
| LibraryFilesPage.KeysListed | Client/Pages/LibraryFiles/LibraryFiles.razor.cs:148 | every entry's sort key is one of 0..5 or 100 |
| LibraryFilesPage.CountFor | Client/Pages/LibraryFiles/LibraryFiles.razor.cs:149 | 0 when no entry has the selected status |
| LibraryFilesPage.CountForFirstMatch | Client/Pages/LibraryFiles/LibraryFiles.razor.cs:149 | otherwise the count of the first entry with that status |
| LibraryFilesPage.NameWidth | Client/Pages/LibraryFiles/LibraryFiles.razor.cs:86-89 | 20 for no data; otherwise the width is the clamp to [20, 120] of some entry's length and no entry's clamped length exceeds it, so it is min(120, max(20, longest)) |
| LibraryFilesPage.NameLengths | Client/Pages/LibraryFiles/LibraryFiles.razor.cs:87-89 | one length per name |
| LibraryFilesPage.NameWidthIsLongestName | Client/Pages/LibraryFiles/LibraryFiles.razor.cs:86-89 | with i the longest (halved on mobile) name: 20 when it is under 20, 120 when it is over 120, its length otherwise |
| LibraryFilesPage.MobileNeverWider | Client/Pages/LibraryFiles/LibraryFiles.razor.cs:86-89 | the mobile column is never wider than the desktop one |
| LibraryFilesPage.Named | Client/Pages/LibraryFiles/LibraryFiles.razor.cs:145-146 | every entry gets the translated name of its status, nothing else changes |
| LibraryFilesPage.FirstNameOf | Client/Pages/LibraryFiles/LibraryFiles.razor.cs:33-35 | the name of the first Unprocessed entry, "" when there is none |
| LibraryFilesPage.PermutationKeepsStatuses | Client/Pages/LibraryFiles/LibraryFiles.razor.cs:147-148 | replacing the bar by a permutation keeps its length and statuses |
| LibraryFilesPage.NamedKeepsStatuses | Client/Pages/LibraryFiles/LibraryFiles.razor.cs:145-146 | naming changes no status |
| LibraryFilesPage.RefreshedStatusPresence | Client/Pages/LibraryFiles/LibraryFiles.razor.cs:136-151 | after a refresh every listed status but FlowNotFound is on the bar, FlowNotFound iff reported |
| LibraryFilesPage.LibraryFilesPage.constructor | Client/Pages/LibraryFiles/LibraryFiles.razor.cs:98-105 | Unprocessed selected, empty bar, width 20, title naming Unprocessed |
| LibraryFilesPage.LibraryFilesPage.RefreshStatus | Client/Pages/LibraryFiles/LibraryFiles.razor.cs:136-151 | the bar becomes the sorted, named, completed data and the count follows the selected status |
| LibraryFilesPage.LibraryFilesPage.SelectUnprocessed | Client/Pages/LibraryFiles/LibraryFiles.razor.cs:29-37 | a no-op when Unprocessed is selected; otherwise selects it, retitles and refreshes |
| LibraryFilesPage.LibraryFilesPage.PostLoad | Client/Pages/LibraryFiles/LibraryFiles.razor.cs:84-91 | the column width is recomputed |
| VideoFiles.NormalizeExtension | Server/Controllers/VideoFileController.cs:41-43 | the extension lower-cased; a leading '.' of the lower-cased text is removed (one only), and text without one is kept whole |
| VideoFiles.NormalizeExtensionExamples | Server/Controllers/VideoFileController.cs:41-43 | .MKV becomes mkv, Mp4 becomes mp4, only one dot of ..avi is dropped |
| VideoFiles.DotIsOptional | Server/Controllers/VideoFileController.cs:41-43 | an extension with or without its leading dot normalises alike |
| VideoFiles.UpperCaseEntryNeverMatches | Server/Controllers/VideoFileController.cs:44 | a configured entry holding an upper-case letter never matches |
| VideoFiles.VideosAreMatchingFiles | Server/Controllers/VideoFileController.cs:39-54 | exactly the files with a listed extension appear, with full name, file name, directory and normalised extension |
| VideoFiles.OwnVideosLast | Server/Controllers/VideoFileController.cs:34-39 | a directory's own videos come after all of its subdirectories' |
| VideoFiles.ReadableLevelVideos | Server/Controllers/VideoFileController.cs:30-54 | a level whose subdirectories can be listed yields its subdirectories' videos, then its own when its files can be listed |
| VideoFiles.DefaultListMatchesAnyCase | Server/Controllers/VideoFileController.cs:25 | with the default list a file whose extension normalises to mkv is listed |
| VideoFiles.VideoSearch.constructor | Server/Controllers/VideoFileController.cs:27 | the result list starts empty |
| VideoFiles.VideoSearch.SearchDirectory | Server/Controllers/VideoFileController.cs:30-57 | appends the videos of the whole tree in traversal order; an unreadable listing contributes nothing further |
| VideoFiles.VideoSearch.SearchSubdirectories | Server/Controllers/VideoFileController.cs:34-37 | appends each subdirectory's videos in turn |
| VideoFiles.VideoSearch.AddMatching | Server/Controllers/VideoFileController.cs:39-54 | appends the directory's own videos |
| VideoFiles.Scan | Server/Controllers/VideoFileController.cs:15-60 | empty for a null or empty source or a missing directory, else the videos of the tree under the configured or default list |
| Editors.RegisterKeepsNoDuplicates | Client/Components/Editor/Editor.razor.cs:144-148 | registering keeps the registry duplicate-free, keeps what was there, adds the input and is idempotent |
| Editors.KeptAreExcepted | Client/Components/Editor/Editor.razor.cs:150-154 | exactly the inputs whose field name is listed stay; a null list removes all |
| Editors.KeptKeepsNoDuplicates | Client/Components/Editor/Editor.razor.cs:150-154 | removal keeps the registry duplicate-free |
| Editors.KeptIsIdempotent | Client/Components/Editor/Editor.razor.cs:150-154 | removing twice with the same list removes nothing more |
| Editors.UpdateValueEffect | Client/Components/Editor/Editor.razor.cs:350-361 | UI-only fields and a null model change nothing; otherwise the key is set or inserted and no other key changes |
| Editors.GetValue | Client/Components/Editor/Editor.razor.cs:483-496 | the caller's default for a null model, a missing key or a null value |
| Editors.UpdateThenGet | Client/Components/Editor/Editor.razor.cs:350-361 | a value written by UpdateValue reads back through GetValue, converted |
| Editors.UpdateKeepsOtherReads | Client/Components/Editor/Editor.razor.cs:356-360 | an update leaves every other key's read unchanged |
| Editors.FailedConversionIgnoresDefault | Client/Components/Editor/Editor.razor.cs:524-531 | a value that fails to convert reads as default(T) whatever default is passed |
| Editors.FindField | Client/Components/Editor/Editor.razor.cs:339-343 | a field with the name from the list, or none when there is no list or no such field |
| Editors.FindFieldIsFirst | Client/Components/Editor/Editor.razor.cs:339-343 | the first field with the name is the one found |
| Editors.FirstRange | Client/Components/Editor/Editor.razor.cs:413 | a Range validator from the list, none iff there is none |
| Editors.FirstRangeIsFirst | Client/Components/Editor/Editor.razor.cs:413 | the first Range validator is the one found |
| Editors.GetRange | Client/Components/Editor/Editor.razor.cs:411-415 | (0, 0) for a null field or validator list |
| Editors.GetRangeIsFirstRange | Client/Components/Editor/Editor.razor.cs:411-415 | the first Range's (Minimum, Maximum) |
| Editors.NoRangeGivesZero | Client/Components/Editor/Editor.razor.cs:414 | no Range validator gives (0, 0) |
| Editors.FailedInputsAreInvalid | Client/Components/Editor/Editor.razor.cs:265-274 | the failed inputs are exactly the invalid ones, and none fail iff all are valid |
| Editors.Editor.constructor | Client/Components/Editor/Editor.razor.cs:70 | an empty registry and no model |
| Editors.Editor.RegisterInput | Client/Components/Editor/Editor.razor.cs:144-148 | appends the input unless registered, keeping the registry duplicate-free |
| Editors.Editor.RemoveRegisteredInputs | Client/Components/Editor/Editor.razor.cs:150-154 | keeps exactly the listed inputs, in order |
| Editors.Editor.UpdateValue | Client/Components/Editor/Editor.razor.cs:350-361 | the model becomes UpdatedModel of the old one |
| Editors.Editor.Save | Client/Components/Editor/Editor.razor.cs:257-290 | read-only refuses; every input is validated and any failure, or a callback returning false, changes nothing; otherwise the pending task completes with the model, the editor hides, fields and tabs are cleared and OnClosed fires once |
| FlowTableButtons.SelectionCount | Client/Components/Common/FlowTableButton/FlowTableButton.razor.cs:74 | a null item list counts as 0 |
| FlowTableButtons.SelectionRule | Client/Components/Common/FlowTableButton/FlowTableButton.razor.cs:75-80 | SelectedOne wants exactly one item and wins; SelectedOneOrMore alone wants at least one; neither is always enabled |
| FlowTableButtons.NullSelectionEnablesOnlyUnconstrained | Client/Components/Common/FlowTableButton/FlowTableButton.razor.cs:71-80 | a null selection enables exactly the buttons with neither flag |
| FlowTableButtons.SelectedOneIsStricter | Client/Components/Common/FlowTableButton/FlowTableButton.razor.cs:75-78 | every count SelectedOne accepts, SelectedOneOrMore accepts too |
| FlowTableButtons.FlowTableButton.constructor | Client/Components/Common/FlowTableButton/FlowTableButton.razor.cs:37 | an empty label, no icon and the stored flag true |
| FlowTableButtons.FlowTableButton.Enabled | Client/Components/Common/FlowTableButton/FlowTableButton.razor.cs:38-45 | never enabled while Disabled, otherwise the stored flag |
| FlowTableButtons.FlowTableButton.SetLabel | Client/Components/Common/FlowTableButton/FlowTableButton.razor.cs:21 | a null label becomes "" before translation |
| FlowTableButtons.FlowTableButton.SetIcon | Client/Components/Common/FlowTableButton/FlowTableButton.razor.cs:31 | a null icon is stored as "" |
| FlowTableButtons.FlowTableButton.TableSelectionChanged | Client/Components/Common/FlowTableButton/FlowTableButton.razor.cs:71-83 | the flag follows the selection rule, and the component re-renders iff Enabled changed |
| FlowTableButtons.FlowTableButton.OnInitialized | Client/Components/Common/FlowTableButton/FlowTableButton.razor.cs:59-68 | the initial null selection enables only a button with neither flag |

## Left out

- Logging: `Logger.Instance` calls, `LogQueueMessage` and the file logger are side effects with no bearing on state.
- The filesystem watcher, the queue timer and the scan mutex are flags. Concurrency, locking and the timer's thread are not modelled.
- Thread.Sleep and the 20-second wait in `Watcher_Changed` are not modelled: the file sizes before and after the wait are parameters.
- `CanAccess` is one boolean of the probe: it opens the file and waits.
- The regex engine and `CalculateFingerprint` are oracles: the regex outcome is a parameter, the fingerprint a field of the probe.
- `CheckKnown`: a recreated file's reset stores a null fingerprint as "".
- `CheckKnown`, `NullFingerprintLookedUpAsEmpty`: `LibraryFileService.GetFileByFingerprint` is not part of this model. Called with the null fingerprint, it is assumed to find what a lookup of "" finds (stored null fingerprints are "" in the model); a SQL `Fingerprint = NULL` comparison would find nothing instead, so the null half of `EmptyFingerprintPairsWithUnfingerprinted` is not claimed.
- Lower-casing is ASCII only: culture-specific casing rules are not modelled. `StartsWith` and `EndsWith` (the root test at Server/Workers/WatchedLibrary.cs:140 and the `_` suffix tests) compare ordinally, not by the current culture as .NET's `string.StartsWith(string)` and `string.EndsWith(string)` do.
- `DateTime.Now` is a single `now` parameter per operation: the upgrade pass and the drain step read the clock once instead of several times.
- `TimeHelper.InSchedule` is a boolean parameter: schedule parsing is not modelled.
- `LibraryController.UpdateLastScanned`, `SystemEvents.TriggerFileAdded` and `FlowExecutor.Run` are calls into code that is not part of this model.
- The storage engine (NPoco, SQL text, `DbHelper`) is a sequence of records; `Database_Fetch` and the other queries of LibraryFileService.Db.cs are storage I/O.
- Server/Database/DbMigrater.cs, ServerShared/Services/SystemService.cs and Server/Services/ScriptService.cs are storage or HTTP plumbing and are not part of this model.
- Client/Components/PageView/PageView.razor.cs has no logic, and build/builder/Globals.cs is a constant string plus the current year.
- The `#if DEMO` branches of LibraryFiles.razor.cs, its HTTP calls, and `Translater` lookups (a name function is a parameter).
- `Editor`: JavaScript interop, rendering, `Open`, `Cancel`, `ModelToJsonForCompare`, `GetParameter` and the untyped `GetValue(string, Type)` are not modelled.
- `Editors.GetValue`: the `JsonElement` branches and `Converter.ConvertObject` are folded into one conversion function; an exception thrown by the `JsonElement` branches (which are not caught) is not modelled.
- `Editors.Editor.Save`: side effects of `Validate()` (showing messages) and any change the save callback makes to the model are not modelled; `OnClosed` is a counter.
- `FlowTableButton`: registering with the table and unsubscribing in `Dispose` are not modelled; `Disabled` is fixed at construction.
- Video scan: `FileInfo.FullName` path normalisation is not modelled; the entries carry the names enumeration reports.
- `WatchedLibraries.WatchedLibrary.QueueItem`: after `Dispose` the source's `QueueTimer.Start()` throws `ObjectDisposedException` once the path is enqueued. The model has no such failure: it enqueues and arms the timer. So after `Dispose` the model's `Scan` queues every candidate, where the source's catch ends the scan after the first enqueued path without reaching `UpdateLastScanned`; likewise `WatcherChanged`/`OfferEach` queue every file below a directory, where the source stops after the first.
- `WatchedLibraries.WatchedLibrary.Scan`: the enqueue failure after `Dispose` described for `QueueItem` is not modelled, so a scan of a disposed library is reported as `Scanned` with every candidate queued.
- `WatchedLibrary`: a folder library's `GetDirectories` throwing during a scan is the `Failed` outcome; other exceptions caught by `Scan` (for example from the record lookup) are not modelled.
- `FlowWorkers.FlowWorker.Execute`: `FileInfo.FullName` path normalisation is not modelled; the record is looked up, named and dispatched under `CurrentFile` as given.
- `FlowWorker.Execute`: the flow is looked up in a map from flow uid to name, and the file's existence and times are parameters.
