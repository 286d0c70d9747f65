# go-tool-cache, modelled and verified

A Dafny model of the three stateful parts of go-tool-cache, a cache for the Go
command, with proofs of what each promises over whole runs.

* **The gocached server store** (`gocached/gocached.go`): the `Blobs` and
  `Actions` tables, the content-addressed files with and without `.lz4`, the
  batched access times with their flush timer, and the eviction counters. It is
  modelled three times and the three are tied together. `Interleaving` is a
  transition system whose steps are single renames, SQL statements, file
  removals and commits of any number of concurrent requests. `Serial` has whole
  requests as functions on the tables and files. `Gocached.Server` is the class
  with the source's fields and imperative methods, proved against `Serial` and
  against the relations of `Cleaning`, `Usage` and `AccessTimes`. `Refinement`
  shows that every serial run is a run of the transition system.
* **The client's disk cache and HTTP tier** (`cachers/*.go`): `DiskCrash` is a
  transition system of concurrent Unix `Put` calls, one file system step at a
  time, with crashes; `DiskCaching` has the same `Put` as methods, and
  `DiskRefinement` ties the two; `WindowsDisk` has the byte-level writes in place;
  `HttpTier` puts the disk cache in front of the server.
* **The child-process protocol** (`cacheproc/cacheproc.go`, `wire/wire.go`):
  `ProcessRuns` has the decoder, one goroutine for each request and the writers
  that share standard output; `CacheProc` has the handlers over the disk cache.

Read in this order: `Basics`, `Hex`, `Content`, `Store`, `Interleaving`,
`Orphans`, `Conservation`, `Serial`, `Refinement`, `Availability`, `Clock`,
`AccessTimes`, `Flushes`, `Usage`, `Durations`, `Cleaning`, `Races`,
`Eviction`, `Server`, `DiskNames`, `DiskCrash`, `DiskCache`, `DiskRefinement`,
`WindowsDisk`, `HttpTier`, `Wire`, `CacheProc`, `ProcessRuns`.

Assumptions, each a named predicate: SHA-256 does not collide on the contents
that are ever uploaded and gives none of them the all-zero hash, and lz4
decompression undoes compression (`Content.Sound`); decoding an index entry
undoes encoding it (`DiskCrash.RoundTrips`). BlobIDs are never reused
(`AUTOINCREMENT`), so a new row's ID is any number from `nextBlobId` on. Times
are nanoseconds, `Clock.Unix` rounds them down to seconds, and ages are computed
in wrapping 64-bit arithmetic as in the source.

Where the code and its comments differ, the model follows the code:

* A comment at `gocached/gocached.go:844-850` says that the background cleanup
  removes the action of a missing file as a dangling reference. The cleaner looks
  for no such thing; a row without its file goes when it is old or evicted for
  size. The model's GET answers "not found" and leaves the row.
* A comment at `gocached/gocached.go:502` says that gets are hits, errors and
  misses. A hit is counted before the file is opened, so this does not hold, and
  the model has no such counters.
* Content whose lz4 form is exactly as long as the content is stored as `.lz4`
  and looked for as a plain file, so it is a miss. A clean that rolls back leaves
  rows without their files. `Serial.PutThenGet` shows that these are the only
  misses before eviction, and says for every run of requests which files are
  lost; `Serial.RolledBackCleanLosesFile` is the shortest such run.
* A PUT whose content is being evicted can lose its file or its new action to the
  clean and still be answered with success (`Races.RacedPutIsNotFound`,
  `Races.LatePutIsEvicted`). `Availability.GetAnswersExactly` and
  `Races.LateCleanTakesExactly` say for every list of events when this happens.
* The age pass works with a cutoff in whole seconds and a maximum age in
  nanoseconds, and so can evict an action that is younger by less than a second.
  `Cleaning.AgePassSparesExactly` says exactly when it does not. It misses no old
  blob until ages overflow 64 bits in the year 2262
  (`Cleaning.AgePassFindsExactly`).
* With the maximum age set to the largest duration, the histogram lists that
  duration twice and the infinity bucket counts every action twice
  (`Durations.UsageIsExact`). The size limit is still kept.

## Model

| member | source | states |
|---|---|---|
| Interleaving.EveryAnswerIsOneUpload | gocached/gocached.go:748-863 | in every interleaving of PUT, GET and clean steps, stale lists, insert errors and rolled-back cleans included, a 200 answer carries the output ID and, decoded, exactly the bytes of one upload to that action |
| Interleaving.TablesStayConsistent | gocached/gocached.go:1390-1393 | in every interleaving no action lacks its blob row, so MissingBlobRows is 0, and no hash has two rows |
| Interleaving.StaleIdsAreHarmless | gocached/gocached.go:1459-1497 | a BlobID taken from a list of any age names the blob it named then or none at all, and for none deleteBlobs removes no existing file |
| Interleaving.RunKeepsIds | gocached/gocached.go:115-125 | over any run a BlobID never comes back with another row |
| Interleaving.NextKeepsSafe | gocached/gocached.go:1000-1114 | every step of every request keeps the joint invariant of tables, files, lock and request threads |
| Availability.GetAnswersExactly | gocached/gocached.go:783-862 | in every interleaving, from any reachable state with the rows of an upload: a GET that queries before the blob is evicted is answered "not found" exactly if the content has a file and the last rename or removal of that file before the open was a removal, or compression keeps its length; otherwise it is answered the upload |
| Availability.PutIsAnsweredExactly | gocached/gocached.go:1047-1103 | the same for a PUT that creates its action row, decided by the list of events from the empty store on |
| Availability.FileIsThere | gocached/gocached.go:1284-1286 | in every interleaving a content's file is on disk exactly if the last rename or removal of it was a rename |
| Availability.RowsLast | gocached/gocached.go:1469-1497 | in every interleaving the rows of an upload last exactly until a commit has its blob on the list, and then never come back under that ID |
| Availability.PutIsAvailable | gocached/gocached.go:783-862 | a condition on the cleans alone: if none removes the file of an upload between its rename and the open of a GET that queries after its action row was created, the answer is the upload, unless compression keeps its length |
| Races.RacedPutIsNotFound | gocached/gocached.go:842-852 | a run that needs the condition: a PUT renames its file, a clean evicts the old blob of the content with the file, the PUT succeeds, and a GET of its action is answered "not found" |
| Races.LateCleanTakesExactly | gocached/gocached.go:1526-1542 | in every interleaving, however late the clean of a list commits: an action that it removes is younger than maxAge, by the clock of the list, exactly if the last insert, flush or removal of that action since then was an insert or flush that gave it a fresh access time on a listed blob |
| Races.LateCleanSparesTheYoung | gocached/gocached.go:1526-1542 | in particular, it spares an action that the events since then do not leave fresh, whatever part of the candidates its list is |
| Races.LatePutIsEvicted | gocached/gocached.go:1080-1103 | a run that needs the condition: an old upload is the one candidate; a PUT of its content to another action is answered with success and the time of its access is now; the clean of that list commits, and the new action is gone |
| Store.RespondIsFaithful | gocached/gocached.go:801-862 | whatever files are there, a response for a row is either faithful to its upload or a miss, and a miss exactly when the file is gone or compression kept the length; faithful means the output ID, the bytes, the compressed form verbatim for clients that accept lz4 and content of 1026 bytes or more, and true headers |
| Store.UpsertBlobRow | gocached/gocached.go:1058-1071 | the upsert ends with exactly one row for the hash, in the stored form of the content, and touches no other |
| Store.InsertedRow | gocached/gocached.go:1073-1090 | a PUT adds exactly one action row, created and accessed now, with an output ID of its own only if that is not the hash |
| Store.RemoveRowsKeeps | gocached/gocached.go:1476-1481 | deleting blobs with their actions leaves no action that refers to nothing |
| Store.NoFileHasZeroHash | gocached/gocached.go:1482-1491 | the zero hash left over for an ID without a row names no file |
| Orphans.NoOrphanFiles | gocached/gocached.go:1223-1288 | in every interleaving a content-addressed file belongs to a blob row, to a PUT between rename and insert, or to a hash whose insert failed |
| Orphans.EvictionLeavesNoFile | gocached/gocached.go:1469-1497 | a committed clean leaves neither the plain nor the lz4 file of a blob it evicts, unless a PUT of that content is in flight |
| Orphans.InFlightAfter | gocached/gocached.go:1047-1071 | a PUT leaves the window between rename and insert only with its row in place or its failure recorded, and never while a clean holds the lock |
| Conservation.BytesAreConserved | gocached/gocached.go:1496-1500 | in every interleaving stored bytes present plus EvictedBytes, plus those of a clean between commit and counting, are the stored bytes ever inserted |
| Conservation.BlobsAreConserved | gocached/gocached.go:1496-1500 | the same for blob rows and EvictedBlobs with a single cleaner; otherwise the counter is ahead by exactly the stale IDs |
| Serial.PutThenGet | gocached/gocached.go:748-863 | PUT to a fresh action, any further serial requests that do not evict its blob, rolled-back cleans included, then GET with or without lz4: the same output ID, bytes and a true Content-Length, except exactly when compression keeps the length or a rolled-back clean has lost the file and no PUT of the content has come since |
| Serial.RowsAgreeWithStoredForm | gocached/gocached.go:1026-1066 | after any serial run every row has the stored form its size calls for (inline up to 1024 bytes, a plain file at 1025, an lz4 file from 1026), exactly unless the list of requests says that its file is lost |
| Serial.RolledBackCleanLosesFile | gocached/gocached.go:1459-1497 | the failing input, for every upload with a file: PUT, then a clean that rolls back after two removals; the row lacks its stored form, GET is 404, and a second PUT restores the answer |
| Serial.RemovalsHitExactly | gocached/gocached.go:1482-1491 | the file removals of a clean, finished or not, hit the file of a row exactly when they get to its ID in the list; other blobs, stale IDs and repetitions are spared |
| Refinement.SerialRunsAreInterleavings | gocached/gocached.go:1000-1114 | every serial run, failing PUTs and rolled-back cleans included, is a run of the transition system to the same tables and files |
| Refinement.GetRefines | gocached/gocached.go:748-863 | an uninterrupted GET of the transition system answers what the serial one does |
| Refinement.CleanRefines | gocached/gocached.go:1459-1503 | so does an uninterrupted deletion, with its count of evicted blobs, or its rollback after any number of removals |
| Gocached.Server.HandlePut | gocached/gocached.go:1000-1114 | the status and the whole new state of a PUT in each outcome: 400 exactly if an ID is not the printed form of 2 to 500 bytes or the length is missing, 500 exactly for a failing or mis-sized body or a fault, with what each fault leaves behind |
| Gocached.Server.WriteDiskBlob | gocached/gocached.go:1223-1288 | success exactly when the body can be read and has the announced size; then the one file is its stored form and the size returned is the file's |
| Gocached.Server.InsertRows | gocached/gocached.go:1055-1103 | the two inserts under the lock, and what is left when either fails |
| Gocached.Server.UpsertBlobRow | gocached/gocached.go:1058-1066 | the upsert in place, with the ID of the row found or made |
| Gocached.Server.HandleGetAction | gocached/gocached.go:748-863 | the status, the response of the serial GET, and as the only change the bump by the action's stored access time |
| Gocached.Server.MaybeBumpAccessTime | gocached/gocached.go:868-876 | a bump only for access times at least a day old, and whether it was the first |
| Gocached.Server.EnqueueAccessTimeBump | gocached/gocached.go:883-903 | the pending batch and its timer afterwards; only the first bump of an action counts |
| Gocached.Server.FlushAccessTimeBumps | gocached/gocached.go:915-971 | every pending time reaches its action if it is still there, nothing else changes, and the batch is empty; or the flush fails, nothing is written and a new timer is set |
| Flushes.FlushTouchesOnlyTimes | gocached/gocached.go:942-966 | a flush keeps the actions and every field of them but the access time, which becomes the pending one if there is one |
| Flushes.FlushChangesNoAnswer | gocached/gocached.go:942-966 | no GET is answered differently after a flush, with or without lz4 |
| Flushes.FlushIsInterleaving | gocached/gocached.go:942-966 | a flush after any serial run is a run of the transition system, one update for each pending action |
| AccessTimes.HitIsPending | gocached/gocached.go:868-896 | a hit within 86400 seconds of the stored access time leaves no trace; any other is pending at its own second, unless an earlier hit of the batch is; nothing else becomes pending |
| AccessTimes.BumpSetsTimer | gocached/gocached.go:897-901 | a new entry sets the flush to five seconds from now, unless 999 others are pending and a timer is set; no other timer changes |
| AccessTimes.FlushSetsTimer | gocached/gocached.go:922-935 | a flush stops no timer; one that fails comes again in five seconds |
| Gocached.Server.BuildDurations | gocached/gocached.go:1348-1364 | the list of durations, sorted in place, is the one whose members and order are proved below |
| Gocached.Server.CountAction | gocached/gocached.go:1399-1405 | one row adds one action and its size to each bucket above its age, once for each time the duration is listed, and nothing elsewhere |
| Gocached.Server.ReadRows | gocached/gocached.go:1373-1409 | after all rows, read in any order, every bucket is the tally of the younger actions, once for each time it is listed, and the missing rows are counted |
| Gocached.Server.ComputeUsageStats | gocached/gocached.go:1338-1415 | the one-pass histogram over the tables, flushed unless the flush fails, is the brute-force count and size of the actions younger than each duration, exactly unless maxAge is the largest duration and there are actions |
| Gocached.Server.MaxAccessTime | gocached/gocached.go:1431-1434 | the maximum over a blob's actions, and NULL exactly when it has none |
| Gocached.Server.EligibleGroups | gocached/gocached.go:1431-1434 | the groups that pass HAVING, with their maxima |
| Gocached.Server.CleanCandidates | gocached/gocached.go:1425-1457 | the result is a candidates list: distinct eligible blobs, least recent first, with nothing eligible left out unless the limit is reached by blobs no more recent |
| Gocached.Server.DeleteBlobs | gocached/gocached.go:1459-1503 | rows, actions, both files and the counters on success; on failure after any number of removals only those files are gone |
| Gocached.Server.RemoveFilesOf | gocached/gocached.go:1469-1493 | the removals made before an error, and the sum of the stored sizes of the rows, each once |
| Gocached.Server.CleanOldObjects | gocached/gocached.go:1505-1588 | both passes, with the size loop running its body at most once per call and taking no more than it must, the counters raised by exactly what is returned, and what is left when either deletion fails |
| Gocached.Server.AgeOut | gocached/gocached.go:1525-1548 | the age pass, its counters, and what is left when its deletion fails |
| Gocached.Server.EvictBatch | gocached/gocached.go:1550-1585 | the body of the size loop: the candidates, the prefix taken, without whose last blob the limit would still be exceeded, and its deletion |
| Gocached.ListedBytes | gocached/gocached.go:1455-1503 | the sizes of a candidates list add up to the stored sizes deleteBlobs counts, each blob once |
| Gocached.Server.CleanRound | gocached/gocached.go:1590-1613 | one round of the clean loop, for every maxAge and maxSize: survivors untouched and none less recent than what went, in every outcome; if the deletions succeed, per-blob size at most per-action size at most maxSize and no fully expired blob left, under the stated conditions, and nothing evicted for size that could have stayed; a deletion that fails ends the round with what it has done |
| AccessTimes.BatchesAreFlushed | gocached/gocached.go:878-907 | in every timed run a batch with entries has a flush scheduled, due at most 4995 seconds after its first entry, and 5 more for each flush of it that failed |
| AccessTimes.RecordedTimeLagsLessThanADay | gocached/gocached.go:744-746 | the recorded access time, pending or stored, of a live action is never later than its latest hit, and less than a day before it, as long as no batch failed more than 16280 times to be flushed; and never before it by more than a batch can age |
| AccessTimes.PendingTimesArePast | gocached/gocached.go:896 | in every timed run what is pending is a time of the past, and for a live action no later than its latest hit |
| AccessTimes.NoErrorsNoFailures | gocached/gocached.go:922-927 | a run without flush errors has no failures to add to these bounds |
| Durations.BucketsAreIncreasing | gocached/gocached.go:1348-1364 | the list is strictly increasing exactly when maxAge is not the largest duration |
| Durations.BucketMembers | gocached/gocached.go:1348-1364 | which durations are in the list: maxAge, those below it among 1, 2, 4, 7, 14, 30 and 90 days, and infinity |
| Durations.ListedCounts | gocached/gocached.go:1348-1364 | every duration is listed once, but infinity twice if it is maxAge; sorting keeps repetitions |
| Durations.UsageIsExact | gocached/gocached.go:1399-1405 | the histogram meets its definition if and only if maxAge is not the largest duration or nothing is counted; otherwise the infinity bucket is twice the total |
| Usage.InfinityIsTotal | gocached/gocached.go:1395-1405 | the infinity bucket is the total, even when the 64-bit age overflows |
| Usage.BucketsAreMonotone | gocached/gocached.go:1306-1315 | a longer duration never counts fewer actions or bytes |
| Usage.AgesFitUntil2262 | gocached/gocached.go:107-111 | until that second no age overflows in tables that the schema admits |
| Cleaning.CutoffMeansAge | gocached/gocached.go:1425-1428 | the cutoff in seconds and the age in nanoseconds agree on all access times exactly when maxAge is in whole seconds or its fraction exceeds the clock's |
| Clock.UnixIsFloor | gocached/gocached.go:1376 | Unix seconds are the whole seconds that are over |
| Clock.Wrap64IsCongruent | gocached/gocached.go:1395 | the wrapped value is the one of that residue in the range of an int64 |
| Cleaning.ExpiredBlobsAtMostActions | gocached/gocached.go:1526-1530 | pigeonhole: each fully expired blob owns an action of its own that the statistics count as expired |
| Cleaning.ToDeleteCountsExpired | gocached/gocached.go:1526-1528 | toDelete is the number of expired actions |
| Cleaning.AgePassIsExact | gocached/gocached.go:1526-1547 | while no age overflows, and accesses in the future may be as far off as they like, the LIMIT of toDelete+1 cuts off no blob whose actions are all at least maxAge old, however maxAge is aligned; aligned with the clock, the age pass removes exactly those blobs; it removes none if no action is expired, and never more than one blob more than there are expired actions |
| Cleaning.AgePassSparesTheYoung | gocached/gocached.go:1526-1547 | aligned, and whatever the ages, it removes no action younger than maxAge |
| Cleaning.AgePassSparesExactly | gocached/gocached.go:1425-1436 | it spares the young on all tables without overflowing ages if and only if maxAge is in whole seconds, or its fraction exceeds the clock's, or no action can get that old |
| Cleaning.UnalignedPassTakesTheYoung | gocached/gocached.go:1526-1542 | the failing input for every other maxAge: two blobs a second apart, of which only one is old, both go |
| Cleaning.AgePassFindsExactly | gocached/gocached.go:1394-1405 | the age pass finds every fully expired blob of all tables that the schema admits if and only if the clock is at most at second 9223372036, in the year 2262 |
| Cleaning.OverflowHidesTheOldest | gocached/gocached.go:1395-1398 | the failing input from 2262 on, within the schema: a blob not used for 9223372037 seconds counts as new and stays |
| Eviction.BlobBytesAtMostActionBytes | gocached/gocached.go:1290-1293 | counting once per blob never gives more than counting once per action |
| Eviction.BlobBytesAreStored | gocached/gocached.go:1290-1293 | the size once per blob and that of the blobs without actions are together all stored bytes |
| Eviction.CleanKeepsTrackedAboveTrue | gocached/gocached.go:1544-1578 | after a clean on statistics that were not below the true per-action size the tracked size still is not, so the true size is within maxSize or every candidate fetched is gone |
| Eviction.CleanBoundsUsage | gocached/gocached.go:1550-1585 | with at most 10000 referenced blobs and no access time in the future the bound always holds |
| Eviction.CleanEvictsNoMore | gocached/gocached.go:1550-1572 | on sizes alone: without the last blob evicted for size the tracked size would still exceed maxSize, and if it fits after the age pass none is; the two lists hold exactly the evicted blobs with their sizes |
| Eviction.EvictsLeastRecent | gocached/gocached.go:1430-1436 | no blob that survives the size pass was accessed strictly before an evicted one |
| Eviction.CleanEvictsLeastRecent | gocached/gocached.go:1505-1588 | the same over both passes together, under no further condition |
| Eviction.CleanLeavesNoneExpired | gocached/gocached.go:1526-1547 | if the age pass found every fully expired blob, none is left after both passes |
| Eviction.AgePassFindsAll | gocached/gocached.go:1526-1547 | for every maxAge, the largest duration included, the age pass on statistics of the same moment finds every fully expired blob while no age overflows |
| Eviction.TrackedStartsTrue | gocached/gocached.go:1508 | the accounting starts at the true per-action size, or at twice that for the largest duration |
| Gocached.Server.TakePrefix | gocached/gocached.go:1561-1567 | the loop takes the shortest prefix of the candidates that reaches the excess, or all of them |
| DiskNames.FilenameParts | cachers/disk.go:65-77 | every character of a file name: directory, first two digits, kind, ID |
| DiskNames.FilenameIsInjective | cachers/disk.go:65-77 | a file name determines the kind of file and the ID |
| DiskNames.TempNamesAreApart | cachers/disk_notwindows.go:21-25 | no temporary file has the name of an output or action file |
| DiskNames.TempNameIsInjective | cachers/disk_notwindows.go:21-25 | writers of one file share a temporary file only if they drew the same suffix |
| DiskCrash.VisibleActionsHaveTheirOutputs | cachers/disk_notwindows.go:12-41 | at every step of any interleaving of Puts and after any crash, what Get finds is an output whose file exists with exactly its content |
| DiskCaching.PutKeepsOutputs | cachers/disk.go:117-123 | a Put keeps the promise of output files exactly when its reader fails or delivers the content of the output ID, since the size is checked only after the rename |
| DiskCaching.PutTouchesOnlyItsFiles | cachers/disk.go:92-138 | a Put changes only its two files, and the action's only if it succeeds, to exactly its index entry |
| DiskCaching.PutPutsGet | cachers/disk.go:37-137 | Put, any Puts to other actions with one content per output, then Get: the same output ID, path and bytes |
| DiskCaching.DiskCache.WriteAtomic | cachers/disk_notwindows.go:21-41 | success replaces the destination by exactly the bytes read, an error leaves every file as it was |
| DiskCaching.DiskCache.Put | cachers/disk.go:92-138 | success exactly for valid IDs, a full body of the declared size and no error of the file system, with the files afterwards in every outcome, an error between output and index included |
| DiskCaching.DiskCache.Get | cachers/disk.go:37-63 | invalid ID, unreadable index, missing or undecodable index, invalid output ID and hit |
| DiskRefinement.UninterruptedPut | cachers/disk_notwindows.go:21-41 | an uninterrupted Put of the transition system, failing at the output or at the index, mis-sized or successful, leaves exactly the files the method does |
| WindowsDisk.RewritingIsInvisible | cachers/disk_windows.go:20-45 | a file that holds the bytes holds them at every step of any interleaving of writers of these bytes |
| WindowsDisk.FinishedWritersLeaveExactBytes | cachers/disk_windows.go:20-45 | from any older content, once a writer has finished the file is exactly the bytes |
| WindowsDisk.SuccessIsExact | cachers/disk_windows.go:57-103 | whatever the old file held, a successful Put leaves exactly size bytes with the right hash, except exactly when Stat failed on a longer file |
| WindowsDisk.PutTouchesOnlyItsFiles | cachers/disk_windows.go:57-103 | a Put changes only its two files; one that fails leaves the index as it was or removes it, and removes an output it has begun to write; one without such an error leaves the bytes delivered, and behind them the tail of a longer old file exactly if that was not longer than announced or Stat failed |
| WindowsDisk.PutThenGet | cachers/disk_windows.go:57-103 | and a Get finds them |
| WindowsDisk.WindowsDiskCache.WriteOutputFile | cachers/disk_windows.go:57-103 | result and files in every case: already there, errors of Stat, of the check, of opening and closing, truncated first, overwritten, removed after an error |
| WindowsDisk.WindowsDiskCache.WriteActionFile | cachers/disk_windows.go:20-45 | written in pieces and truncated, the file is the bytes, whatever it held; it stays as it was if it cannot be opened, and is removed after a later error |
| WindowsDisk.WindowsDiskCache.Put | cachers/disk.go:92-138 | success exactly for valid IDs, a full body of the declared size, the right hash of it or of the file already there, and no error on the way, with the files in every outcome |
| HttpTier.DownloadIsUpload | cachers/http.go:71-87 | the client undoes the server's choice of encoding and stores exactly the upload, with the size the disk cache checks |
| HttpTier.GetOutcomes | cachers/http.go:89-199 | a client without best effort never takes an error of the server for a miss, one with best effort always; a local answer is used as it is; a download is a hit if and only if both IDs are valid, the disk has no error and the announced length is that of the decoded body; only a download changes files |
| HttpTier.SentIsTheBody | cachers/http.go:205-227 | the server is sent the body itself if it has the announced size, else a prefix or a body that breaks off |
| HttpTier.SecondClientGetsTheUpload | cachers/http.go:89-154 | one client PUTs, a second one GETs before eviction: the same output ID and file bytes, and from then on the same answer locally, whatever the server says; only content of equal compressed length is a miss |
| HttpTier.HTTPClient.Get | cachers/http.go:89-199 | the local answer, or the server's saved to disk, or a miss or error when the network fails, and the client's files afterwards |
| HttpTier.HTTPClient.Save | cachers/http.go:109-199 | what a response of the single-request protocol does to the client's result and files: miss, error or best-effort miss, missing headers, download |
| HttpTier.HTTPClient.Put | cachers/http.go:201-271 | success means that the local files hold the buffered body and, without best effort, that the server does; with best effort too, the server has it whenever the request arrives and nothing fails; no failure without a fault or a cancellation; the local files in every outcome |
| HttpTier.HTTPClient.SendPut | cachers/http.go:226-256 | what the server has stored when the request never arrives, its answer is lost, or it is answered |
| CacheProc.PutThenGet | cacheproc/cacheproc.go:143-222 | a put that succeeds, any puts to other actions, failing ones included, then a get of the action: the original output ID as bytes, the body's size and the same disk path |
| CacheProc.GetSorts | cacheproc/cacheproc.go:154-187 | when exactly a get is an error, a hit or a miss, and that a hit's output ID, size, time and path are those of the indexed file |
| CacheProc.DecodedPrefixMeans | cacheproc/cacheproc.go:169-172 | what an error of parsing leaves of an ID with an odd number of digits |
| CacheProc.PutSucceedsExactly | cacheproc/cacheproc.go:190-222 | a put succeeds exactly for IDs of 2 to 50 bytes, a body of the declared size and no error of the file system |
| CacheProc.PutWritesIndex | cachers/disk.go:117-133 | and then the body is on the disk under its ID and the index of the action decodes to version 1, the output ID, the size and the time; any other put leaves the index as it was |
| CacheProc.Process.HandleGet | cacheproc/cacheproc.go:143-188 | the response in every branch of the lookup, a missing function, errors of reading the index and of os.Stat and files that are not regular included, and one of three counters for each get |
| CacheProc.Process.Lookup | cacheproc/cacheproc.go:154-187 | the result of a get without its counters, in every branch |
| CacheProc.Process.HandlePut | cacheproc/cacheproc.go:190-222 | the response, the files and the counters of a put, a missing function and errors of the disk cache and of os.Stat included |
| Hex.PrintThenParse | cacheproc/cacheproc.go:158-172 | parsing a printed ID gives its bytes back |
| Hex.ParseThenPrint | cacheproc/cacheproc.go:158-172 | lower-case digits parse exactly when their number is even, and then printing undoes parsing |
| Hex.ParsesExactly | cacheproc/cacheproc.go:168-172 | exactly the strings of an even number of digits of either case parse, and printing what they give restores them in lower case |
| Hex.ServerIdsArePrinted | gocached/gocached.go:730-742 | the server takes exactly the IDs that printing 2 to 500 bytes gives |
| Hex.ClientIdsArePrinted | cachers/disk.go:79-90 | the disk cache takes exactly those of 2 to 50 bytes, and those of 2 to 49 bytes with one digit more |
| Hex.PrintsHighDigitFirst | cacheproc/cacheproc.go:158 | the order and case of the digits, on an example |
| ProcessRuns.StreamIsSplitBack | cacheproc/cacheproc.go:89-112 | in every run the requests decoded are a prefix of the list sent, each with the ID, command, action ID, size and body sent and the output ID sent under its newer or else its older name; the process ends only after the last and never fails |
| ProcessRuns.EncodeThenRead | cacheproc/cacheproc.go:89-112 | reading undoes encoding for every list of requests, field by field |
| Wire.FramedBySize | wire/wire.go:24-27 | on the wire exactly a put of positive size is followed by a body, of that size |
| ProcessRuns.ReadRequests | cacheproc/cacheproc.go:89-124 | the decoding loop, with its three ways to end, against the recursive reader, and that it gives back every list sent, field by field |
| ProcessRuns.BodiesHaveTheirSize | cacheproc/cacheproc.go:101-112 | whatever the input, no handler sees a put whose body has not the declared size |
| ProcessRuns.RepliesAreWholeAndSingle | cacheproc/cacheproc.go:113-123 | in every run standard output is whole reply lines, at most one for each request and with its ID, and then exactly the part of one more line that the holder of the mutex has written: replies never interleave |
| ProcessRuns.IdsAreAnsweredOnce | wire/wire.go:64-67 | if request IDs are unique, no ID is answered twice and none that was not asked |
| ProcessRuns.RepliesAndCountersBalance | cacheproc/cacheproc.go:143-153 | in every run replies plus handlers in flight are the requests decoded, and gets are hits, misses, errors and gets in flight |
| ProcessRuns.CountersCount | cacheproc/cacheproc.go:143-153 | in every run each of the six counters is the number of handlers it promises to count |
| ProcessRuns.UnknownCommandsFail | cacheproc/cacheproc.go:113-131 | in every run each request with an unknown command that has been answered was answered with an error |

## Left out

- SQLite, WAL, connections and the migration of the schema: tables are maps, statements and transactions are atomic steps. Namespaces are always 0, as in the source.
- HTTP routing, authentication with JWTs, sessions, HEAD requests, debug pages and metrics other than the eviction counters: plumbing.
- The statistics of requests (gets, hits, puts): the identity between them that a comment promises does not hold.
- SHA-256, lz4 and JSON themselves: uninterpreted functions with the assumptions named above.
- Restarts and crashes of the server, and its temporary upload files: a server crash between rename and insert leaves an orphan file as a failed insert does. A bound on all bytes on disk does not hold, since orphans and blobs without actions are never counted or evicted.
- A GET that is interrupted between opening a file and sending it: an open file keeps its bytes, so opening and sending are one step.
- Gocached.Server.CleanRound: does not model requests between the statistics and the clean, or a clock that moves between them, because its bounds are promised for an uninterrupted round; what such requests do is in `Races`. Sums of sizes are unbounded integers, where the source has int64.
- AccessTimes.RecordedTimeLagsLessThanADay: a hit's query and bump are one step, and a due timer fires before time goes on.
- Cleaning.AgePassIsExact: no age overflows 64 bits; `AgePassFindsExactly` says until when that is so.
- DiskCrash.VisibleActionsHaveTheirOutputs: a crash stops the program, not the disk; the source calls no fsync, so power loss is not covered. Bodies deliver the content of the output ID or fail, as `PutKeepsOutputs` shows is needed.
- WindowsDisk.RewritingIsInvisible: writers that fail and remove the file are not in its runs. The exemption for fake output IDs in tests, and a failure to remove a file, are not modelled.
- HttpTier.HTTPClient.Save: the older protocol of two requests and unexpected content types are not modelled, because this server sends neither.
- HttpTier.HTTPClient.Put: the local and the remote write run one after the other, since they share only the buffer, and both are complete when a cancelled call returns.
- CacheProc.Process.HandleGet: the cache functions, if set, are those of the disk cache.
- ProcessRuns.StreamIsSplitBack: the stream is one of JSON values, not of characters; the first message with the known commands and errors of writing to standard output are not modelled.
- Errors of queries that only read (statistics, candidates): they end the call before it changes anything.
- Files and directories of other programs, directory creation, `cmd/*`, and peers, which the source only plans.
