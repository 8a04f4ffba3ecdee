# object-drive: a verified model of its stateful core

object-drive-server stores files and their metadata. This project models the parts of it that carry state,
recursion or arithmetic, and proves what they promise over all inputs and all runs.

* **Job statistics** (`load_window`, `load_laws`, `load_shares`, `load_totals`, `flushed_bytes`, `load_findings`,
  `reports_queue`, `job_reporter`, `dump_table`). A ring of time-stamped entries is fed begins and ends of jobs,
  evicts its head into running totals and shares each job's bytes out backwards. The ring is proved to refine a
  sliding window, and on the window Little's law, the conservation of bytes and just how they are shared out are
  proved for every run.
* **The object tree** (`object_rows`, `object_cascade`, `object_restore`, `object_table`, `object_laws`,
  `object_marks`, `object_ancestors`, `paging`). Deleting and expunging cascade through a forest by way of a
  paged listing that shrinks under the loop; restoring is the inverse of deleting.
* **The ciphertext cache** (`cache_machine`, `cache_laws`, `cache_uploads`, `cached_names`, `cached_bytes`,
  `recache_overlap`, `cache_store`, `cache_purge`, `shutdown`, `local_files`). A state machine over file-system
  and storage calls, with durability for every interleaving, what a cached copy promises and exactly which steps
  break it, and the cache's own routines as runs of it.
* **Reading files back** (`chunks`, `puller`, `readers`, `counter_mode`, `ranged_download`, `stream_file`). The
  chunked puller, counter mode (section 6.5 of NIST SP 800-38A, with the block cipher abstract), the arithmetic
  that moves the counter ahead, and range copies, put together into: a client that asks for a range gets that
  range of the plaintext.
* **Permissions** (`permission_list`, `permission_laws`, `permission_stored`). Normalising a permission list keeps it
  in agreement with the share of the access control marking and loses none that the database has stored.
* **The marking index** (`acm_index`, `snippet_rows`, `flat_acm`). Which markings a user may see, asked in both
  directions, the links that cache the answer, and the text that identifies a marking.

## What the proofs found

* A job that is still running when every slot of the ring has been stamped after its start can never be ended:
  the sharing loop does not stop (`LoadFindings.LongJobHangs`). It returns exactly under the condition of
  `LoadLaws.StepTheorem`.
* An end does not share its bytes out in proportion to the time: each share is taken of what the newer entries
  have left over, so the entries in between get too little and the one the job began in gets the rest. It is
  proportional exactly for jobs that ran through at most one entry besides that one, with nothing left over
  there (`LoadShares.ProportionalExactly`).
* A reused slot brings its old bytes back into the queue, so the flushed total can exceed everything ever
  transferred (`LoadFindings.FlushedBytesExceedTotal`). An end can share bytes into a slot whose entry has been
  evicted, so flushed and live bytes can fall short of it (`LoadFindings.FlushedBytesFallShort`). By how much is
  `FlushedBytes.FlushedLaw`; the bytes of all slots together stay exact.
* With more than one page of children, some that may not be deleted can make the cascade pass over others that
  may (`ObjectRows.LeftStrands`; exactly when: `ObjectRows.LeftExactly`).
* When the purge cannot remove a cached file it empties it. If a second writeback still has that file open, it
  stores the emptied file over the good copy (`CacheLaws.AcknowledgedBytesCanBeLost`; exactly when:
  `CacheLaws.TruncationExact`).
* With peer lookup on, a recache whose download fails and that no peer can serve installs whatever the download
  had written as the cached copy, also an empty one (`CachedNames.PartInstalled`).
* The two early returns of `Recache` test for an error on a call that succeeded and are never taken. Two
  recaches of one name can overlap, and then the second empties the file the first has fetched, which the first
  installs (`RecacheOverlap.OverlapCutsCopy`; exactly when: `RecacheOverlap.OverlapExactly`). Without that,
  truncations of copies and wrong answers of peers, cached copies are right
  (`CachedBytes.CachedIsAcknowledged`); that each of the three is needed is
  `RecacheOverlap.OverlapExactly`, `TruncationSpoilsExactly` and `PeersKeepCopiesExactly`.
* A puller whose read takes more than is left of its chunk returns nothing without an error for ever. From disk
  a download of a range that starts off a block boundary does so, if the file has more than a gigabyte from that
  block on and more than that, or more than there is, is asked for: the few bytes before the range leave the
  buffer and the chunk out of step (`StreamFile.GetAndStreamFile`, `Chunks.DiskSticksExactly`). Other downloads
  from disk never hang, at any size. From peers, whose reads may give any number of bytes, it can happen in any
  file with more than a gigabyte left (`Chunks.OpenedSticksExactly`); range-serving storage cuts its streams.
  A puller that starts past the end of the file is stuck at once.
* Moving the counter ahead hands a carry on by one byte only. It is exact for new counter blocks and skips below
  2^32 blocks, and in general exactly when no carry meets a byte of 255 (`CounterMode.CounterMovesExactly`).
* A range that stops just before the block it starts in is sent to the end instead of not at all
  (`RangedDownload.ShiftedRange`). A failing read's bytes are passed on as they came, and a failure that comes
  with the last bytes of a range goes unreported (`Readers.CipherReader.Read`, `Readers.CipherReader.CopyN`).
* A share that names everyone next to others does not settle in one normalisation
  (`PermissionLaws.NormalizedTwice`).
* The query from a marking to its users can link users with several values in a disallow field who may not see
  it (`AcmIndex.DirectionsAgreeExactly`).

## Model

| member | source | states |
|---|---|---|
| `LoadLaws.LittlesLaw` | performance/performance.go:201-304 | After every run from an empty queue, through any number of evictions: the load flushed with its head plus the load of the live entries equals the time completed jobs took plus the time running jobs have spent up to the newest stamp, less one tick for each begin that shares a tick with an end stamped ahead of it |
| `LoadLaws.BytesConserved` | performance/performance.go:306-329 | After every run the bytes in all slots together, live or not, are the sizes of all jobs ended so far, although every share is truncated |
| `LoadLaws.LiveEntries` | performance/performance.go:222-304 | After every run live stamps rise strictly from head to tail, populations are not negative, the newest population is the number of running jobs, the newest stamp is at most one tick ahead of the clock, and the flushed time is the head stamp less the first stamp ever |
| `LoadLaws.StepTheorem` | performance/performance.go:222-329 | No report in order panics, with or without PanicOnProblem; it returns exactly when there is nothing to share or some slot is stamped at or before the job began, and then the invariant holds again |
| `LoadWindow.RefusedExactly` | performance/performance.go:230-304 | Out of order: a report that is no interval is always refused; with PanicOnProblem so is a begin before the newest stamp, unless one tick before it or at the stamp before, and an end with no job running; without it such a begin changes nothing |
| `LoadLaws.EndHangs` | performance/performance.go:306-329 | Otherwise the sharing loop of an end never finishes |
| `LoadLaws.NeverSettles` | performance/performance.go:306-329 | With no slot stamped at or before the start, no number of rounds of the sharing loop places the whole amount |
| `LoadLaws.DistributeConserves` | performance/performance.go:306-329 | Whenever the sharing loop finishes, it has added exactly the amount to the slots, whatever truncation did |
| `LoadShares.EndShares` | performance/performance.go:306-329 | What an end does to every slot: newest first, an entry stamped after the job began takes the part its interval has of the job's time, of what the newer ones left over, rounded down; the entry the job began in takes the rest; nothing else changes but the new stamp and population |
| `LoadShares.OneWayToShare` | performance/performance.go:306-329 | There is just one way to share the bytes out like that |
| `LoadShares.NoneTakesMore` | performance/performance.go:306-329 | No entry after the one the job began in takes more than its part of the time |
| `LoadShares.OldestTakesTheRest` | performance/performance.go:306-329 | And the one it began in never takes less than its part |
| `LoadShares.ProportionalExactly` | performance/performance.go:306-329 | The bytes are shared out in proportion to the time exactly when the job ran through at most one entry besides the one it began in, and the division there leaves nothing over |
| `LoadTotals.UserTotals` | performance/performance.go:272-304 | After every run the user totals are the sums over the jobs that ended: of their times, of their sizes, and of their times multiplied by the number of jobs still running then |
| `LoadLaws.RunsKeepInv` | performance/performance.go:458-489 | Every run of reports made with a clock that does not go back, and ends of running jobs, keeps the invariant of the queue |
| `LoadFindings.LongJobHangs` | performance/performance.go:306-329 | A run in which a job that outlived the ring can never be ended |
| `FlushedBytes.FlushedLaw` | performance/performance.go:201-214 | After every run, the bytes flushed with evicted entries and those of the live ones together are the sizes of all jobs ended, plus the bytes that reused slots brought back into the queue, less the bytes that ends shared into slots no longer in use |
| `FlushedBytes.FlushedBytesExact` | performance/performance.go:201-329 | On runs in which every job that ends is covered by the queue, which a caller can check on the oldest kept entry, flushed and live bytes make up all that was transferred exactly when no push lands on a slot that holds bytes |
| `LoadFindings.FlushedBytesFallShort` | performance/performance.go:306-329 | A run in which no slot is reused with bytes in it and yet flushed and live bytes fall short of what was transferred: an end shared bytes into a slot whose entry had been evicted |
| `FlushedBytes.PushReadmitsBytes` | performance/performance.go:243-247 | A push changes the sum of flushed and live bytes by exactly what the slot it lands on still holds |
| `LoadFindings.FlushedBytesExceedTotal` | performance/performance.go:201-214 | A run from an empty queue in which ten bytes are flushed although only five were ever transferred |
| `ReportsRing.ReportsQueue.constructor` | performance/performance.go:185-197 | A new ring is the empty window |
| `ReportsRing.ReportsQueue.AdvanceHead` | performance/performance.go:201-214 | The ring after it, read as a window, has given up its oldest entry to the totals if it was full |
| `ReportsRing.ReportsQueue.PushTail` | performance/performance.go:240-248 | Moving the tail on modulo the capacity adds a newest entry that keeps the bytes of the slot reused |
| `ReportsRing.ReportsQueue.ShareBytes` | performance/performance.go:306-329 | The backward walk round the ring places the amount as the sharing of the window does, and ends |
| `ReportsRing.ReportsQueue.NoteBegin` | performance/performance.go:239-271 | The begin branches on the ring do to the window what the branches on its newest two entries say |
| `ReportsRing.ReportsQueue.NoteEnd` | performance/performance.go:272-304 | The end branches likewise, with the user totals |
| `ReportsRing.ReportsQueue.InsertStat` | performance/performance.go:222-330 | A whole report on the ring does to the window what the specification of a report does, panics included |
| `JobReporting.JobReporter.Beginning` | performance/performance.go:458-473 | A begin always succeeds and takes the history one step on |
| `JobReporting.JobReporter.Ending` | performance/performance.go:475-489 | An end that can share succeeds, adds the size and the duration to the reporter totals, shares the bytes out over the slots by the time the job ran at each and counts the job in the user totals; the bytes of all slots are the reporter total |
| `JobReporting.EndTheorem` | performance/performance.go:475-489 | Such an end keeps the invariant, counts bytes and time once, and shares the bytes out as an end does |
| `DumpTable.ThroughputByPopulation` | performance/performance.go:379-397 | The walk over the ring fills one row for each population with the time, bytes and weighted time of the intervals at that population; with a single entry the walk goes once round the whole ring |
| `DumpTable.LargestPopulation` | performance/performance.go:349-377 | The first walk finds the largest population of the entries shown |
| `DumpTable.TableAddsUp` | performance/performance.go:379-397 | The rows of the table add up to the time the entries span, to their load and to the bytes of all entries but the newest: every interval is in exactly one row |
| `DumpTable.DumpPartitions` | performance/performance.go:344-397 | So it is after every run that leaves an entry, and every population shown has a row; with a single entry the times cancel out |
| `DumpTable.RowIsOfItsPopulation` | performance/performance.go:379-397 | The weighted time of a row is its population times its time, and a population that no interval has leaves its row empty |
| `DumpTable.RowCountsEntry` | performance/performance.go:379-397 | The bytes of an entry count in the row of its population and in no other |
| `DumpTable.RowCountsTime` | performance/performance.go:379-397 | And so does the time up to the next stamp |
| `ObjectLaws.UndeleteRevertsDelete` | dao/dao.UndeleteObject.go:31-133 | Deleting a live object, whoever does it and whatever was in it, and restoring it puts every deletion flag in the table back, also those of what was in the trash before |
| `ObjectLaws.UndeleteAlwaysReverts` | dao/dao.UndeleteObject.go:31-133 | The same after any history of deletes, expunges and restores |
| `ObjectLaws.ReachedIsMarked` | dao/dao.UndeleteObject.go:64-133 | What a restore reaches through ancestor-deleted objects is exactly what the delete marked |
| `ObjectLaws.OperationsKeepSound` | dao/dao.DeleteObject.go:44-134 | Every sequence of operations keeps a forest in which expunged and ancestor-deleted objects are deleted and ancestor-deleted objects have deleted parents |
| `ObjectLaws.CascadeStaysInside` | dao/dao.DeleteObject.go:102-132 | A cascade changes nothing outside the subtree |
| `ObjectLaws.CascadeReachesAll` | dao/dao.DeleteObject.go:102-132 | If the user may delete everything live below the root, all that is reached through live objects is marked, for any number of children |
| `ObjectLaws.CascadeMarksAllAllowedExactly` | dao/dao.DeleteObject.go:106-132 | Otherwise all allowed children of a marked object are marked exactly when the paging loop passes nothing over |
| `ObjectLaws.CascadeIsExactOnOnePage` | dao/dao.DeleteObject.go:107-128 | With one page of children, exactly the allowed ones are marked |
| `ObjectMarks.RootIsMarked` | dao/dao.ExpungeObject.go:88-113 | After a delete or expunge that goes ahead the object asked for is in the trash: deleted, deleted with an ancestor exactly when the call was not explicit, expunged if it was or is now, with parent and permissions as they were |
| `ObjectMarks.OthersAreMarked` | dao/dao.DeleteObject.go:102-132 | Any other object is unchanged, or was live and is in the trash with its ancestor |
| `ObjectMarks.NoneWithoutPermission` | dao/dao.DeleteObject.go:109-128 | No object below goes unless one of its permissions is not deleted, allows deleting and is for one of the user's shares, whatever the capitals |
| `ObjectMarks.AllowedAllGo` | dao/dao.DeleteObject.go:109-128 | If there is such a permission for everything live below, all of it goes |
| `ObjectMarks.RefusedExactly` | dao/dao.ExpungeObject.go:60-82 | In a forest, a call is refused exactly for an unknown id, a stale token, or an object in the trash, not expunged yet, to be expunged under a parent that is in the trash |
| `ObjectMarks.ProceedsExactly` | dao/dao.ExpungeObject.go:60-86 | A call that is not refused changes something exactly when the object is not deleted yet, or for an expunge not expunged yet |
| `ObjectMarks.ExpungedForGood` | dao/dao.ExpungeObject.go:88-113 | What has been expunged, by itself or with an ancestor, is never live again, whatever operations follow |
| `ObjectMarks.RestoredRows` | dao/dao.UndeleteObject.go:39-118 | What a restore leaves in each row |
| `ObjectMarks.RestoreRefusedExactly` | dao/dao.UndeleteObject.go:39-57 | A restore is refused exactly for a live object under a deleted parent |
| `ObjectRows.LeftExactly` | dao/dao.DeleteObject.go:103-132 | The paging loop over the shrinking listing leaves nothing that may be deleted exactly when no page sticks before the last, or, with the first page sticking at some index of the listing, no child may be deleted that moves up from there to that page or lies beyond the page after it |
| `ObjectRows.LeftStrands` | dao/dao.DeleteObject.go:103-132 | A family of listings in which an allowed child is passed over |
| `ObjectRows.LeftNone` | dao/dao.DeleteObject.go:103-132 | When all listed children may be deleted the loop leaves none |
| `ObjectStore.ObjectTable.GetChildObjects` | dao/dao.GetChildObjects.go:32-66 | A page of a hundred live children, or as many as there are, in listing order with their rows, and the page count of the whole listing |
| `ObjectRows.ListingInOrder` | dao/dao.GetChildObjects.go:32-66 | The listing keeps the order of the objects |
| `ObjectStore.ObjectTable.CascadeListed` | dao/dao.DeleteObject.go:109-128 | One object of a page: its whole subtree goes if the user may delete it, and the page is one object further either way |
| `ObjectStore.ObjectTable.CascadePage` | dao/dao.DeleteObject.go:109-128 | One pass over a page marks the subtrees of the allowed children in it and reports on its last child |
| `ObjectStore.ObjectTable.CascadeInTransaction` | dao/dao.ExpungeObject.go:57-150 | The recursive cascade ends on every forest and leaves the table cascaded: marked objects only, each with its children worked through; otherwise the table is unchanged and the error is told |
| `ObjectStore.ObjectTable.CascadeChildren` | dao/dao.ExpungeObject.go:114-147 | The paging loop leaves of the listing what the specification of the loop says |
| `ObjectStore.ObjectTable.DeleteOrExpungeObject` | dao/dao.DeleteObject.go:27-42 | The transaction as called: cascaded, with the object asked for in the trash and expunged if that was asked, or nothing changed |
| `ObjectStore.ObjectTable.UndeleteObject` | dao/dao.UndeleteObject.go:31-62 | For any object: the root is live again and everything below it that is reached through ancestor-deleted, unexpunged objects is unmarked, or the trigger refuses it; the flags stay sound for the objects the handler lets through |
| `ObjectStore.ObjectTable.UndeleteAncestorChildren` | dao/dao.UndeleteObject.go:64-133 | The two loops and the recursion unmark exactly what is below |
| `ObjectAncestors.CheckMatchesChain` | dao/dao.Logic.go:27-44 | The check says yes exactly when the object is in the chain of the parents of the target |
| `ObjectAncestors.GetParents` | dao/dao.GetParents.go:46-68 | The loop gives the chain from a root to the immediate parent, each the parent of the next |
| `ObjectAncestors.MoveLeavesForestExactly` | server/moveObject.go:84-98 | A move leaves the table without a cycle exactly when both guards let it through |
| `ObjectAncestors.MoveKeepsForest` | server/moveObject.go:86-98 | With depths for the table after the move |
| `ObjectAncestors.MoveOntoItself` | server/moveObject.go:86-88 | Without the first guard the ancestor check alone would let an object be moved into itself |
| `ObjectAncestors.MovesKeepForest` | server/moveObject.go:84-98 | Any number of moves that are let through leave a forest of the same objects, each below the target of its last move and otherwise as it was |
| `Paging.GetPageCount` | dao/paging.go:41-52 | The least number of pages that has room for all rows |
| `CacheLaws.Durability` | ciphertext/cache.go:230-376 | Under every interleaving of uploads, writebacks, drain visits, recaches, purges and crashes, every acknowledged upload with any bytes is in its uploaded file or in permanent storage with exactly those bytes, if no truncation hits a file a writeback still has to store |
| `CacheUploads.WrittenIsSafe` | server/uploadDownload.go:261-289 | In every such run an upload is acknowledged with just the pieces written to it, in order, and if that is anything it is in its uploaded file or in permanent storage |
| `CacheUploads.DiscardOrphans` | server/uploadDownload.go:20-40 | An upload whose request fails after all waits no longer; its bytes are gone or under the orphaned name |
| `CacheUploads.CrashMakesTruncationSafe` | ciphertext/cachepurge.go:321-337 | After a crash nothing is in flight and no truncation can harm an acknowledged upload |
| `CacheLaws.TruncationExact` | ciphertext/cachepurge.go:321-337 | A truncation leaves all acknowledged bytes safe through whatever guarded steps follow exactly when no writeback in flight still has to store the file |
| `CacheLaws.TruncationLoses` | ciphertext/cachepurge.go:321-337 | If one does, its next step overwrites the good copy |
| `CacheLaws.AcknowledgedBytesCanBeLost` | ciphertext/cachepurge.go:321-337 | For any upload there is a run from an empty cache that loses it that way |
| `CachedNames.CachedIsStored` | server/getObjectStream.go:405-427 | Recaches beginning as the server begins them, when its puller has found no local file, and upload names being new, a cached name of an acknowledged upload always has its bytes in permanent storage, whatever peers answer |
| `CachedNames.CachedIsStoredWithoutPeers` | ciphertext/cache.go:117-147 | With peer lookup off that is so whoever recaches what, also the check of the canary, which does not look for the file first |
| `CachedNames.PeersKeepCachedStoredExactly` | ciphertext/cache.go:481-552 | For a caller that, like the canary check, recaches a name without looking: the rest of a recache after the peers have answered keeps every cached name stored exactly when it installs nothing, there is nothing that would have to be stored, or the key is in permanent storage |
| `CachedNames.AfterPeersIs` | ciphertext/cache.go:481-552 | It leaves the peer's bytes under the cached name, or what the failed download left in the caching file, and no other cached name changes |
| `CachedNames.PeerMissCachesPart` | ciphertext/cache.go:481-552 | In every state, a recache whose download is cut off and that no peer can serve ends with whatever part had been written as the cached copy: the lookup replaces the error by none |
| `CachedNames.PartInstalled` | ciphertext/cache.go:481-552 | A run from an empty cache after which any stored upload has any bytes as its cached copy |
| `CachedNames.CachedNotStored` | ciphertext/cache.go:117-147 | For such a caller, a run from an empty cache after which a cached name is not in permanent storage at all |
| `CachedBytes.CachedIsAcknowledged` | ciphertext/cache.go:304-552 | Every cached copy holds just the bytes its upload was acknowledged with, in every run of orderly steps: upload names are new, no copy whose bytes matter is emptied, a recache begins or tries again while no other of the name is downloading or ready, and a peer gives right bytes and not into a file another recache is at work on |
| `RecacheOverlap.OverlapExactly` | ciphertext/cache.go:403-445 | From any state such runs reach: beginning a recache of a stored name, or trying again, can lead to a wrong copy, without peers, truncations or further recaches, exactly when another recache of the name is downloading or ready |
| `RecacheOverlap.OverlapInstallsAnything` | ciphertext/cache.go:432-552 | Whenever one is, the run that leaves any bytes at all as the cached copy |
| `RecacheOverlap.PeersKeepCopiesExactly` | ciphertext/cache.go:481-552 | Taking an answer from the peers can lead to a wrong copy exactly when what it installs is not what was acknowledged, or another recache is at work on the file |
| `RecacheOverlap.TruncationSpoilsExactly` | ciphertext/cachepurge.go:321-337 | A truncation can lead to a wrong copy exactly when the bytes matter and it empties an installed copy, or the file a recache is about to install |
| `RecacheOverlap.OverlapCutsCopy` | ciphertext/cache.go:403-445 | A run from an empty cache, without peers or truncations, in which two overlapping recaches leave any bytes at all as the cached copy of any upload |
| `CachedBytes.StepKeepsAllRight` | ciphertext/cache.go:304-552 | Each orderly step keeps what is behind this: the files of recaches are apart, one download of a name at a time writes its own, and copies that are ready or installed hold the bytes of the upload |
| `LocalFiles.SourcesAgree` | ciphertext/ciphertext.go:95-150 | After every orderly run the uploaded file, the cached copy and permanent storage all have the acknowledged bytes, so it is one file a puller reads |
| `LocalFiles.OpenLocalFile` | ciphertext/ciphertext.go:95-150 | The local handle that is handed out is on the acknowledged bytes from the position asked for |
| `CacheLaws.StepKeepsInv` | ciphertext/cache.go:304-552 | Each of the steps keeps the invariant behind this |
| `CacheLaws.RunsKeepInv` | ciphertext/cache.go:304-552 | And so does every run |
| `CacheLaws.NothingWaiting` | ciphertext/cache.go:589-610 | In a state with no non-empty uploaded file everything acknowledged is in permanent storage |
| `CacheStore.Cache.Writeback` | ciphertext/cache.go:304-376 | Alone, a writeback stores the file and renames it, or fails and leaves the directory as it was; it is a run of the machine |
| `CacheStore.Cache.Drain` | ciphertext/cache.go:230-286 | A walk leaves uploaded only what was so before and is too young or fails; with neither, all acknowledged bytes end in permanent storage |
| `CacheStore.Cache.Recache` | ciphertext/cache.go:432-552 | A recache succeeds exactly when the first download or a retry brings the file or the peers are asked, leaves just the bytes so come by under the cached name, which without an answer from a peer are those of the download cut off, and never leaves a caching file or touches another name |
| `CacheStore.RecacheGives` | ciphertext/cache.go:481-552 | It fails exactly when peer lookup is off and nothing arrives; what is installed is what is stored, else what the peer gave, else what the failed download left |
| `CacheStore.Cache.Retry` | ciphertext/cache.go:508-533 | At most four more downloads, until one succeeds |
| `CachePurge.ShouldEvict` | ciphertext/cachepurge.go:224-239 | The decision with its integer division is the one stated by comparing size and squared age |
| `CachePurge.FilePurgeVisit` | ciphertext/cachepurge.go:177-319 | A visit removes or empties one file or leaves it, and counts what it removed; it is a run of the machine |
| `CachePurge.CachePurgeIteration` | ciphertext/cachepurge.go:83-110 | A sweep leaves what visiting the listing in order leaves, and its deleted count is the number of names gone |
| `CachePurge.SweepOnlyTakesNames` | ciphertext/cachepurge.go:177-319 | A sweep touches no uploaded file and no permanent bytes, and only takes names away |
| `CachePurge.SweepTakesExactly` | ciphertext/cachepurge.go:177-319 | A sweep takes a name exactly when it can be removed and is due when the sweep comes to it: an orphan, a part left behind for a week, or a cached file old enough, with a reason to make room, that is small for its age, beyond the limit or unlucky |
| `CachePurge.SweepEmpties` | ciphertext/cachepurge.go:321-337 | A file that is due and cannot be removed is empty afterwards |
| `CachePurge.FileLimitHolds` | ciphertext/cachepurge.go:224-239 | With a file limit, all cached files old enough and removals succeeding, at most that many cached files stay |
| `CachePurge.RoomEnoughKeepsCached` | ciphertext/cachepurge.go:224-239 | Below the low mark and without a limit every cached name stays |
| `Shutdown.CountUploaded` | ciphertext/cache.go:589-610 | The count is the number of uploaded files with any bytes |
| `Shutdown.PrepareForTermination` | autoscale/signals.go:139-166 | It ends within thirty tries and returns 0 exactly when some check in time found every cache quiet |
| `Shutdown.QuietMeansStored` | autoscale/signals.go:139-166 | At such a check every acknowledged byte of every cache was in permanent storage |
| `Pulling.UseLocalFile` | ciphertext/ciphertext.go:95-150 | A handle on the uploaded file or else the cached one, at the position asked for, exactly when there is either |
| `Chunks.ChosenExactly` | ciphertext/puller.go:133-183 | Disk serves whenever the file is there, a peer only if peers may be asked or there is no storage, and nothing exactly when none of the three has it |
| `Pulling.Puller.GetFileHandle` | ciphertext/puller.go:133-183 | Which source serves the request: disk, then a peer if one may be asked, then storage; none exactly when there is no such source; the stream is the file from the position on, cut at the end of the range only by range-serving storage |
| `Pulling.Puller.More` | ciphertext/puller.go:185-229 | End of file exactly at the total length; otherwise a failure exactly when no source is there, which changes nothing, or a fresh stream with the chunk that source gives |
| `Pulling.Puller.Read` | ciphertext/puller.go:232-244 | The bytes returned are those of the file at the index, whatever served earlier chunks; how many, what is left of the chunk, and the error are told by what the stream gives and, once the chunk is used up, by the source of the next |
| `Chunks.NextReadIsSafeExactly` | ciphertext/puller.go:232-244 | The next read cannot leave the puller stuck exactly when neither the buffer nor the rest of the stream is longer than what remains of the chunk |
| `Chunks.ChunkSticksExactly` | ciphertext/puller.go:232-244 | Some pattern of reads gets stuck in a chunk exactly when its stream has more bytes than remain of it |
| `Chunks.OpenedSticksExactly` | ciphertext/puller.go:185-244 | Inside a file, if reads may give any number of bytes, that is when more than a gigabyte is left and disk or a peer serves it, or more than the chunk size and storage that does not cut its stream |
| `Chunks.FullReadsStickExactly` | ciphertext/puller.go:232-244 | Full reads, as of a file on disk, get stuck in a chunk exactly when the buffer does not divide it and its stream has more |
| `Chunks.DiskSticksExactly` | ciphertext/puller.go:200-244 | So from disk a download in buffers of 32 KiB gets stuck exactly when it first passes over some bytes of a block and the file has more than a gigabyte from that block on |
| `Chunks.LongStreamCanStick` | ciphertext/puller.go:232-244 | The reads that do it, none of them failing |
| `Pulling.Puller.Open` | ciphertext/puller.go:64-131 | The attempts end: with end of file exactly for an empty remainder, with a failure exactly when none of them found a source, and else with the chunk of the one that did |
| `Pulling.Puller.ReadThrough` | ciphertext/puller.go:232-244 | The reads of a download of so many bytes, or all, after some that are passed over, for any size and any mix of sources: what has come is the file from the first index on, all that is asked for or to the end unless a read fails; not stuck if every chunk is fine for it, stuck if full reads doom it, and without a failing read if every chunk is served |
| `CounterMode.CryptTwice` | crypto/crypto.go:54-68 | Enciphering twice from the same start gives the data back, for every block cipher |
| `CounterMode.CryptIsCounterMode` | crypto/crypto.go:156-160 | What comes out is the data in counter mode and nothing else: byte by byte combined with the encryption of the counter block, counted on from the first one modulo 2^128 |
| `CounterMode.SameOutputExactly` | crypto/crypto.go:150-160 | Two keys or first blocks give the same for some data exactly when they agree on every byte of every counter the data reaches |
| `CounterMode.CryptInPieces` | crypto/crypto.go:54-68 | Pieces of any size are enciphered as the whole is |
| `CounterMode.CryptAhead` | server/getObjectStream.go:206-225 | A counter some blocks ahead gives the key stream from that block on |
| `CounterMode.CounterMovesExactly` | server/getObjectStream.go:214-225 | The byte-wise addition gets to the right counter exactly when no carry meets a byte that is 255 |
| `CounterMode.AddBytesAdds` | server/getObjectStream.go:214-225 | It falls short by exactly what the lost carries were worth |
| `CounterMode.FreshCounterMoves` | crypto/crypto.go:123-136 | No carry is lost below 2^32 blocks when the lowest four bytes are zero |
| `CounterMode.CarryIsLost` | server/getObjectStream.go:220-222 | A family of counters and skips for which a carry is lost |
| `Readers.CipherReader.XorKeyStream` | crypto/crypto.go:64-66 | The buffer is enciphered in place and the position moves on |
| `Readers.CipherReader.Read` | crypto/crypto.go:54-68 | What comes out and what is left together are what was left, enciphered; bytes that come with a failure are passed on as they came |
| `Readers.CipherReader.Copy` | crypto/crypto.go:174-176 | For every pattern of reads, what is written, where the stream is left and how it ends; it is everything left, enciphered, and fails exactly when one of the reads made fails |
| `Readers.CipherReader.CopyN` | crypto/crypto.go:179-190 | The same for a number of bytes: all of them or an early end of file when no read fails; a failure with the last bytes goes unreported, any other is reported |
| `Readers.CipherReader.RangeCopy` | crypto/crypto.go:172-190 | What the copy of a range has written, where it leaves the stream and how it ends, for every pattern of reads, also failing ones |
| `Readers.RangeCopiedAll` | crypto/crypto.go:172-190 | When no read fails that is exactly the range of the enciphered stream |
| `Readers.RangedMeans` | crypto/crypto.go:172-190 | A range is the bytes from its start to its stop, both included, or to the end; past the end it is nothing, and short of its stop what there is, with an early end of file |
| `Readers.FailureShowsRaw` | crypto/crypto.go:172-190 | When a read of the range fails it is the range up to that read, enciphered, and then the bytes of that read as they came, none dropped; the failure is told unless they complete the range |
| `Readers.DoCipherByReaderWriter` | crypto/crypto.go:144-168 | What is written and how it ends, read by read; the range of the enciphered source when no read fails, and a copy of everything fails exactly when a read does and else is the source in counter mode |
| `Readers.UploadThenDownload` | server/uploadDownload.go:272-273 | An upload stores the plaintext in counter mode and a whole download of that gives the plaintext back, through any short reads, and both succeed whenever no read fails |
| `RangedDownload.AdjustIV` | server/getObjectStream.go:201-233 | The new block is the old one with the skipped blocks added byte by byte, the old block is kept, and the range is shifted |
| `RangedDownload.AddBlocks` | server/getObjectStream.go:215-225 | The loop in place on the block is that addition |
| `RangedDownload.CreateIV` | crypto/crypto.go:123-136 | A new block ends in four zero bytes |
| `RangedDownload.ShiftedRange` | server/getObjectStream.go:226-231 | The shifted range of the blocks fetched is the range of the whole exactly unless the range stops just before the block it starts in |
| `RangedDownload.DownloadIsRange` | server/getObjectStream.go:303-444 | With the counter at the right block, deciphering from the range's first block and copying the shifted range gives the range of the plaintext, under exactly that condition |
| `RangedDownload.EveryRangeDownloads` | server/getObjectStream.go:303-444 | For files stored under a new block, every proper range that starts below 64 GiB |
| `StreamFile.GetAndStreamFile` | server/getObjectStream.go:303-444 | Puller, counter, cipher and range copy together, for any size and any mix of sources, pulling only what the range asks for: a download that finds a source, meets no failing read and does not hang sends exactly the range of the plaintext; it finds one and meets none when every chunk is served; it does not hang when every chunk is fine for what is asked, and from disk it hangs exactly when the range starts off a block boundary and asks for more than a gigabyte, or past the end, of a file that has more than a gigabyte from that block on |
| `StreamFile.SentIsWanted` | server/getObjectStream.go:201-233 | For a file stored under a new block, that is the whole file or the range asked for, for every range in it that starts below 64 GiB |
| `PermissionList.InjectPermissionsIntoACM` | auth/aacoff.go:210-234 | The loop gives no share once everyone reads, and else the grantees of all live read permissions |
| `PermissionList.Adjust` | auth/aacoff.go:323-342 | The descending loop that retires and appends does what the specification of the pass says; its test for grantees not in the share never succeeds |
| `PermissionList.PruneList` | auth/aacoff.go:344-358 | The descending loop that splices in place removes or deletes just what grants nothing |
| `PermissionList.KeepPermissions` | auth/aacoff.go:297-312 | Given permissions stay, reading by everyone given up when the marking names others |
| `PermissionList.NormalizePermissionsFromACM` | auth/aacoff.go:275-367 | The list after the three passes, and the share it leads to |
| `PermissionLaws.NormalizedForEveryone` | auth/aacoff.go:275-367 | With no share: only everyone reads; other rights are those given and the owner's |
| `PermissionLaws.NormalizedForShare` | auth/aacoff.go:275-367 | With a share: who has which right afterwards, in both directions |
| `PermissionLaws.EveryoneAgrees` | auth/aacoff.go:360-367 | With no share the list lets just everyone read and the marking still has no share |
| `PermissionLaws.ShareAgrees` | auth/aacoff.go:360-367 | With a share not naming everyone, the marking names exactly the live readers: the share, the owner and whoever was given read access |
| `PermissionLaws.OwnerKeepsRights` | auth/aacoff.go:318-321 | The owner always holds create, update, delete and share, and read unless everyone reads |
| `PermissionLaws.EveryLivePermissionGrants` | auth/aacoff.go:343-358 | No live permission grants nothing |
| `PermissionLaws.NothingRevived` | auth/aacoff.go:301-312 | A stored permission is live afterwards only if it was live before |
| `PermissionStored.StoredFates` | auth/aacoff.go:297-358 | The stored permissions of the list afterwards are those given, in order, changed in nothing but the mark for deletion: set for those reading for everyone under a share, for others that read without one, for those granting nothing and those that had it; on an object being created those granting nothing are left out |
| `PermissionStored.NoneLost` | dao/dao.UpdateObject.go:276-285 | So once an object exists no stored permission that the database has to delete is missing from the list |
| `PermissionLaws.NormalizedTwice` | auth/aacoff.go:275-367 | Normalising the outcome again changes nobody's rights and not the share, exactly when the share did not name everyone |
| `PermissionLaws.ConsolidateChangingPermissions` | server/createObject.go:530-552 | The merging loop does what its specification says |
| `PermissionLaws.ConsolidatedGrants` | server/createObject.go:530-552 | Consolidating changes nobody's rights |
| `PermissionLaws.ConsolidatedOnce` | server/createObject.go:530-552 | It leaves each grantee at most one live permission still to be stored |
| `PermissionLaws.ConsolidatedKeepsStored` | server/createObject.go:530-552 | Stored permissions stay as they were |
| `PermissionLaws.ReduceGrantsLeavesNone` | server/addObjectShare.go:207-240 | A new permission keeps exactly the rights its grantee has not got yet, and whether any are left is told |
| `PermissionLaws.ReducedSuffices` | server/addObjectShare.go:207-240 | Adding the reduced permission gives just what the whole one would have |
| `AcmIndex.BuildUsersValidForACM` | dao/dao.UserAOCache.go:637-701 | The clauses built, with those of the last key added again for keys that come back, are as a set one clause for each key |
| `AcmIndex.SelectedIsAdmitted` | dao/dao.UserAOCache.go:637-701 | So the query asks one condition for each key of the marking |
| `AcmIndex.AcmAdmitsExactly` | dao/dao.UserAOCache.go:637-701 | The marking's side asks for a field of the user for every key, and a fitting answer of it |
| `AcmIndex.ForwardImpliesReverse` | dao/dao.UserAOCache.go:483-525 | Whoever may see a marking by the user's query is found by the marking's query, if their fields cover its keys |
| `AcmIndex.ReverseImpliesForward` | dao/dao.UserAOCache.go:637-701 | The converse, when no disallow field has several values |
| `AcmIndex.DirectionsAgreeExactly` | dao/dao.UserAOCache.go:637-701 | The two queries agree on every marking whose keys a user covers exactly when no disallow field of the user has several values |
| `AcmIndex.WideDisallowDiffers` | dao/dao.UserAOCache.go:676-695 | For a disallow field with two values, a marking on which they differ |
| `AcmIndex.Index.DeleteInvalidUserACMs` | dao/dao.UserAOCache.go:545-565 | Of the user's links just those on the list stay, nobody else's change |
| `AcmIndex.Index.InsertUserACMList` | dao/dao.UserAOCache.go:567-586 | The links on the list to existing markings are added |
| `AcmIndex.Index.RebuildUserACMCache` | dao/dao.UserAOCache.go:328-365 | Whatever links a user had, afterwards they are those of the markings looked at that the user's snippets admit; nobody else's change |
| `AcmIndex.MaySeeExactly` | dao/dao.UserAOCache.go:483-525 | A marking is admitted exactly if no disallow field names a value it has under its name, or a blank one, and each allowed field names one of the values it has there, or a blank one is there, or none |
| `AcmIndex.RebuildsMakeLinksRight` | dao/dao.UserAOCache.go:328-365 | Whatever links there were, once every user has been rebuilt over all markings, in any order, every user is linked to exactly the markings the user may see |
| `AcmIndex.Index.AssociateUsersToNewACM` | dao/dao.UserAOCache.go:370-416 | A new marking is linked to exactly the users its query selects |
| `AcmIndex.NewMarkingKeepsLinksRight` | dao/dao.UserAOCache.go:370-416 | Links that were right for all users stay right exactly when the new marking misjudges none: no user who may see it lacks a field for one of its keys, and none whose every field it names answers has a disallow field with one value on it and another off it |
| `AcmIndex.AgreeUnlessMisjudged` | dao/dao.UserAOCache.go:483-701 | On any marking the two queries agree about a user exactly then |
| `SnippetRows.ConvertCacheSnippets` | dao/dao.UserAOCache.go:461-481 | The grouping loop does what its specification says |
| `SnippetRows.ConvertedIsGrouped` | dao/dao.UserAOCache.go:461-481 | Rows whose keys come together give one field for each key, with the treatment and values of its rows |
| `SnippetRows.SnippetsComeBack` | dao/dao.UserAOCache.go:120-149 | Every field read back from the stored rows is one that was stored, with its treatment and its non-empty values |
| `SnippetRows.NoSnippetLost` | dao/dao.UserAOCache.go:120-149 | And every field stored is read back |
| `SnippetRows.RowsAnswerAlike` | dao/dao.UserAOCache.go:448-459 | The stored rows answer whether a user may see a marking just as the snippets do |
| `FlatAcm.GetOverallFlattenedACM` | dao/dao.ObjectAcm.go:22-69 | The loops give the sorted names that count, each with its sorted values, joined |
| `FlatAcm.ArrayOfValues` | dao/dao.ObjectAcm.go:45-60 | The array holds the non-empty values first and is padded with empty strings |
| `FlatAcm.TextIsCanonical` | dao/dao.ObjectAcm.go:22-69 | The text depends neither on the order of fields or values nor on other entries |
| `FlatAcm.TextIsFaithful` | dao/dao.ObjectAcm.go:80-85 | For names and values without the dividing characters, two markings have equal texts exactly when they have the same values, as often, in any order, a lone empty value being like none, under dissem_countries and every name that begins with f_ |
| `FlatAcm.CountriesTell` | dao/dao.ObjectAcm.go:20 | Markings that differ in the countries alone have different texts |
| `FlatAcm.TextReads` | dao/dao.ObjectAcm.go:22-69 | The text itself, of a marking with countries, one field of two values and a name that does not count |
| `FlatAcm.AtMostExactly` | dao/dao.ObjectAcm.go:31 | Names and values are ordered by the first character in which they differ, a prefix first |

## Left out

- CacheLaws.Durability: assumes that no truncation hits a file a writeback still has to store, because without that it is false; TruncationExact says when, and AcknowledgedBytesCanBeLost gives the run.
- LoadLaws.LittlesLaw: does not model 64-bit wrap-around of times, bytes or populations, and takes a ring of at least three slots and a positive clock that does not go back.
- StreamFile.GetAndStreamFile: the reads of a download are made first and copied out then, read by read with the same limits, so what a client of a download that hangs has been sent by then is not said.
- DumpTable.ThroughputByPopulation: a dump of an empty queue is not modelled; it prints no table.
- CachedBytes.CachedIsAcknowledged: takes orderly steps only, because it is false otherwise; RecacheOverlap says exactly when a step that is not orderly can lead to a wrong copy of an acknowledged and stored name.
- Negative job sizes: callers pass lengths; with PanicOnProblem off a negative size would be shared out like any other.
- The object table is a map from ids to flags, parent, change count and permissions. The order of a listing is a fixed order of ids: the source orders by modification date and leaves ties open.
- Delete and expunge differ in what they mark and in which objects they take as done; one method with a kind models both. Field checks before the database is asked are not modelled.
- Permanent storage takes an upload or not as a whole, for one key at a time, and is always set; running without it and the retry inside a rate-limited download are not modelled. A peer's copy that breaks off is not modelled.
- A name is uploaded once: names are random. Chunk sizes are multiples of 32 KiB: they are configured in megabytes.
- Peers are one more source of the same bytes; finding them and the connections to them are not modelled.
- Readers give at least one byte or say why not; a read from disk gives all that is asked for while the file has it; a writer that fails is not modelled. The standard library's Copy and CopyN are modelled with one buffer of 32 KiB.
- The block cipher, hashes and keys: the cipher is any function of counter and position, hashes and MACs are absent.
- Parsing the range header, HTTP status codes and headers.
- Grantees go by their flattened names and a share is a set of them: JSON, lower-casing and the fields that name users and groups are not modelled, nor are errors of parsing.
- A user without any snippets: the marking's query never selects one, and the insertion of no rows is no statement.
- SQL is modelled by the rows it selects, with equality of names exact: collation and escaping are not modelled, and each transaction is one step.
- The retries after a new marking finds no user, and of statements after a deadlock.
- The age of cache records, random delays and waiting: times are given as inputs.
- Field-by-field mapping, audit events, templates, search, the client library and configuration: they keep no state and take no decisions that the parts above depend on.
