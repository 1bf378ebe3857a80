# VideoManager core, modelled in Dafny

VideoManager is a self-hosted video library. A FastAPI backend keeps a SQLite catalog of
the video files found under a configured root directory. It also keeps tags grouped into
categories, a key/value settings table, and a thumbnail directory. It streams files to the
browser with HTTP range requests. An older Flask application (`app.py`) and some browser
scripts (`static/js/*.js`, `frontend/src/composables/useVideoList.js`) manage tags, search
and paging on the client side.

This project models that core and proves properties of the model:

- **Library reconciler** (`Reconciler`, `ScanState`, `Probe`, `Records`). This is the
  background scan. It prunes records whose file is gone or whose path fails the root
  prefix test, and removes their thumbnails. It discovers files by suffix and skips files
  whose record is current by mtime. It creates or refreshes records only for a positive
  probed duration, and processes files in batches of 10 with one commit per batch. Then it
  runs the orphan-thumbnail cleanup. Throughout, it drives the global scan-status
  dictionary.
- **Thumbnails** (`Thumbnails`). Covers the name formula `stem_md5(path)[:8]_thumb.jpg`,
  generation, upload, and the orphan collector with its protected-name set.
- **Per-record updates and queries** (`RecordUpdates`, `CatalogQuery`):
  - flag updates, watch progress and its auto-computation, clearing progress;
  - delete with bounded-retry file removal;
  - the filter, sort, seeded-shuffle and page query.
- **HTTP layer of the videos router** (`Streaming`, `VideosApi`):
  - range parsing (the `bytes=start-end` subset of RFC 7233, section 2.1);
  - size tiers, response headers (sections 4.1, 4.2 and 4.4 of RFC 7233);
  - the streaming loop with its congestion window, inactivity timeout and retry budget;
  - list paging and the tag-id parameter;
  - rename with retries, and the delete endpoint.
- **Tag, category and settings services** (`TagRecords`, `TagService`,
  `TagCategoryService`, `SettingService`):
  - get-or-create tags;
  - link, unlink and replace-all on the video/tag relation;
  - grouping by category;
  - category create, partial update and delete with un-categorise;
  - the root-directory upsert.
- **Legacy Flask app** (`LegacyApp`). Covers the directory index, tag replacement on
  update, video deletion, and the sweep that keeps no unused tag.
- **Browser helpers** (`JsText`, `TagScripts`, `SearchScript`, `VideoList`):
  - JavaScript `trim`, `parseInt` and `Number`;
  - comma tag-string dedupe, and the name and tag match predicates;
  - option-list sync and paged tag loading;
  - the pagination window and search-state restore;
  - list request parameters, route-query rules, and delete with page fallback.

Code that changes state in place is modelled as classes whose methods change their
fields, each with a `modifies` clause. These are the catalog and disk in `Records.Catalog`
and `Records.Disk`, the scan status, the tag tables, the settings table, the Flask
library, the tag pages, the search page and the list view. Pure decisions are functions
with lemmas. The loops of the source are methods with invariants. Each of these methods is
proved against a specification function, and the properties are proved about that
function.

The outside world is passed in as parameters:

| Outside behaviour | Parameter |
|---|---|
| ffprobe result | a `ProbeResult` value |
| md5 | an uninterpreted `string -> string` |
| `abspath` and `relpath` | a `PathOps` record of functions |
| whether a removal, a rename, a commit or a cover grab succeeds | boolean oracles |
| the clock | an `int` |
| each measured throughput change in the stream | a `Trend` (drop, rise or hold) |
| each read outcome | a `ReadEvent` |
| pages fetched by the browser scripts | a `fetch` function |

Some behaviours of the code that the model keeps, stated plainly:

- A file whose probed duration is not positive gets no record
  (`backend/app/services/video_service.py:144-146`).
- The congestion window never shrinks below the 512 KiB base chunk, whatever the size
  tier (`backend/app/api/videos.py:166`, `:240`).
- Scan progress falls from 1.0 back to 0.95 before the thumbnail cleanup, so it is not
  monotone (`backend/app/services/video_service.py:247`).
- The stream's retry counter is set once per stream and never reset, so a stream has three
  retries in total (`backend/app/api/videos.py:178`, `:202`, `:260-261`).
- The duration filter tests `duration <= short * 60`, so a −1 duration counts as short
  (`backend/app/services/video_service.py:541-543`).
- The scan counts files in local variables; the status counters `total_files` and
  `processed_files` keep their reset values (`backend/app/services/video_service.py:210-214`,
  `backend/app/core/scan_status.py:8-9`).
- Content-Range is sent on 200 responses too (`backend/app/api/videos.py:298`, `:310`).
- `backend/app/models/video.py:7-22` declares no columns for `thumbnail_generated` or the
  four watch-progress fields, which the service writes
  (`backend/app/services/video_service.py:169`, `:399`, `:650-664`, `:728-731`). As written,
  the scan adds no new video and the progress writes store nothing (see "## Findings").
  The record type has these columns, and the members modelled on it describe the code as
  its service evidently intends. Each member whose promise the code as written does not
  keep has a line under "## Left out" starting with its name.

## Model

| member | source | states |
|---|---|---|
| Probe.FirstVideoStream | backend/app/services/video_service.py:28-30 | -1 exactly when no stream has codec type video; otherwise the index of the first video stream |
| Probe.Duration | backend/app/services/video_service.py:16-45 | a positive format duration wins; otherwise a positive duration of the first video stream; otherwise, or on any probe failure, the sentinel -1; the result is -1 or positive |
| Probe.PositiveDurationHasSource | backend/app/services/video_service.py:21-34 | a positive duration was probed and comes from the format or from the first video stream |
| Records.SizeMiB | backend/app/services/video_service.py:143-154 | the stored size is within 0.005 of bytes / 1048576 and never negative (round to 2 places) |
| Records.NextId | backend/app/models/video.py:10 | a fresh autoincrement id is positive and above every id in the table |
| Records.SameKeysValid | backend/app/models/video.py:10-12 | rewriting a row that keeps its id and path keeps ids ascending and paths unique |
| Records.UpdateKeepsValid | backend/app/models/video.py:10-12 | a row update to a path no other row holds keeps the table valid |
| Records.AppendKeepsValid | backend/app/models/video.py:10-12 | appending a row with a fresh larger id and an unused path keeps the table valid |
| Records.RemoveKeepsValid | backend/app/models/video.py:10-12 | deleting any row keeps the table valid |
| Records.IndexOfId | backend/app/services/video_service.py:344 | -1 exactly when no row has the id; otherwise the first row with that id |
| Records.IndexOfPath | backend/app/services/video_service.py:130-133 | the first row whose filepath is the relative or the absolute path, -1 exactly when there is none |
| Records.Catalog.constructor | backend/app/models/video.py:7-22 | an empty, valid catalog with no links |
| Records.Catalog.SetRow | backend/app/services/video_service.py:148-160 | replaces one row keeping its id and path; the table stays valid and the links are untouched |
| Records.Catalog.DeleteRow | backend/app/services/video_service.py:115 | removes one row and every link of that video; the table stays valid |
| Records.Disk.constructor | backend/app/services/video_service.py:412-416 | an empty filesystem without a thumbnail directory |
| Records.ThumbDirEntry | backend/app/services/video_service.py:396-398 | a stored path names a thumbnail file exactly when it is `thumbnails/` followed by a plain non-empty name |
| Reconciler.EndingInTsQualifies | backend/app/services/video_service.py:124 | because the suffix tuple holds the dotless `ts`, every name whose lower-case form ends in "ts" is taken as a video |
| Reconciler.AbsPath | backend/app/services/video_service.py:48-52 | an absolute path is returned unchanged |
| Reconciler.SurvivingMembers | backend/app/services/video_service.py:101-116 | the pruned table holds exactly the records whose resolved path exists and string-starts with the root, and is no longer than before |
| Reconciler.SiblingDirectoryPassesPrefix | backend/app/services/video_service.py:103 | the plain string prefix test keeps `/media2/a.mp4` under root `/media` |
| Reconciler.DoomedMembers | backend/app/services/video_service.py:101-116 | the ids deleted and the thumbnail files targeted are exactly those of the records that fail the test |
| Reconciler.SurvivingValid | backend/app/services/video_service.py:101-119 | pruning keeps ids ascending and paths unique |
| Reconciler.RemovedBy | backend/app/services/video_service.py:105-113 | a thumbnail is removed exactly when it exists, belongs to a pruned record, and its removal succeeds |
| Reconciler.RemoveEntry | backend/app/services/video_service.py:107-111 | one removal attempt keeps the directory and the cleaned count in step with the removed set |
| Reconciler.PruneRow | backend/app/services/video_service.py:101-116 | one loop iteration extends the kept rows, the deleted ids, the count and the thumbnail removals by one record |
| Reconciler.PruneLoop | backend/app/services/video_service.py:101-116 | the loop keeps exactly the surviving records, counts the deleted ones, and removes exactly the removable doomed thumbnails |
| Reconciler.PruneRecords | backend/app/services/video_service.py:96-119 | the catalog becomes the surviving records and drops the deleted videos' links; only thumbnails of deleted records are removed; video files are untouched |
| Reconciler.Rel | backend/app/services/video_service.py:205 | the root-relative path is non-empty and re-joined to the root gives the file's path |
| Reconciler.Discovered | backend/app/services/video_service.py:201-206 | a path is discovered exactly when it is a file below the root whose name passes the suffix test |
| Reconciler.Discover | backend/app/services/video_service.py:199-206 | the walk lists every discovered file exactly once |
| Reconciler.ProcessOne | backend/app/services/video_service.py:125-173 | processing one file adds at most one row |
| Reconciler.ProcessOneValid | backend/app/services/video_service.py:125-173 | processing one file keeps ids ascending and paths unique |
| Reconciler.CurrentRecordSkipped | backend/app/services/video_service.py:136-140 | a file whose record was updated at or after its mtime leaves the table unchanged whatever the probe says |
| Reconciler.NoDurationNoWrite | backend/app/services/video_service.py:144-146 | a probe result of -1 or 0 writes nothing, so a failed probe gives no record |
| Reconciler.NewFileRecord | backend/app/services/video_service.py:161-173 | a new file with a positive duration is appended with its relative path, base name, rounded size, duration, no thumbnail and `thumbnail_generated` false |
| Reconciler.OutdatedRecordRefreshed | backend/app/services/video_service.py:148-160 | an outdated record gets the relative path, new size, duration and update time; every other row is unchanged |
| Reconciler.ProcessOneAsWritten | backend/app/services/video_service.py:163-174 | as written, processing a file never changes the row count, and a file without a record leaves the table as it was |
| Reconciler.NewFileDroppedAsWritten | backend/app/services/video_service.py:163-174 | a new file with a positive duration gets no row as written, while the intended processing appends one |
| Reconciler.ScanAddsNothingAsWritten | backend/app/services/video_service.py:216-245 | as written, the batches of a scan leave the number of videos unchanged, whatever the files and commit outcomes |
| Reconciler.ProcessOneProvenance | backend/app/services/video_service.py:143-173 | every row after processing was there before or carries the file's own relative path and positive probed duration |
| Reconciler.RunBatchesStep | backend/app/services/video_service.py:216-237 | the batch run processes the next min(10, remaining) files and then either keeps or rolls back that batch |
| Reconciler.ScanStepKeepsTable | backend/app/services/video_service.py:125-173 | the per-file step preserves the table invariants |
| Reconciler.RunFilesValid | backend/app/services/video_service.py:217-230 | running any span of files keeps the table valid |
| Reconciler.RunBatchesValid | backend/app/services/video_service.py:216-237 | committing or rolling back each batch keeps the table valid |
| Reconciler.ScanStepWritesOwnRow | backend/app/services/video_service.py:143-173 | a row written for file k carries that file's relative path and a positive probed duration |
| Reconciler.RunFilesProvenance | backend/app/services/video_service.py:217-230 | every row after a span of files was there before or was written for a file of that span |
| Reconciler.RunBatchesProvenance | backend/app/services/video_service.py:216-244 | every row after all batches was there before or was written for a discovered file with a positive duration |
| Reconciler.RatioInUnit | backend/app/services/video_service.py:80-83 | the progress fraction processed/total lies in [0, 1] |
| Reconciler.FractionsSplit | backend/app/services/video_service.py:217-230 | the progress values reported over a run are the concatenation of those of its batches |
| Reconciler.ProcessFile | backend/app/services/video_service.py:221-226 | the step is applied to file k and one progress value is logged, keeping the in-batch invariant for k+1 |
| Reconciler.ProcessBatch | backend/app/services/video_service.py:218-230 | a batch applies the step to each of its files in order, reporting one progress value per file |
| Reconciler.CommitBatch | backend/app/services/video_service.py:217-237 | a batch of min(10, remaining) files is processed and committed or rolled back, progress ends at (i+n)/total, and the links and counters are untouched |
| Reconciler.NextBatch | backend/app/services/video_service.py:217-237 | the batch loop advances at least one file and keeps its invariant |
| Reconciler.ProcessBatches | backend/app/services/video_service.py:210-237 | all files are processed batch by batch, every file reports exactly one progress value, and progress ends at 1.0 |
| Reconciler.ProgressFallsBack | backend/app/services/video_service.py:239-254 | the reported progress reaches 1.0 after the last file and later falls back to 0.95, so it is not monotone |
| Reconciler.PrunePhase | backend/app/services/video_service.py:94-123 | when records are missing and the prune commit fails, the error escapes: the catalog and its links are untouched, progress stays 0 with the pruning status, completed is unchanged, and already removed thumbnails stay removed; otherwise the surviving records are kept, the links are exactly those of surviving videos, and progress 0 is reported once more exactly when something was deleted; video files never change, and the thumbnails are exactly the old ones less the doomed ones whose removal succeeded |
| Reconciler.FilePhase | backend/app/services/video_service.py:210-257 | after the batches and cleanup the table is the batch run's result, progress is 1.0 with the cleanup count in the status, completed is set, the counters and links are unchanged; with no thumbnail directory nothing is removed, otherwise the removed thumbnails are exactly the orphans whose removal succeeded, and every other thumbnail is kept with its size |
| Reconciler.Scan | backend/app/services/video_service.py:86-257 | no root: progress 0, completed, nothing touched; a failing prune commit escapes exactly when some record is missing, leaving the catalog unchanged, nothing discovered and the scan not completed; no files: progress 1 with the no-videos status; otherwise pruned, discovered, batched and cleaned as above and completed: the links are the pruned links, the thumbnails are the pruned ones less the removed orphans, and, when files were found and the thumbnail directory exists, the orphans removed are exactly the cleanup's orphans whose removal succeeded; the counters, video files and thumbnail directory never change |
| Reconciler.ReportScanError | backend/app/services/video_service.py:258-260 | an error raised during the scan ends it complete at progress 1 with the error text in the status |
| ScanState.Clamp01 | backend/app/core/scan_status.py:14 | the stored progress is the argument clamped into [0, 1] |
| ScanState.ScanStatus.constructor | backend/app/core/scan_status.py:4-10 | the initial status is progress 0, empty text, not completed, both counters 0 |
| ScanState.ScanStatus.UpdateProgress | backend/app/core/scan_status.py:12-18 | progress is clamped; status and completed change only when given; the two counters never change |
| ScanState.ScanStatus.GetStatus | backend/app/core/scan_status.py:20-22 | returns a snapshot value of the five fields, so later updates do not reach it |
| ScanState.ScanStatus.Reset | backend/app/core/scan_status.py:24-32 | all five fields return to (0, "", false, 0, 0) |
| Thumbnails.HashPrefix | backend/app/services/video_service.py:289 | the hash part is the first min(8, length) characters of the digest |
| Thumbnails.ThumbName | backend/app/services/video_service.py:287-291 | the name starts with the stem and "_", ends in `_thumb.jpg`, and has the length the formula gives |
| Thumbnails.BasenameOfStoredPath | backend/app/services/video_service.py:444 | the basename of a stored `thumbnails/<name>` path is the name |
| Thumbnails.SavedNameIsExpected | backend/app/services/video_service.py:384-388 | for a plain file name, the name an upload saves under equals the name the collector expects (436-439) |
| Thumbnails.Protected | backend/app/services/video_service.py:431-448 | every record's expected name is protected |
| Thumbnails.Orphans | backend/app/services/video_service.py:418-455 | the orphans are exactly the `_thumb.jpg` files outside the protected set |
| Thumbnails.StoredThumbnailProtected | backend/app/services/video_service.py:442-448 | a file named by a record's stored thumbnail path is protected even if its name is not the computed one |
| Thumbnails.Candidates | backend/app/services/video_service.py:419-422 | the candidates are exactly the files ending in `_thumb.jpg` |
| Thumbnails.CollectEntry | backend/app/services/video_service.py:454-465 | one loop iteration keeps the count, the size and the directory in step with the removed files |
| Thumbnails.CollectOrphans | backend/app/services/video_service.py:450-465 | exactly the unprotected candidates whose removal succeeds are removed, each once; the count and size sum over them; other files keep their sizes |
| Thumbnails.CleanupOrphanedThumbnails | backend/app/services/video_service.py:409-480 | a missing directory gives zeros and no change; otherwise only unprotected `_thumb.jpg` files are removed and the count and size sum over the files actually removed |
| Thumbnails.EntryOf | backend/app/services/video_service.py:295-297 | a previous thumbnail names a directory entry only when its path is `thumbnails/<name>` |
| Thumbnails.ProduceThumbnail | backend/app/services/video_service.py:292-330 | an existing thumbnail is reused unless forced; a render failure gives the empty path; only the new file and the old thumbnail can change |
| Thumbnails.GenerateThumbnail | backend/app/services/video_service.py:273-330 | the result is "" or `thumbnails/` plus the md5-based name; an existing file is kept unless regeneration is forced; other thumbnails are untouched |
| Thumbnails.ReplaceEntry | backend/app/services/video_service.py:375-394 | the old thumbnail is removed when present and the new file holds the uploaded content |
| Thumbnails.SaveThumbnail | backend/app/services/video_service.py:361-406 | an unknown id changes nothing; otherwise the file is written under the md5-based name, the old file removed, and the row's thumbnail path, flag and update time set |
| RecordUpdates.SafeRemove | backend/app/services/video_service.py:55-77 | a missing path succeeds at once; otherwise at most 3 attempts, retrying only while the file is busy, succeeding exactly when the last attempt removed it |
| RecordUpdates.AlwaysBusyFails | backend/app/services/video_service.py:60-77 | a file that stays busy is never removed |
| RecordUpdates.ResolvedPath | backend/app/services/video_service.py:488-490 | an absolute path is used as is; a relative one resolves only when a root is set |
| RecordUpdates.DeleteVideo | backend/app/services/video_service.py:483-510 | the record and its links go exactly when the record exists, its path resolves, the video file removal succeeds and, when its thumbnail is on disk, the thumbnail removal succeeds; otherwise the catalog is unchanged; on disk exactly the video file (when its removal succeeded) and the thumbnail (when present and removed) are gone, so a removed video file whose thumbnail removal failed leaves the record pointing at a missing file |
| RecordUpdates.WithFlags | backend/app/services/video_service.py:348-351 | only the given flags change, the update time moves only when a flag changed, and nothing else changes |
| RecordUpdates.WithFlagsIdempotent | backend/app/services/video_service.py:348-351 | applying the same flag update twice gives the same record |
| RecordUpdates.UpdateVideoStatus | backend/app/services/video_service.py:341-358 | false and no change for an unknown id; otherwise that row gets the flag update |
| RecordUpdates.AutoProgress | backend/app/services/video_service.py:657-658 | the computed percentage is position/duration·100 capped at 100, non-negative for a non-negative position |
| RecordUpdates.Watched | backend/app/services/video_service.py:650-666 | the position and the local watch time are set, the given percentage or the computed one is stored, and completed is the given value or percentage ≥ 95; updated_at moves to the UTC time exactly when one of these columns changed, and no other column changes; it fails only when no percentage exists |
| RecordUpdates.ProgressAfter | backend/app/services/video_service.py:653-658 | a given percentage is stored as is; without one, a known duration gives the computed percentage and an unknown one keeps the stored value |
| RecordUpdates.WatchedStamps | backend/app/models/video.py:19 | an update read at a new local time always moves updated_at to the given UTC time |
| RecordUpdates.WatchedIdempotent | backend/app/services/video_service.py:650-666 | repeating an update at the same local time changes nothing, not even updated_at |
| RecordUpdates.CompletedNearTheEnd | backend/app/services/video_service.py:656-664 | with nothing given, a video counts as completed exactly when the position is at least 95% of the duration, and the stored percentage is between 0 and 100 |
| RecordUpdates.ProgressThreshold | backend/app/services/video_service.py:657-664 | the auto percentage reaches 95 exactly when the position reaches 0.95·duration |
| RecordUpdates.UpdateVideoProgress | backend/app/services/video_service.py:642-671 | false and no change for an unknown id or a failing update; otherwise that row becomes the watched record, with updated_at moved as above; links never change |
| RecordUpdates.Cleared | backend/app/services/video_service.py:728-731 | position 0, percentage 0, no watch time, not completed; updated_at moves exactly when one of those columns changed; every other column is kept |
| RecordUpdates.UpdateAfterClearSucceeds | backend/app/services/video_service.py:650-664 | after a clear, a progress update can always compute its percentage |
| RecordUpdates.ClearedIdempotent | backend/app/services/video_service.py:728-731 | clearing twice is clearing once: the second clear changes no column, so updated_at stays |
| RecordUpdates.ClearVideoProgress | backend/app/services/video_service.py:721-738 | false and no change for an unknown id; otherwise exactly that row is cleared, with updated_at moved as above |
| RecordUpdates.ProgressUpdateAsWritten | backend/app/services/video_service.py:642-671 | as written the table never changes; the answer is true exactly when the id is known and a flag, a percentage or a positive duration is given |
| RecordUpdates.ClearAsWritten | backend/app/services/video_service.py:721-738 | as written the table never changes; the answer is true exactly when the id is known |
| RecordUpdates.ProgressNotStoredAsWritten | backend/app/services/video_service.py:650-666 | whenever the update as written answers true the intended update succeeds too, but only the intended one stores a new position |
| RecordUpdates.UpdateAfterClearFailsAsWritten | backend/app/services/video_service.py:658-664 | for a video of unknown duration, a clear as written answers true and a following update with no percentage or flag answers false; the intended update after the intended clear succeeds |
| RecordUpdates.ClearNotStoredAsWritten | backend/app/services/video_service.py:728-731 | a clear as written answers true and leaves a completed video completed; the intended clear resets the flag |
| CatalogQuery.SeedScramble | backend/app/services/video_service.py:560-567 | the scrambled seed lies in [0, 2147483646] |
| CatalogQuery.ShuffleKey | backend/app/services/video_service.py:563-572 | the shuffle key lies in [0, 2147483646] |
| CatalogQuery.ShuffleKeySign | backend/app/services/video_service.py:560 | a seed and its negation give the same key |
| CatalogQuery.ShuffleKeyOfPositiveId | backend/app/services/video_service.py:570-572 | for a positive id the key is (id·2654435761 + scramble) mod 2147483647 |
| CatalogQuery.PrecedesTotalPreorder | backend/app/services/video_service.py:548-575 | each sort order is a total preorder on the rows |
| CatalogQuery.OrderedSorted | backend/app/services/video_service.py:548-575 | the ordered rows are a permutation of the matching rows, sorted by the chosen key |
| CatalogQuery.UnorderedKeepsTableOrder | backend/app/services/video_service.py:548 | with no recognised sort key the table order is kept |
| CatalogQuery.SeededIgnoresNoise | backend/app/services/video_service.py:558-573 | with a seed the order does not depend on the database's random source |
| CatalogQuery.SeededIgnoresSign | backend/app/services/video_service.py:560 | seed and -seed give the same order |
| CatalogQuery.Window | backend/app/services/video_service.py:579 | offset/limit gives the slice starting at skip, of length min(limit, rest); a negative limit means no limit |
| CatalogQuery.WindowsTile | backend/app/services/video_service.py:579 | consecutive pages tile the ordered list |
| CatalogQuery.ListVideosBy | backend/app/services/video_service.py:513-581 | total counts at most the table; every row of the page matches every filter; the page has min(limit, total - skip) rows |
| CatalogQuery.TotalCountsMatchingRows | backend/app/services/video_service.py:520-579 | total counts exactly the rows matching keyword, favorite, all listed tags and duration, before offset and limit |
| CatalogQuery.PageIsSortedSlice | backend/app/services/video_service.py:547-579 | the page is the window of the sorted matching rows |
| CatalogQuery.ShortAndLongPartition | backend/app/services/video_service.py:536-545 | short and long split the matching rows: their totals add up to the unfiltered total |
| CatalogQuery.FailedProbeIsShort | backend/app/services/video_service.py:538-545 | with the default 5-minute threshold a -1 duration is short and never long |
| Streaming.TierChunkSize | backend/app/api/videos.py:165-174 | the chunk is 512 KiB exactly for sizes up to 100 MiB, 4 MiB exactly above 2 GiB, and always in between |
| Streaming.TierMonotone | backend/app/api/videos.py:167-174 | a larger file never gets a smaller chunk |
| Streaming.RangeFromParts | backend/app/api/videos.py:189-193 | an accepted range satisfies 0 ≤ start ≤ end < size |
| Streaming.ParseRange | backend/app/api/videos.py:182-196 | no header means the whole file; an accepted header range satisfies 0 ≤ start ≤ end < size |
| Streaming.RangeOfDigits | backend/app/api/videos.py:188 | a digits-only header splits into its start and end texts |
| Streaming.ExplicitRange | backend/app/api/videos.py:188-193 | `bytes=a-b` is accepted exactly when a ≤ b < size, as [a, b] |
| Streaming.OpenEndedRange | backend/app/api/videos.py:188-193 | `bytes=a-` runs to size-1 and is accepted exactly when a < size |
| Streaming.SuffixRangeRefused | backend/app/api/videos.py:188-189 | a suffix range `bytes=-n` is refused as not satisfiable, not served as the last n bytes |
| Streaming.MissingDashIsMalformed | backend/app/api/videos.py:188-190 | a header without '-' fails with the IndexError path, not the 416 path |
| Streaming.ContentTypeFor | backend/app/api/videos.py:280-294 | a known extension maps to its table entry, any other to application/octet-stream |
| Streaming.ContentTypeOfFile | backend/app/api/videos.py:279-294 | the content type of `dir/stem.ext` is looked up by the lower-cased `.ext` |
| Streaming.SplitExtOfFile | backend/app/api/videos.py:279 | the extension of `dir/stem.ext` is `.ext` |
| Streaming.PlanFile | backend/app/api/videos.py:162-311 | a planned response has status 206 exactly when a header was sent, the tier chunk, Content-Range `bytes start-end/size`, Content-Length end-start+1 and the table content type; a refusal is the range error |
| Streaming.PlanStream | backend/app/api/videos.py:142-160 | a missing video, an unset root or a missing file is refused in that order; otherwise the file is planned |
| Streaming.StatusAsWritten | backend/app/api/videos.py:314-316 | as written, every refusal reaches the client as 500 |
| Streaming.StatusIntended | backend/app/api/videos.py:145-196 | the intended status: 404 for missing video, root or file, 416 for an unsatisfiable range, 500 only for the malformed header |
| Streaming.UnsatisfiableRangeAnswered500 | backend/app/api/videos.py:192-316 | `bytes=size-size` is answered 500 where 416 is meant |
| Streaming.MissingVideoAnswered500 | backend/app/api/videos.py:145-316 | an unknown video id is answered 500 where 404 is meant |
| Streaming.ServedRangeHeaders | backend/app/api/videos.py:296-311 | `bytes=a-b` inside the file gives 206, Content-Range `bytes a-b/size` and Content-Length b-a+1 |
| Streaming.WholeFileHeaders | backend/app/api/videos.py:298-310 | without a header the answer is 200 but still carries Content-Range `bytes 0-(size-1)/size` |
| Streaming.NextWindow | backend/app/api/videos.py:238-249 | the window stays in [512 KiB, 2·chunk]; a drop gives max(512 KiB, ⌊0.7w⌋), a rise min(2·chunk, ⌊1.2w⌋), a hold keeps it |
| Streaming.VideoStream | backend/app/api/videos.py:201-269 | the bytes yielded are a prefix of the requested range; no read exceeds the tier chunk; it finishes exactly when all bytes were sent; at most 3 retries per stream in total; the window stays in bounds |
| VideosApi.ParseInts | backend/app/api/videos.py:60 | the ids are the Python int of each part, and parsing fails exactly when some part is not an integer |
| VideosApi.ParseTagIds | backend/app/api/videos.py:57-62 | a missing or empty tags string means no filter; a non-integer element means 400 |
| VideosApi.ParseIntsOfNatStrings | backend/app/api/videos.py:60 | printed ids parse back to themselves |
| VideosApi.TagIdsRoundTrip | backend/app/api/videos.py:57-62 | a comma-joined list of ids parses back to the same list |
| VideosApi.TotalPages | backend/app/api/videos.py:75 | the page count fails exactly when limit is 0 |
| VideosApi.TotalPagesIsCeiling | backend/app/api/videos.py:75 | for a positive limit the page count is ⌈total/limit⌉ |
| VideosApi.ListVideos | backend/app/api/videos.py:43-80 | a bad tag string gives 400 exactly; a zero limit gives a server error exactly; otherwise total and items are those of the service query built from the parameters, with `sort_by` defaulting to 'filename' (an absent one orders by file name), and, for a positive limit, the page count is ⌈total/limit⌉ |
| VideosApi.RenameWithRetries | backend/app/api/videos.py:360-380 | at most 3 attempts, stopping at the first success; failure only after 3 failures |
| VideosApi.StatusCode | backend/app/api/videos.py:339-387 | 200 exactly on success; 404 exactly for missing video, root or file |
| VideosApi.RenamedRow | backend/app/api/videos.py:382-385 | the row gets the new file name and the new relative path; updated_at moves exactly when one of them changed; every other column is kept |
| VideosApi.Rename | backend/app/api/videos.py:339-387 | 404 for a missing video, root or file; 500 and no change after 3 failed renames; otherwise the file moves beside the old one and the row takes the new name and relative path |
| VideosApi.RenamedRowKeepsIdentity | backend/app/api/videos.py:382-385 | renaming to an unused path keeps the table valid and the id |
| VideosApi.DeleteEndpoint | backend/app/api/videos.py:390-418 | 404 for missing video, root or file; 500 with no change when removal fails; otherwise the file, the row and its links go and thumbnails are untouched |
| TagRecords.NextTagId | backend/app/models/tag.py:17 | a fresh tag id is positive and above every existing one |
| TagRecords.NextCategoryId | backend/app/models/tag_category.py:9 | a fresh category id is positive and above every existing one |
| TagRecords.TagTables.constructor | backend/app/models/tag.py:15-18 | empty, valid tag and category tables |
| TagService.LinkCountAdd | backend/app/services/tag_service.py:145-158 | adding a link raises the tag's video count by one exactly when the link was new |
| TagService.LinkCountRemove | backend/app/services/tag_service.py:161-174 | removing a link lowers the count by one exactly when the link existed |
| TagService.TagsWithCounts | backend/app/services/tag_service.py:11-29 | one entry per tag, in table order, with its number of video links |
| TagService.TagNamedIsUnique | backend/app/models/tag.py:18 | in a valid table a name belongs to exactly one tag |
| TagService.CreateTag | backend/app/services/tag_service.py:42-54 | get-or-create by name: an existing tag is returned unchanged, otherwise one new tag is appended; afterwards exactly one tag has that name |
| TagService.UpdateTag | backend/app/services/tag_service.py:57-67 | none for a missing id; a name held by another tag is refused; otherwise only that tag's name and update time change |
| TagService.DeleteTag | backend/app/services/tag_service.py:70-78 | false for a missing id; otherwise the tag and all its video links are gone |
| TagService.TagsInCategory | backend/app/services/tag_service.py:81-88 | exactly the tags whose category is the given one, None meaning uncategorised |
| TagService.AssignTagToCategory | backend/app/services/tag_service.py:119-134 | fails for a missing tag or a missing non-None category; otherwise only that tag's category changes |
| TagService.CategoryLeTotalPreorder | backend/app/services/tag_service.py:96 | ordering by (sort_order, name) is a total preorder |
| TagService.SortedCategoriesOrdered | backend/app/services/tag_service.py:96 | the sorted categories are a permutation of the table, ordered by (sort_order, name) |
| TagService.DictPut | backend/app/services/tag_service.py:100-106 | a new key is appended; an existing key keeps its place and takes the new value |
| TagService.GroupedByCategory | backend/app/services/tag_service.py:91-116 | the loop builds exactly the grouping function's result |
| TagService.Entries | backend/app/services/tag_service.py:98-106 | one entry for each category with at least one tag, and no other |
| TagService.GroupCategoriesIsEntries | backend/app/services/tag_service.py:98-106 | with distinct names the dictionary loop gives the reference entries |
| TagService.SortedNamesDistinct | backend/app/models/tag_category.py:10 | sorted, unique-named categories keep distinct names that never equal the uncategorised key |
| TagService.GroupedIsReference | backend/app/services/tag_service.py:91-116 | the grouping is the non-empty categories in (sort_order, name) order, followed by '未分类' exactly when uncategorised tags exist |
| TagService.EntriesExact | backend/app/services/tag_service.py:98-106 | a category appears in the grouping exactly when it has a tag |
| TagService.VideoTags | backend/app/services/tag_service.py:137-142 | empty for a missing video; otherwise exactly the tags linked to it |
| TagService.AddTagToVideo | backend/app/services/tag_service.py:145-158 | false and no change iff the video or tag is missing; otherwise the link set gains that one link, never twice |
| TagService.RemoveTagFromVideo | backend/app/services/tag_service.py:161-174 | false iff the video or tag is missing; otherwise only that link is removed, and an absent link changes nothing |
| TagService.UpdateVideoTags | backend/app/services/tag_service.py:177-193 | VideoMissing exactly for an unknown video; LinkConflict, with the links unchanged, exactly when an id listed twice names an existing tag the video was not linked to (the composite key of video_tag rejects the second insert); otherwise its links are replaced by the existing tags among the ids |
| TagService.NewLinks | backend/app/services/tag_service.py:187-193 | the new links are one per listed id naming an existing tag, and the conflict flag is set exactly when a repeated id would insert the same new link twice |
| TagService.RepeatedIdConflict | backend/app/models/tag.py:7-12 | an existing tag listed twice conflicts exactly when the video is not already linked to it |
| TagService.ReplacedLinksExact | backend/app/services/tag_service.py:184-189 | after replacement the video is linked exactly to the listed ids that name tags, and other videos' links are untouched |
| TagService.ReplacedLinksIdempotent | backend/app/services/tag_service.py:177-193 | replacing twice with the same ids is replacing once |
| TagCategoryService.AllCategories | backend/app/services/tag_category_service.py:11-20 | every category once, in (sort_order, name) order, each with the number of its tags |
| TagCategoryService.NewCategory | backend/app/services/tag_category_service.py:40-46 | an empty or missing color becomes '#409EFF' and a missing sort order 0 |
| TagCategoryService.CreateCategory | backend/app/services/tag_category_service.py:33-50 | refused exactly when the name exists; otherwise one new category with a fresh id is appended |
| TagCategoryService.Patched | backend/app/services/tag_category_service.py:67-76 | exactly the given fields change, plus the update time |
| TagCategoryService.PatchedIdempotent | backend/app/services/tag_category_service.py:67-76 | applying the same patch twice is applying it once |
| TagCategoryService.UpdateCategory | backend/app/services/tag_category_service.py:53-79 | none for a missing id; refused only when the new name belongs to a different category; otherwise the row is patched |
| TagCategoryService.UpdateArgsAsWritten | backend/app/schemas/tag_categories.py:5-15 | the service receives the given name and description; a colour or sort order left out of the body arrives as '#409EFF' or 0, one sent as null as None |
| TagCategoryService.NameOnlyUpdateResets | backend/app/schemas/tag_categories.py:7-8 | as written, a body holding only a name renames the category and resets its colour to '#409EFF' and its sort order to 0 |
| TagCategoryService.UpdateArgsIntended | backend/app/schemas/tag_categories.py:14-15 | the partial update intended: each argument is present exactly when its field was sent with a value |
| TagCategoryService.AbsentFieldsKept | backend/app/services/tag_category_service.py:67-76 | with the intended arguments, each name, colour and sort order sent is written, and each left out or null keeps its value, as does a description not sent |
| TagCategoryService.OwnNameAllowed | backend/app/services/tag_category_service.py:61-63 | the lookup of a category's own name finds that same category, so keeping the name is allowed |
| TagCategoryService.Uncategorise | backend/app/services/tag_category_service.py:89 | every tag of that category loses its category, and all other tags are unchanged |
| TagCategoryService.DeleteCategory | backend/app/services/tag_category_service.py:82-94 | false for a missing id; otherwise its tags are uncategorised and the category is removed |
| TagCategoryService.DeleteMovesTagsToUncategorised | backend/app/services/tag_category_service.py:89-104 | after deletion no tag is in that category, and its former tags are among the uncategorised ones |
| SettingService.ValueOf | backend/app/services/setting_service.py:17-19 | none exactly when no row has the key; otherwise the value of a row with that key |
| SettingService.UpsertThenValue | backend/app/services/setting_service.py:7-19 | after setting the key, reading it gives the value |
| SettingService.UpsertKeepsOthers | backend/app/services/setting_service.py:7-14 | setting one key leaves every other key's value unchanged |
| SettingService.UpsertKeepsValid | backend/app/services/setting_service.py:8-13 | keys stay unique and a row is added only when the key was absent |
| SettingService.UpsertIdempotent | backend/app/services/setting_service.py:7-14 | setting the same value twice is setting it once |
| SettingService.SettingsTable.constructor | backend/app/models/setting.py:6-10 | an empty, valid settings table |
| SettingService.SettingsTable.SetRootDirectory | backend/app/services/setting_service.py:7-14 | the rows become the upsert of root_directory, so the table stays valid |
| SettingService.SettingsTable.GetRootDirectory | backend/app/services/setting_service.py:16-19 | the stored root directory, or none when the key is absent |
| SettingService.SettingsTable.AllSettings | backend/app/services/setting_service.py:21-24 | one (key, value) pair per stored row, in table order |
| LegacyApp.DotlessSuffixesQualify | app.py:57 | names ending in "ts", "mpeg" or "wmv" pass the filter even without a dot |
| LegacyApp.NextVideoId | app.py:25 | a fresh video id is positive and above every existing one |
| LegacyApp.NextTagId | app.py:19 | a fresh tag id is positive and above every existing one |
| LegacyApp.VideoTagNames | app.py:68 | exactly the names of the tags linked to the video |
| LegacyApp.TagNameList | app.py:68 | the card's tag list holds exactly the video's tag names |
| LegacyApp.UsedTagsExact | app.py:164-172 | the sweep keeps exactly the tags that still have a video, and names stay unique |
| LegacyApp.SweepKeepsVideoTags | app.py:164-172 | the sweep never changes any video's tag names |
| LegacyApp.IndexRun | app.py:55-70 | the index run only appends video records, and a failed run stays failed |
| LegacyApp.IndexStepCovers | app.py:58-63 | one step adds the cover of a video name exactly when the cover exists or is grabbed, and fails exactly when a missing cover cannot be grabbed |
| LegacyApp.IndexStepCards | app.py:58-70 | one step appends exactly one card for a listed video and none otherwise, keeping earlier cards |
| LegacyApp.IndexRunValid | app.py:58-65 | the index keeps video ids ascending |
| LegacyApp.IndexRunCovers | app.py:59-61 | the cover set only grows, and only by covers of listed videos; when no grab failed it grows by exactly those covers |
| LegacyApp.IndexRunCards | app.py:56-70 | earlier cards are kept; when no grab failed, one card is appended per listed name that passes the video filter |
| LegacyApp.IndexRunNewRecords | app.py:59-65 | a record is created only for a listed video whose cover was missing and could be grabbed and which had no record, with cover `covers/<f>.jpg` |
| LegacyApp.ExistingCoverNoRecord | app.py:60-65 | a file with an existing cover or an existing record gets no new record |
| LegacyApp.IndexRunSucceeds | app.py:59-62 | when every cover grab succeeds the listing does not fail |
| LegacyApp.IndexRunStopsAtFailure | app.py:56-65 | once a grab has failed the rest of the listing changes nothing |
| LegacyApp.IndexEntry | app.py:58-70 | one loop iteration computes exactly the index step, failing when a missing cover cannot be grabbed |
| LegacyApp.EnsureTags | app.py:84-91 | get-or-create keeps the existing tags as a prefix and gives one id per name |
| LegacyApp.EnsureTagsValid | app.py:86-91 | tag names stay unique and every new tag has one of the given names |
| LegacyApp.EnsureTagsNamesIds | app.py:86-91 | each returned id is the id of the tag with that name |
| LegacyApp.Relinked | app.py:94 | the video's links become exactly the given ids; other videos' links are kept |
| LegacyApp.EnsureTagsNames | app.py:84-94 | after relinking, the video's tag names are exactly the given names |
| LegacyApp.StatusOf | app.py:108-134 | 200 exactly on success, 404 exactly for an unknown file name |
| LegacyApp.WithVideo | app.py:77-101 | get-or-create by file name: an existing row keeps its id, a new one gets a fresh id; a cover sets `covers/<f>.jpg` |
| LegacyApp.WithVideoFound | app.py:77-80 | the file name then finds the returned row and ids stay ascending |
| LegacyApp.Updated | app.py:76-103 | the tags, if given, are the deduplicated names, got or created, and relinked |
| LegacyApp.UpdatedValid | app.py:76-103 | the update keeps ids ascending, names unique, and links between existing rows |
| LegacyApp.UpdateSetsTags | app.py:82-106 | after update and sweep the video's tags are exactly the given set of names and no tag is left unused |
| LegacyApp.WithoutVideo | app.py:153 | the row and exactly its links are removed |
| LegacyApp.WithoutVideoValid | app.py:153 | removing a video keeps the tables and links valid |
| LegacyApp.SweepKeepsLinks | app.py:164-172 | after the sweep every link still names an existing tag |
| LegacyApp.Library.constructor | app.py:9-14 | an empty library over the given video and cover files |
| LegacyApp.Library.CleanupUnusedTags | app.py:164-172 | the tags become exactly the used ones |
| LegacyApp.Library.Index | app.py:53-71 | the records and covers are those of the index run, including the records committed before a failed grab; the page is the cards, or none (a 500) when a grab failed |
| LegacyApp.Library.Update | app.py:74-108 | fails with the tables unchanged exactly when a cover is given and does not decode, although the cover file is still created; otherwise the row is got or created, its tags become the given names and unused tags are swept |
| LegacyApp.Library.CommitUpdate | app.py:77-106 | the row is got or created, its tags become the given names, and unused tags are swept, keeping the tables valid |
| LegacyApp.Library.DeleteVideo | app.py:128-161 | 404 for an unknown name; a failed cover removal aborts with no change; otherwise the row, its links and unused tags go, while a failed video-file removal is swallowed |
| JsText.JsTrim | static/js/tags.js:34 | strips white space (tab, VT, FF, BOM, every space separator and the line terminators) at both ends, keeps only characters of the input, and is empty exactly for an all-white-space string |
| JsText.LowerCharKeepsWhitespace | static/js/tags.js:98 | lower-casing a character neither makes nor removes white space |
| JsText.JsTrimIdempotent | static/js/tags.js:34 | trimming twice is trimming once |
| JsText.LeadingDigits | static/js/search.js:39 | the longest digit prefix |
| JsText.JsParseInt | static/js/search.js:39 | a number is read only when something follows the leading white space; after a "0x" prefix the digits are hexadecimal |
| JsText.JsParseIntOfHex | static/js/search.js:39 | parseInt of "0x" followed by hexadecimal digits, optionally negated, is their base-16 value |
| JsText.JsParseIntOfNatToString | static/js/search.js:39 | parseInt of a printed number followed by a non-digit is that number |
| JsText.JsParseIntOfDigits | static/js/search.js:39 | parseInt reads a leading run of digits |
| JsText.JsParseIntOfDigitFirst | static/js/search.js:39 | a string starting with a digit but not with "0x" parses to the value of its decimal digit prefix |
| JsText.PageOrOne | static/js/search.js:39 | the page falls back to 1 for a missing, unparsable or zero page, else the parsed value, hexadecimal included |
| JsText.PageOrOneRoundTrip | frontend/src/composables/useVideoList.js:47 | a printed page number reads back as itself, 0 as 1 |
| JsText.PageOrOneOfHex | static/js/search.js:39 | the page parameter "0x10" restores page 16 |
| JsText.JsNumber | frontend/src/composables/useVideoList.js:44 | an empty or blank string is 0; integer text, decimal or unsigned after "0x", is read as a whole |
| JsText.JsNumberOfNatToString | frontend/src/composables/useVideoList.js:44 | Number of a printed id is that id |
| JsText.JsNumberOfIntToString | frontend/src/composables/useVideoList.js:44 | Number of a printed integer is that integer |
| JsText.JsNumberOfNegative | frontend/src/composables/useVideoList.js:44 | Number("-d") is minus the digits' value |
| JsText.JsNumberOfNaN | frontend/src/composables/useVideoList.js:44 | Number("NaN") is NaN |
| JsText.JsNumberOfNonDigit | frontend/src/composables/useVideoList.js:44 | a trimmed string starting with something other than a sign, a digit, a point or the I of Infinity is NaN |
| TagScripts.TrimAll | static/js/tags.js:34 | each token is trimmed, position by position |
| TagScripts.DedupeTags | static/js/tags.js:33-35 | distinct tokens, exactly the non-empty trimmed comma tokens |
| TagScripts.DedupeTagsClean | static/js/tagManager.js:67-69 | each result is already trimmed and comma-free |
| TagScripts.DedupeTagsIdempotent | static/js/tagManager.js:56-60 | deduplicating the comma-joined output gives the same list, so rewriting the input box is idempotent |
| TagScripts.CleanListFixed | static/js/tags.js:183-185 | a clean distinct list survives a join-and-dedupe round trip |
| TagScripts.EmptyInputClean | static/js/tags.js:33-35 | an empty box gives no tags |
| TagScripts.NormalisedQueryMatchesAlike | static/js/tags.js:96-99 | the name match depends only on the trimmed, lower-cased query |
| TagScripts.CleanedCardMatchesOwnTags | static/js/tags.js:107-115 | a card whose tags were cleaned matches any selection of its own tags |
| TagScripts.TagsPage.constructor | static/js/tags.js:196 | the page starts at tag page 1, with no options and the message hidden |
| TagScripts.TagsPage.SearchByFilename | static/js/tags.js:93-101 | every card's name match is recomputed from the query and nothing else changes |
| TagScripts.TagsPage.FilterVideoCards | static/js/tags.js:107-115 | every card's tag match is: selection empty or every selected tag among its trimmed tags |
| TagScripts.TagsPage.IntegrateSearchResults | static/js/tags.js:120-150 | a card is visible exactly when it matches by name and by tag; the no-results message shows exactly when none is visible |
| TagScripts.TagsPage.UpdateTagSearch | static/js/tags.js:40-87 | the options keep the survivors in order and drop the tags the server no longer has |
| TagScripts.TagsPage.LoadTags | static/js/tags.js:198-214 | the next page is fetched exactly when the current one returned 50 tags; options gain every fetched tag in order |
| TagScripts.RemoveFirst | static/js/tags.js:73-78 | removing an absent option changes nothing |
| TagScripts.RemoveStale | static/js/tags.js:54-79 | removing the stale options after appending the new ones leaves the survivors followed by the additions |
| TagScripts.SyncedOptions | static/js/tags.js:54-79 | after the diff the option set equals the server's tag set, survivors in order, new tags appended |
| TagScripts.FullPages | static/js/tags.js:210-212 | the page counter rises once per full page, never more than the pages fetched |
| TagScripts.PagedLoadUnique | static/js/tagManager.js:39-50 | the sequence of pages requested is determined by the server's answers |
| TagScripts.TagManager.constructor | static/js/tagManager.js:2-6 | starts at page 1 with no options |
| TagScripts.TagManager.UpdateTagOptions | static/js/tagManager.js:72-80 | exactly one option per tag is appended, in input order |
| TagScripts.TagManager.LoadTags | static/js/tagManager.js:39-50 | recurses on the next page exactly when the page held 50 tags; the options gain every fetched tag |
| TagScripts.TagManager.UpdateTagSearch | static/js/tagManager.js:83-88 | clears the options, resets the page to 1 and reloads: pages 1, 2, … are requested and the options are exactly the fetched tags |
| SearchScript.PageButtons | static/js/search.js:164-171 | the numbered buttons are lo..hi ascending, active exactly at the current page |
| SearchScript.Pagination | static/js/search.js:139-142 | at most one page gives no pagination |
| SearchScript.PaginationShown | static/js/search.js:144-185 | previous iff cur > 1, first iff start > 1, leading ellipsis iff start > 2, pages start..end, last iff end < total, trailing ellipsis iff end < total-1, next iff cur < total |
| SearchScript.PaginationOrdered | static/js/search.js:144-185 | the controls come in the order prev, first, ellipsis, pages, ellipsis, last, next |
| SearchScript.PaginationOneActive | static/js/search.js:165-170 | for 1 ≤ cur ≤ total exactly one page button is active, the current one |
| SearchScript.Assign | static/js/search.js:48 | `Object.assign`: fields missing from the saved state keep their values |
| SearchScript.Restored | static/js/search.js:37-50 | with any URL parameter or nothing saved, the state comes from the URL with page parseInt or 1 |
| SearchScript.RestoreAfterSave | static/js/search.js:12-42 | a state written to the URL reads back as the same state |
| SearchScript.RestoreSaved | static/js/search.js:44-50 | with no URL parameters, the saved state is restored |
| SearchScript.FirstVisitDoesNotSearch | static/js/search.js:37-63 | a first visit restores page 1, no name, no tags, and runs no search |
| SearchScript.RenderPagination | static/js/search.js:137-188 | the loop builds exactly the pagination controls |
| SearchScript.VideoSearch.constructor | static/js/search.js:2-5 | starts at page 1 with empty inputs and no pagination |
| SearchScript.VideoSearch.UpdatePagination | static/js/search.js:137-188 | the pagination shown becomes the computed controls |
| SearchScript.VideoSearch.RestoreState | static/js/search.js:35-64 | page, name and tags become the restored state, and a search runs exactly when a name, tags or page > 1 are present |
| VideoList.NumText | frontend/src/composables/useVideoList.js:84 | a printed id is non-empty and comma-free |
| VideoList.CleanParams | frontend/src/composables/useVideoList.js:91-97 | drops exactly the entries whose value is '', false or an empty array; numbers such as 0 are kept |
| VideoList.CleanParamsIdempotent | frontend/src/composables/useVideoList.js:91-97 | cleaning twice is cleaning once |
| VideoList.RequestSent | frontend/src/composables/useVideoList.js:79-97 | the server receives skip (page-1)·size, limit size, the non-empty filters, the seed, and the sort, or its default 'filename' when the sort is empty and so not sent |
| VideoList.ReceivedOfLoad | frontend/src/composables/useVideoList.js:79-97 | what the server reads from the cleaned parameters: an empty keyword, tag list or duration and a false favourite are absent (None), and an empty sort is absent, so the endpoint's default 'filename' applies |
| VideoList.EmptySortOrdersByFilename | backend/app/api/videos.py:51 | a list loaded with an empty sort passes the tag check and is ordered by file name at the service |
| VideoList.RequestTagFilter | frontend/src/composables/useVideoList.js:84 | the tag ids the client sends parse back on the server as the same list |
| VideoList.ClientTotalPages | frontend/src/composables/useVideoList.js:34 | undefined exactly when the page size is 0 |
| VideoList.ClientTotalPagesIsCeiling | frontend/src/composables/useVideoList.js:34 | for a positive size the page count is ⌈total/size⌉ |
| VideoList.ClientAgreesWithServer | frontend/src/composables/useVideoList.js:34 | the client's page count equals the server's (backend/app/api/videos.py:75) |
| VideoList.RouteParams | frontend/src/composables/useVideoList.js:55-62 | sort omitted when random, page omitted when ≤ 1, empty filters omitted |
| VideoList.UpdatedQuery | frontend/src/composables/useVideoList.js:65-70 | the new params are merged over the old query, so omitted keys keep their old values |
| VideoList.CorrectedQuery | frontend/src/composables/useVideoList.js:65-70 | a variant that clears the managed keys before merging |
| VideoList.FromRoute | frontend/src/composables/useVideoList.js:40-48 | the page is never 0, the sort never empty, favorites iff the value is 'true', and no tags for a missing or empty value |
| VideoList.TagsTextRoundTrip | frontend/src/composables/useVideoList.js:44-58 | joined tag ids split and map back to the same ids |
| VideoList.RouteReadsBack | frontend/src/composables/useVideoList.js:40-62 | a query carrying exactly the written values reads back as the same filters and page |
| VideoList.ValuesReadBack | frontend/src/composables/useVideoList.js:40-62 | each written route value reads back as its field |
| VideoList.CorrectedRouteRoundTrip | frontend/src/composables/useVideoList.js:40-70 | with the managed keys cleared first, any query reads back as the written state |
| VideoList.UpdatedRouteRoundTrip | frontend/src/composables/useVideoList.js:40-70 | the merge reads back correctly when the old query held no managed key |
| VideoList.StaleRoutePage | frontend/src/composables/useVideoList.js:61-70 | as written, returning to page 1 from `page=3` leaves `page=3` in the URL |
| VideoList.WithoutFirst | frontend/src/composables/useVideoList.js:198-202 | one element shorter exactly when the id is present |
| VideoList.WithoutFirstRemovesOne | frontend/src/composables/useVideoList.js:198-202 | only the first video with that id is removed, order kept; an absent id changes nothing |
| VideoList.VideoListView.constructor | frontend/src/composables/useVideoList.js:12-31 | no videos, total 0, page 1; the filters are the props with their defaults and the view mode is the prop or grid |
| VideoList.FiltersOf | frontend/src/composables/useVideoList.js:14-20 | the initial filters: an absent or empty keyword or duration is '', favorites only when the prop is true, the given tag ids, and the given sort or 'random' |
| VideoList.VideoListView.InitializeFromRoute | frontend/src/composables/useVideoList.js:40-51 | filters and page come from the route; the view mode is the stored one or 'grid' |
| VideoList.VideoListView.LoadVideos | frontend/src/composables/useVideoList.js:76-111 | sends the cleaned request; on success takes the items and total and updates the route; on failure changes nothing |
| VideoList.VideoListView.UpdateRouteParams | frontend/src/composables/useVideoList.js:54-73 | the route becomes the merged query |
| VideoList.VideoListView.HandleSearch | frontend/src/composables/useVideoList.js:124-127 | page reset to 1 and reload; on a reply the list, total and route query are the reply's and the updated query, on a failed load they are kept |
| VideoList.VideoListView.HandleSortChange | frontend/src/composables/useVideoList.js:130-136 | a new seed only for random sort, page reset to 1 and reload; on a reply the list, total and route query are the reply's and the updated query, on a failed load they are kept |
| VideoList.VideoListView.HandleSizeChange | frontend/src/composables/useVideoList.js:145-149 | size set, page reset to 1 and reload; on a reply the list, total and route query are the reply's and the updated query, on a failed load they are kept |
| VideoList.VideoListView.HandleCurrentChange | frontend/src/composables/useVideoList.js:152-155 | page set and reload; on a reply the list, total and route query are the reply's and the updated query, on a failed load they are kept |
| VideoList.VideoListView.DeleteVideo | frontend/src/composables/useVideoList.js:183-217 | the first video with the id is removed and total lowered only if found; steps back a page and reloads exactly when the list empties on a page above 1; a cancel or failure changes nothing |

## Left out

- The outside world is not modelled. The model takes the following as oracle parameters:
  - ffprobe and the ffmpeg frame grab;
  - whether the moviepy cover grab (`app.py:47-50`) succeeds, as `grabOk`; a failed
    grab is taken to leave no cover file;
  - md5, as an uninterpreted function;
  - `os.walk` order, `abspath` and `relpath` normalisation;
  - file stat, and whether remove and rename succeed;
  - base64 decoding of an uploaded cover, as a `decodes` flag;
  - the clock.
- The scan's `ThreadPoolExecutor` and `as_completed` (video_service.py:220-230) are
  modelled sequentially, in list order.
- The database session shared between threads is not modelled.
- Reconciler.ProcessOne: does not model the unique-constraint fallback of
  video_service.py:179-196. That fallback depends on session state after a failed flush,
  which the model does not have. Such a failure is treated like any other error of the
  file: no write. A new file gets the row the constructor call intends; as written that
  call raises, see `Reconciler.ProcessOneAsWritten` under "## Findings".
- Reconciler.Scan: the cleanup-failure text "扫描完成（缩略图清理失败）"
  (video_service.py:255-257) is not modelled, because the collector has no exception path
  in the model. `ReportScanError` models an error raised inside the `try:` of
  video_service.py:198-260. The prune pass (video_service.py:89-123) runs before that
  `try:`; of its errors only a failing prune commit (video_service.py:118-119) is modelled, as
  `pruneCommitOk`. Other errors there (a failing query or `abspath`) are not modelled.
  The batches add rows for new files as intended; as written they add none
  (`Reconciler.ScanAddsNothingAsWritten`).
- Floats:
  - sizes, durations and progress are Dafny reals;
  - `round(x, 2)` is stated as a bound of 0.005, not a binary-float result;
  - the stream's throughput ratio, `time.time` and `asyncio.sleep` are replaced by a
    drop/rise/hold `Trend` oracle and a timeout event;
  - `int(w*0.7)` and `int(w*1.2)` are integer floors.
- SQLAlchemy specifics are not modelled: commit and rollback beyond "a batch is kept or
  discarded", autoflush, the raw SQL text, and `DISTINCT`.
- Reconciler.NewFileRecord: assumes the Video model has a `thumbnail_generated` column. It
  has none (models/video.py:7-22), so as written the constructor call of
  video_service.py:163-171 raises TypeError and a new file gets no row;
  `Reconciler.ProcessOneAsWritten` models that, under "## Findings".
- RecordUpdates.Watched: assumes the four watch-progress columns exist. As written they
  are not columns, nothing is stored and updated_at does not move;
  `RecordUpdates.ProgressUpdateAsWritten` models that, under "## Findings".
- RecordUpdates.ProgressAfter: its fallback to the stored percentage (no percentage given, duration ≤ 0)
  presumes the `watch_progress` column. As written that attribute was never set, so the
  read at video_service.py:664 raises AttributeError and the call answers false
  (`RecordUpdates.ProgressUpdateAsWritten`).
- RecordUpdates.CompletedNearTheEnd: states the completion flag that update_video_progress
  computes, which as written is not stored.
- RecordUpdates.WatchedStamps: holds only with the watch-progress columns stored; as
  written updated_at never moves on a progress update.
- RecordUpdates.UpdateVideoProgress: assumes the watch-progress columns exist; as written
  the table is unchanged and the answer is that of `RecordUpdates.ProgressUpdateAsWritten`.
- RecordUpdates.Cleared: assumes the watch-progress columns exist; as written nothing is
  stored (`RecordUpdates.ClearAsWritten`).
- RecordUpdates.UpdateAfterClearSucceeds: holds only with the columns stored; as written
  an update after a clear still fails for an unknown duration
  (`RecordUpdates.UpdateAfterClearFailsAsWritten`).
- RecordUpdates.ClearVideoProgress: assumes the watch-progress columns exist; as written
  the table is unchanged (`RecordUpdates.ClearAsWritten`).
- Thumbnails.SaveThumbnail: sets `thumbnailGenerated`, as video_service.py:399 intends; as
  written that attribute is not a column and is not stored. The path and updated_at are.
- Common.Lower: folds only the ASCII letters A-Z. It stands for Python's `str.lower`
  (video_service.py:203, videos.py:279, app.py:57) and JavaScript's `toLowerCase`
  (tags.js:97-98, 121), which also fold non-ASCII letters such as "É". A name or query
  that differs from another only in non-ASCII case matches in the code but not in the
  model. For the SQLite `ilike` of the search, ASCII-only folding is what SQLite does.
- Common.PyInt: reads only the ASCII digits 0-9. Python's `int()` also accepts other
  Unicode decimal digits, such as the full-width "２" (U+FF12), so `tags=1,２` parses in
  the code but is refused by `VideosApi.ParseInts` here. White space is stripped as
  Python does.
- JsText.JsNumber: covers integer text only. `Number` also reads fractions ("1.5"),
  exponents ("1e3"), "Infinity" and the "0b" and "0o" prefixes. The model reads these
  as NaN. Tag ids in the route are integers written by the view itself.
- SQL `ilike`: the model treats `%` and `_` in the keyword as literal characters, while SQL
  LIKE reads them as wildcards (any run of characters, any one character). A keyword
  holding them matches more rows in the code than in the model.
- `func.random()` is an arbitrary `noise` function.
- `app.py` update iterates a Python `set`, so the order in which new tags are created
  (and so their ids) is arbitrary. The model creates them in first-occurrence order. The
  resulting set of names is the same.
- Service functions outside the modelled core are not modelled:
  - in video_service.py: `get_total_videos`, `get_video_by_id`, `get_thumbnail`,
    `get_video_progress`, `get_recently_watched_videos`, `get_continue_watching_videos`;
  - the duplicate tag helpers of video_service.py:584-639.
  They are plain reads, or repeat operations modelled in `TagService`.
- In videos.py, `get_video_thumbnail` (105-137) and the image content-type check of
  `set_video_thumbnail` (319-336) are not modelled. Only the service's `save_thumbnail`
  is.
- Thin routers map service results to HTTP responses and are not modelled:
  - backend/app/api/tags.py, backend/app/api/tag_categories.py,
    backend/app/api/settings.py;
  - backend/main.py;
  - the scan endpoint at videos.py:22-41, apart from its call to reset.
- The database setup and schemas are not modelled beyond record fields and uniqueness
  constraints: init_database.py, core/database.py, models/*, schemas/*, config.py.
- search.js: `searchVideos`, `updateUI`, `clearSearch` and `bindSearchEvents` are not
  modelled. They do network and DOM work, and only the state they read and write
  (`restoreState`, `updatePagination`) is modelled. `saveState` is modelled only as the
  state it writes, in `SearchScript.RestoreAfterSave`.
- useVideoList.js: `refreshRandom`, `handleViewModeChange`, `updateVideoProgress`,
  `updateVideo`, `renameVideo`, `loadTags` and the watchers are not modelled. They are UI
  glue that only copies values between refs, the server and local storage.
- The seed of the list request is passed in, not drawn from `Math.random()`.
- TagScripts.TagsPage.LoadTags, TagScripts.TagManager.LoadTags: the recursion of the
  browser loaders is bounded by a `fuel` argument. Loading stops when the fuel runs out,
  which the scripts themselves never do.
- Debounce timing, notifications, the video player, the fetch wrapper, and the axios
  service modules are not modelled.

## Findings

| source | as written | input that shows it | evidently intended | confidence | as-written member | corrected member |
|---|---|---|---|---|---|---|
| backend/app/api/videos.py:314-316 | the blanket `except Exception` around `stream_video` catches the HTTPExceptions raised inside it, so the 404s and the 416 reach the client as 500 | `Range: bytes=S-S` on a file of S bytes, or an unknown video id | 416 for an unsatisfiable range and 404 for a missing video, root or file; 500 only for a malformed header | not executed | Streaming.StatusAsWritten (with Streaming.UnsatisfiableRangeAnswered500, Streaming.MissingVideoAnswered500) | Streaming.StatusIntended |
| frontend/src/composables/useVideoList.js:65-70 | the route query is the old query with only the defined parameters spread over it, so a filter cleared or a page set back to 1 (both written as undefined) keeps its old value in the URL | the URL `?page=3`, then going back to page 1 and reloading the route | the composable's own keys are replaced as a group, so the URL reads back as the current filters and page | not executed | VideoList.StaleRoutePage (with VideoList.UpdatedQuery) | VideoList.CorrectedRouteRoundTrip (with VideoList.CorrectedQuery) |
| backend/app/schemas/tag_categories.py:5-15 | `TagCategoryUpdate` makes the name optional but inherits the defaults `color='#409EFF'` and `sort_order=0`, so a field left out of the PUT body reaches the service as a value and is written | a PUT of `{"name": "x"}` to a category with another colour and sort order | a field left out is None and its column is kept, as the service's `is not None` tests expect | not executed | TagCategoryService.NameOnlyUpdateResets (with TagCategoryService.UpdateArgsAsWritten) | TagCategoryService.AbsentFieldsKept (with TagCategoryService.UpdateArgsIntended) |
| backend/app/services/video_service.py:163-174 | the new-record constructor passes `thumbnail_generated`, which models/video.py:7-22 does not declare, so it raises TypeError; the message is not a unique-constraint failure, so the handler returns None and no row is added | a scan of a root holding one video file with no record and a positive duration | the file gets a new row with no thumbnail | not executed | Reconciler.ProcessOneAsWritten (with Reconciler.NewFileDroppedAsWritten, Reconciler.ScanAddsNothingAsWritten) | Reconciler.NewFileRecord (with Reconciler.ProcessOne) |
| backend/app/services/video_service.py:650-664 | the watch-progress fields are not declared columns (models/video.py:7-22), so the assignments set plain attributes: the commit stores nothing and updated_at does not move; with no percentage given and duration ≤ 0 the read at :664 raises AttributeError and the call answers false, even after a clear (:728-731, also not stored) | `update_video_progress(id, 30.0)` on a video of duration -1 after `clear_video_progress(id)` | the position, percentage, watch time and flag are stored, and an update after a clear succeeds | not executed | RecordUpdates.ProgressUpdateAsWritten, RecordUpdates.ClearAsWritten (with RecordUpdates.ProgressNotStoredAsWritten, RecordUpdates.UpdateAfterClearFailsAsWritten, RecordUpdates.ClearNotStoredAsWritten) | RecordUpdates.Watched, RecordUpdates.Cleared (with RecordUpdates.UpdateAfterClearSucceeds) |
