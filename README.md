# Camera-card video importer: verified model of the scan, discovery, selection and copy core

This project models the logic core of a macOS importer for camera memory
cards. It covers four parts:

- **Volume scan** (`DriveManager.startScanning`). Each mounted volume is classified. The root volume, the internal volumes, and volumes whose file-system attributes cannot be read or carry no free-node count are system volumes and are skipped. A remaining volume is a camera card when it has `AVCHD` at its root, or `PRIVATE` and `PRIVATE/AVCHD`. Each card becomes a `Drive`.
- **Media discovery** (`Drive.findVideoFiles` and `DriveManager.findVideoFiles(in:)`). The fixed-path phase takes the `.MTS` entries of `AVCHD/BDMV/STREAM` and `PRIVATE/AVCHD/BDMV/STREAM`. The recursive walk then appends every `.mp4`/`.mov` entry not already listed. The walk tests only the name, so a directory named like a video is listed too.
- **Selection** (`VideoListView.handleSelection`). A plain click sets one URL. A shift-click sets every row between the previous click and this one. Either way the click is remembered.
- **Bulk copy** (`FileOperations.copyFiles`). A first pass adds up the sources' sizes and fails if one cannot be measured. Each source then gets a task on a serial queue. The task opens the source, removes an existing file of the same name in the destination, creates the file afresh and copies into it in chunks of at most 1 MiB. After each chunk it adds the chunk's length to `copiedBytes` and reports progress. A `DispatchGroup` reports success once every task has left it.

The Foundation calls become values:

- `FileManager` answers during a scan are a `VolumeView` snapshot. It records which paths exist, the directory listings, the file-system attributes, and what the recursive enumerator yields.
- The disk during a copy is a `FileSystem` object whose map of files the copy changes in place. A fixed set of `Faults` decides which calls throw: files that cannot be opened for reading, destination paths that can be neither removed nor created, destination paths that can be removed but not created, and files whose attributes carry no size.
- URLs are their path strings.
- The shift key, the clock and the item attributes are parameters.
- The two callbacks of `copyFiles` are recorded on a `CopyJob` object. Each `progress` call is stored as the `copiedBytes` value it divides by `totalBytes`, and each `completion` call as a `Completion`.

Files:

- `paths.dfy`: `Option`/`Result`, and the path operations (`appendingPathComponent`, `lastPathComponent`, `pathExtension`, ASCII case mapping).
- `drive_manager.dfy`: volume classification, the scan and media discovery.
- `file_operations.dfy`: the copy.
- `video_list_view.dfy`: `VideoFile` and click selection.

Where the code and its design description disagree, the model follows the code:

- **Progress when the total is 0.** The design says to report 1.0. The code never calls `progress` when no bytes are copied, and divides by zero otherwise.
- **Failure reporting.** The design promises a single terminal result, reported after all tasks finish, and success exactly when no task failed. In the code, a task that throws calls `completion(.failure)` and returns without `group.leave()`, so:
  - every failing task reports its own failure, straight away;
  - success is reported only when no task failed (`FileOperations.CopyFiles`);
  - the `notify` block never runs after a failure.
- **Deduplication.** The design describes the sources as deduplicated. The code copies the list as given, so a repeated name overwrites earlier copies in the flat destination (`FileOperations.FlatCopyLastWins`).
- **Closing the files.** The design says both handles are closed on every path. The code calls `close()` on them only after a successful copy, so only that path can report a close error. On the throwing paths the handles are released when the task returns, without an explicit close.

## Model

| member | source | states |
|---|---|---|
| Paths.Join | AVCHDVideoImporter/DriveManager.swift:26 | `appendingPathComponent` keeps the directory as a prefix of the result and adds at least the component's length |
| Paths.LastComponent | AVCHDVideoImporter/DriveManager.swift:12 | `lastPathComponent` never contains a `/` |
| Paths.AfterLastDot | AVCHDVideoImporter/DriveManager.swift:30 | the extension text never contains a `.`, nor a `/` when the name has none |
| Paths.Upper | AVCHDVideoImporter/DriveManager.swift:30 | ASCII `uppercased()`: same length, no lower-case letter left, every other character unchanged |
| Paths.Lower | AVCHDVideoImporter/DriveManager.swift:211 | ASCII `lowercased()`: same length, no upper-case letter left, every other character unchanged |
| Paths.Extension | AVCHDVideoImporter/DriveManager.swift:30 | `pathExtension` contains neither `.` nor `/` |
| Paths.IsTransportStream | AVCHDVideoImporter/DriveManager.swift:30 | the stream filter `pathExtension.uppercased() == "MTS"`; characterised by `Paths.TransportStreamIgnoresCase` |
| Paths.IsContainerVideo | AVCHDVideoImporter/DriveManager.swift:211-212 | the container test `pathExtension.lowercased()` is `mp4` or `mov`; characterised by `Paths.ContainerVideoIgnoresCase` |
| Paths.UpperMatchesIgnoringCase | AVCHDVideoImporter/DriveManager.swift:30 | upper-casing a text gives the upper-cased word exactly when the text spells the word in any mix of cases |
| Paths.LowerMatchesIgnoringCase | AVCHDVideoImporter/DriveManager.swift:211 | lower-casing a text gives the word exactly when the text spells the word in any mix of cases |
| Paths.TransportStreamIgnoresCase | AVCHDVideoImporter/DriveManager.swift:30 | the `uppercased() == "MTS"` filter accepts exactly the case variants of `mts` |
| Paths.ContainerVideoIgnoresCase | AVCHDVideoImporter/DriveManager.swift:211-212 | the `lowercased()` test accepts exactly the case variants of `mp4` and `mov` |
| Paths.StreamAndContainerDisjoint | AVCHDVideoImporter/DriveManager.swift:191-212 | no file passes both the stream filter and the container test |
| DriveManager.KeepTransportStreams | AVCHDVideoImporter/DriveManager.swift:30 | the filter keeps exactly the listed `.MTS` entries, no more than were listed, without creating repeats |
| DriveManager.KeepTransportStreamsAppend | AVCHDVideoImporter/DriveManager.swift:30 | the filter keeps listing order: filtering a concatenation is concatenating the filtered parts |
| DriveManager.StreamFiles | AVCHDVideoImporter/DriveManager.swift:25-34 | a stream directory contributes exactly its listed `.MTS` entries when it exists and can be listed, nothing otherwise |
| DriveManager.StreamPhase | AVCHDVideoImporter/DriveManager.swift:186-206 | the fixed-path phase, the `STREAM` files then the `PRIVATE` ones, returns only `.MTS` files |
| DriveManager.WalkOf | AVCHDVideoImporter/DriveManager.swift:209 | what the recursive enumerator yields for a root, nothing when no enumerator is created |
| DriveManager.AppendNew | AVCHDVideoImporter/DriveManager.swift:208-219 | the walk keeps what the fixed-path phase found as a prefix, adds exactly the walked `.mp4`/`.mov` files, and creates no repeats |
| DriveManager.AppendNewStep | AVCHDVideoImporter/DriveManager.swift:210-218 | one more walked entry is appended exactly when it is a container video not yet listed |
| DriveManager.Drive.FindVideoFiles | AVCHDVideoImporter/DriveManager.swift:21-48 | `Drive.findVideoFiles` returns the fixed-path phase, only `.MTS` files, with no repeats when the listings have none |
| DriveManager.NewDrive | AVCHDVideoImporter/DriveManager.swift:10-19 | the drive's name is the last path component; its size equals the volume's `systemSize` whenever that is present, and is 0 when the attributes cannot be read or have no size |
| DriveManager.IsSystemVolume | AVCHDVideoImporter/DriveManager.swift:125-153 | the root and the internal names are always system volumes; any other volume is one exactly when its attributes cannot be read or carry no free-node count |
| DriveManager.IsValidCanonDrive | AVCHDVideoImporter/DriveManager.swift:155-180 | `isValidCanonDrive`: true when `AVCHD` exists at the root, or `PRIVATE` and `PRIVATE/AVCHD` exist; its properties are the three lemmas below |
| DriveManager.CanonDriveOnlyChecksMarkers | AVCHDVideoImporter/DriveManager.swift:155-180 | the camera-card test depends only on whether `AVCHD`, `PRIVATE` and `PRIVATE/AVCHD` exist |
| DriveManager.AddingAvchdQualifies | AVCHDVideoImporter/DriveManager.swift:159-175 | a root `AVCHD`, or `PRIVATE` with `PRIVATE/AVCHD`, makes any volume a camera card |
| DriveManager.RemovingAvchdDisqualifies | AVCHDVideoImporter/DriveManager.swift:155-180 | without `AVCHD` at the root and under `PRIVATE`, no volume is a camera card |
| DriveManager.Qualifying | AVCHDVideoImporter/DriveManager.swift:80-109 | the scan keeps exactly the mounted volumes that are not system volumes and are camera cards, in mount order, without creating repeats |
| DriveManager.QualifyingAppend | AVCHDVideoImporter/DriveManager.swift:80-109 | the scan keeps mount order: scanning a concatenation of volume lists is concatenating the scans of the parts |
| DriveManager.QualifyingKeepsMountOrder | AVCHDVideoImporter/DriveManager.swift:80-109 | of two kept volumes, the one mounted first is reported first |
| DriveManager.ScanSkipsSystemVolumes | AVCHDVideoImporter/DriveManager.swift:83-107 | a kept volume is not the root, has no internal name, has readable attributes with a free-node count, and is a camera card |
| DriveManager.StreamPhaseDistinct | AVCHDVideoImporter/DriveManager.swift:186-206 | the two stream directories never contribute the same path, so the fixed-path phase has no repeats |
| DriveManager.DriveManager.constructor | AVCHDVideoImporter/DriveManager.swift:51-53 | a new manager has no drives and is not scanning |
| DriveManager.DriveManager.StartScanning | AVCHDVideoImporter/DriveManager.swift:63-123 | after a scan the drives are exactly those built for the qualifying volumes, in mount order, and scanning is over |
| DriveManager.DrivesFor | AVCHDVideoImporter/DriveManager.swift:103 | the drives appended by a scan: one per volume, in order, each carrying the volume's URL and its last path component as name |
| DriveManager.DriveManager.FindVideoFiles | AVCHDVideoImporter/DriveManager.swift:182-222 | `findVideoFiles(in:)` returns the fixed-path phase followed by the new walked containers: a file is returned exactly when it is a listed stream or a walked `.mp4`/`.mov`, each returned file is one of the three kinds, and nothing repeats when the listings have no repeats |
| FileOperations.SizeAttribute | AVCHDVideoImporter/FileOperations.swift:13-14 | reading the size throws exactly for a missing file; otherwise it gives the file's length when the size key is present, and exactly 0 when it is absent |
| FileOperations.SizeOrZero | AVCHDVideoImporter/FileOperations.swift:29 | `attributes[.size] as? Int64 ?? 0` on the bytes at hand: the file's length when it exists and its attributes carry a size, 0 otherwise |
| FileOperations.TotalSize | AVCHDVideoImporter/FileOperations.swift:11-14 | the total of the first pass is at least the size of every source |
| FileOperations.PrePass | AVCHDVideoImporter/FileOperations.swift:10-19 | the first pass fails exactly when some source is missing, with the error of the first missing one, and otherwise gives the sum of the sizes |
| FileOperations.MeasureSources | AVCHDVideoImporter/FileOperations.swift:10-19 | the loop of the first pass returns what `PrePass` specifies, stopping at the first missing source |
| FileOperations.PrePassKeepsFailure | AVCHDVideoImporter/FileOperations.swift:15-17 | once a prefix of the sources fails the first pass, the whole list fails with the same error |
| FileOperations.DestinationFor | AVCHDVideoImporter/FileOperations.swift:25 | the flat destination path of a source; characterised by `FileOperations.DestinationForInjective` |
| FileOperations.DestinationForInjective | AVCHDVideoImporter/FileOperations.swift:25 | two sources land on the same destination path exactly when their last path components agree |
| FileOperations.CopyTaskSpec | AVCHDVideoImporter/FileOperations.swift:25-58 | one task: a task that throws counts no byte and changes no file, except that one which removed the old destination and then could not create it (`NotWritable`) leaves that path gone; a task that succeeds counts the size it read and leaves the destination file present |
| FileOperations.SizelessSourceLandsEmpty | AVCHDVideoImporter/FileOperations.swift:29-51 | a source whose attributes carry no size is copied as an empty file, counts no bytes, and its task still succeeds |
| FileOperations.CopyTaskOverwrites | AVCHDVideoImporter/FileOperations.swift:27-58 | a task succeeds exactly when the source exists and is readable and the destination path can be removed and created; it then replaces the destination with the source's bytes (all of them when the size is known); whatever its outcome it changes no other path; a failing task keeps the destination as it was unless it reports `NotWritable` for it, in which case the destination is gone |
| FileOperations.RunTasks | AVCHDVideoImporter/FileOperations.swift:22-62 | the serial queue reports at most one error per source |
| FileOperations.RunSucceedsIff | AVCHDVideoImporter/FileOperations.swift:22-62 | when every source exists, the queue reports no failure exactly when every source is readable and every destination path can be removed and created |
| FileOperations.RunKeepsSources | AVCHDVideoImporter/FileOperations.swift:31-36 | a path present before the run is present after it unless some task reported `NotWritable` for it, having removed it and then failed to create it |
| FileOperations.RunTasksPrefix | AVCHDVideoImporter/FileOperations.swift:22-24 | the tasks of one more source run on what the earlier tasks left |
| FileOperations.RunKeepsOtherPaths | AVCHDVideoImporter/FileOperations.swift:22-62 | running all tasks changes no path that is not a destination path |
| FileOperations.RunCopiesWithinTotal | AVCHDVideoImporter/FileOperations.swift:7-62 | when no destination is a source, the bytes copied never exceed the first pass's total, and equal it when no task fails |
| FileOperations.OverlappingSourceOvershootsTotal | AVCHDVideoImporter/FileOperations.swift:7-62 | copying `/c/a` (3 bytes) and `/d/a` (1 byte) into `/d` succeeds but counts 6 bytes against a total of 4 |
| FileOperations.AvoidanceOfPrefix | AVCHDVideoImporter/FileOperations.swift:22-25 | dropping the last source keeps the other sources clear of every destination path |
| FileOperations.LastTaskWrites | AVCHDVideoImporter/FileOperations.swift:25-51 | in a run without failures, the last task leaves its destination holding its source's bytes |
| FileOperations.FlatCopyLastWins | AVCHDVideoImporter/FileOperations.swift:22-36 | in a run without failures, each destination path holds the bytes of the last source with that name |
| FileOperations.FailuresReportedAppend | AVCHDVideoImporter/FileOperations.swift:56 | the failures reported by a longer run extend those of the shorter run |
| FileOperations.FailuresReported | AVCHDVideoImporter/FileOperations.swift:56 | the `completion(.failure)` calls of the failing tasks: one per error, none of them a success |
| FileOperations.ChunkCountIsCeiling | AVCHDVideoImporter/FileOperations.swift:38-51 | a file takes ceil(size / 1 MiB) loop iterations, and a zero-size file takes none |
| FileOperations.ChunkCount | AVCHDVideoImporter/FileOperations.swift:42 | the number of iterations of the `while bytesRead < fileSize` loop; characterised by `FileOperations.ChunkCountFits`, `FileOperations.ChunkCountUnique` and `FileOperations.ChunkCountIsCeiling` |
| FileOperations.TaskReports | AVCHDVideoImporter/FileOperations.swift:42-50 | the progress values one task reports; characterised by `FileOperations.TaskReportsAt` and `FileOperations.TaskReportsRise` |
| FileOperations.RunReports | AVCHDVideoImporter/FileOperations.swift:22-50 | the progress values of a whole run, task after task; characterised by `FileOperations.RunReportsPrefix` and `FileOperations.RunReportsRise` |
| FileOperations.ChunkCountFits | AVCHDVideoImporter/FileOperations.swift:38-51 | `ChunkCount(size)` chunks of at most 1 MiB, all but the last full, make up `size` bytes |
| FileOperations.ChunkCountUnique | AVCHDVideoImporter/FileOperations.swift:38-51 | only one chunk count fits a size, so the loop's iteration count is `ChunkCount(size)` |
| FileOperations.NextChunk | AVCHDVideoImporter/FileOperations.swift:43-45 | one more chunk, read after full buffers, brings the count to the next full buffer or to the file's end and adds that count as the next report |
| FileOperations.ChunkReportsAt | AVCHDVideoImporter/FileOperations.swift:42-50 | the `k`-th progress value of a task is the count before it plus the smaller of `(k + 1)` MiB and the file size |
| FileOperations.TaskReportsAt | AVCHDVideoImporter/FileOperations.swift:42-50 | a task reports once per chunk, and report `k` is the count before it plus the smaller of `(k + 1)` MiB and the file size |
| FileOperations.ChunksDone | AVCHDVideoImporter/FileOperations.swift:42-50 | once the chunks read make up the whole file, the reports made are all of the task's reports |
| FileOperations.TaskReportsRise | AVCHDVideoImporter/FileOperations.swift:42-50 | a task's reports number ceil(size / 1 MiB), rise strictly, stay above the count before the task and end at it plus the size; an empty file reports nothing |
| FileOperations.TraceExtends | AVCHDVideoImporter/FileOperations.swift:42-50 | appending a task's reports to a rising trace that ends at the current count keeps it rising, now ending at the count plus the size |
| FileOperations.RunReportsPrefix | AVCHDVideoImporter/FileOperations.swift:22-50 | the reports of one more source are those of the earlier sources followed by its own task's reports |
| FileOperations.RunReportsRise | AVCHDVideoImporter/FileOperations.swift:22-50 | the reports of a whole run rise strictly and end at the bytes the run copied |
| FileOperations.CopyTaskSucceedsIff | AVCHDVideoImporter/FileOperations.swift:25-36 | a task throws exactly when its source is missing or unreadable or its destination path cannot be removed or created |
| FileOperations.FailedCreateLosesDestination | AVCHDVideoImporter/FileOperations.swift:31-36 | when the existing destination can be removed but not created again, the task removes it, ignores the failed `createFile`, throws `NotWritable` on opening it for writing, and leaves the old file gone and every other path as it was |
| FileOperations.ReadUpTo | AVCHDVideoImporter/FileOperations.swift:43 | `read(upToCount:)` returns at most the count, something whenever bytes remain, and exactly the next bytes of the source |
| FileOperations.CopyJob.constructor | AVCHDVideoImporter/FileOperations.swift:6-8 | a job starts with zero totals, an empty group and no callbacks made |
| FileOperations.CopyJob.CopyChunks | AVCHDVideoImporter/FileOperations.swift:38-51 | the chunk loop leaves the destination holding the source's first `fileSize` bytes and adds `fileSize` to `copiedBytes`; it appends exactly `TaskReports(old copiedBytes, fileSize)` to the progress reports, one per chunk, report `k` being the earlier count plus the smaller of `(k + 1)` MiB and `fileSize` (`FileOperations.TaskReportsAt`); a rising trace stays rising and ends at `copiedBytes` |
| FileOperations.CopyJob.RunTask | AVCHDVideoImporter/FileOperations.swift:24-61 | one task does what `CopyTaskSpec` specifies to the files and the byte count; it reports a failure exactly when it throws, and leaves the group exactly when it does not; it appends exactly `TaskReports` of the bytes it copies to the progress reports, none when it throws |
| FileOperations.CopyJob.RunQueue | AVCHDVideoImporter/FileOperations.swift:22-62 | the queue leaves the files and byte count `RunTasks` specifies, reports one failure per failing task in order, leaves one task per failure in the group, and reports exactly the progress values `RunReports` specifies, strictly rising and ending at the bytes copied |
| FileOperations.CopyFiles | AVCHDVideoImporter/FileOperations.swift:4-67 | if the first pass fails, one failure is reported and nothing changes; otherwise the tasks run, each failure is reported, and success is reported exactly when no task failed, then as the only completion; the progress values are exactly those `RunReports` specifies and rise strictly; when no destination is a source, the copied bytes stay within the total and reach it on success |
| VideoListView.NewVideoFile | VideoCardImporter/VideoListView.swift:11-23 | a new record is unselected and named by the last path component; it has size 0 and the current date when the attributes cannot be read, and otherwise takes each attribute that is present |
| VideoListView.UrlsBetween | VideoCardImporter/VideoListView.swift:72-76 | the inclusive range of rows the shift-click loop visits contains the URL of every row in it |
| VideoListView.SelectionAfter | VideoCardImporter/VideoListView.swift:66-90 | after any click the clicked row's URL is selected exactly when the click asked for selection |
| VideoListView.UrlsBetweenDependsOnlyOnUrls | VideoCardImporter/VideoListView.swift:75-76 | the range loop reads only the rows' URLs |
| VideoListView.SelectionDependsOnlyOnUrls | VideoCardImporter/VideoListView.swift:66-94 | a click's effect depends on the rows' URLs only, never on their `isSelected` flags, names, sizes or dates |
| VideoListView.UrlsBetweenMembership | VideoCardImporter/VideoListView.swift:72-76 | a URL is in the range exactly when some row between the two indices, both included, carries it |
| VideoListView.Apply | VideoCardImporter/VideoListView.swift:77-89 | inserting or removing a set of URLs: afterwards a URL in the set is selected exactly when the click asked for selection, and every other URL keeps its state |
| VideoListView.SingleClickSetsOnlyThatUrl | VideoCardImporter/VideoListView.swift:83-90 | a plain click, or a shift-click with no earlier click, inserts or removes the clicked URL and leaves every other URL as it was |
| VideoListView.RangeClickSetsEveryRowBetween | VideoCardImporter/VideoListView.swift:72-82 | a shift-click sets every row between the two clicks, both ends included, whichever came first |
| VideoListView.RangeClickLeavesOthers | VideoCardImporter/VideoListView.swift:75-82 | a shift-click leaves alone every URL that no row between the two clicks carries, including URLs not in the list |
| VideoListView.RangeClickIgnoresOrder | VideoCardImporter/VideoListView.swift:72 | a shift-click from a to b selects the same rows as one from b to a |
| VideoListView.RepeatedClickIsIdempotent | VideoCardImporter/VideoListView.swift:66-94 | repeating the same click leaves the selection unchanged |
| VideoListView.VideoListView.constructor | VideoCardImporter/VideoListView.swift:28-34 | a list starts with the given rows and selection and no remembered click |
| VideoListView.VideoListView.HandleSelection | VideoCardImporter/VideoListView.swift:66-94 | a click changes the selection as `SelectionAfter` specifies, remembers the clicked index, and keeps the remembered index valid |

## Findings

| source | as written | input that shows it | evidently intended | confidence | as-written member | corrected member |
|---|---|---|---|---|---|---|
| AVCHDVideoImporter/FileOperations.swift:10-51 | the total is measured once, before any task runs, but each task re-reads its source's size after earlier tasks may have overwritten that source in the flat destination | sources `/c/a` (3 bytes) and `/d/a` (1 byte), destination `/d`: the first task overwrites `/d/a` with 3 bytes, so 6 bytes are copied against a total of 4 and progress reaches 1.5 | copied bytes never exceed the total, so progress stays within 0 to 1; this holds once no source is the destination path of any source | not executed; high that the overshoot follows from the code, medium that it was unintended | FileOperations.OverlappingSourceOvershootsTotal | FileOperations.RunCopiesWithinTotal |

## Left out

- Concurrency and timing. The scan's background queue, its hops to the main queue, the 0.5 s start delay and the 1.5 s minimum scan time are not modelled. A scan is one atomic step that ends with `isScanning` false.
- The copy's queues. Tasks run in source order, as the serial queue runs them. Progress callbacks are applied at once, not on the main queue.
- FileOperations.CopyJob.CopyChunks: progress counts the length of the chunk just read. In the code, the main-queue block reads the captured `buffer` variable later, when a later chunk may already have replaced it. That race is not modelled.
- The progress fraction is the recorded `copiedBytes` value. Its floating-point division by `totalBytes` is left out, including the division by zero when the total is 0.
- 64-bit overflow of `totalBytes`, `copiedBytes` and sizes: integers are unbounded.
- Read, write and close errors in the middle of a copy are not modelled. Only opening the source, removing the destination and creating it fail; removing can fail only together with creating (`readOnly`), while creating can fail alone (`notCreatable`).
- FileOperations.CopyTaskSpec: a destination path that can be created but not removed is not modelled, because `readOnly` makes both fail. So a run in which an earlier task creates such a path and a later task then fails to remove it is not represented.
- FileOperations.CopyJob.CopyChunks: requires the size read at the start of a task to be 0 or the source's length, which is what makes the chunk loop end. In the code, a file that yields fewer bytes than that size (it shrank, or its size attribute overstates it) makes `read(upToCount:) ?? Data()` return empty data forever, so `while bytesRead < fileSize` never terminates. The source's bytes are the snapshot taken when it is opened.
- Opening and closing handles is not modelled beyond the open errors. The explicit `close()` calls on the success path, and their possible errors, change neither the files nor the callbacks here.
- `pathExtension` for names with a leading dot (such as `.mts`) is not special-cased: `Paths.Extension` treats the text after the last dot as the extension.
- Paths.LastComponent: returns "" for the root path, whose `lastPathComponent` in Foundation is "/". No modelled call reaches this, because `IsSystemVolume` tests for "/" first.
- Case mapping covers ASCII letters only; Unicode case folding is not modelled.
- The recursive enumerator is an input sequence. Its skipping of hidden files and package contents, and the order it yields entries in, are given, not computed. `DriveManager.FindVideoFiles` compares URLs by path.
- `contentsOfDirectory` on each volume root in `startScanning` only prints, so it is omitted. Logging is omitted everywhere.
- `scanForVideos`, the SwiftUI views (`VideoRow`, the drive list, the import window) and the whole `CanonVideoImporter` target are not part of this model.
- VideoListView.VideoListView.HandleSelection: requires a valid index and a valid remembered click. The code traps on an invalid subscript. Reloading the rows after a click, which could make the remembered index stale, is not modelled.
- `UUID` identifiers and dates are not modelled beyond a number, and the clock reading is a parameter.
