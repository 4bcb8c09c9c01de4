/**
 * Bulk copy with byte accounting: `FileOperations.copyFiles`.
 *
 * The copy tasks go to a serial queue, so they run one after another in the
 * order of the sources; the model runs them in that order. The file system is
 * a `FileSystem` object whose map of files the copy changes in place, with a
 * fixed set of faults deciding which framework calls throw. The two callbacks
 * are recorded: every `progress` call as the value of `copiedBytes` it divides
 * by `totalBytes`, every `completion` call as a `Completion`.
 */
module FileOperations {
  import opened Wrappers
  import opened Paths

  newtype Byte = x: int | 0 <= x < 256

  /** `bufferSize`: the most bytes one read asks for (1 MiB). */
  const BufferSize: nat := 1024 * 1024

  /** The errors the framework calls of a copy throw. */
  datatype CopyError =
    | NoSuchFile(path: Path)    // `attributesOfItem` or `FileHandle(forReadingFrom:)` on a missing file
    | NotReadable(path: Path)   // `FileHandle(forReadingFrom:)` refused
    | NotRemovable(path: Path)  // `removeItem(at:)` refused
    | NotWritable(path: Path)   // `FileHandle(forWritingTo:)` on a file `createFile` could not make

  /** One call of the `completion` callback. */
  datatype Completion = Succeeded | Failed(error: CopyError)

  /**
   * Which calls fail, apart from those on missing files:
   * - `unreadable`: files that exist but cannot be opened for reading;
   * - `readOnly`: paths that can be neither removed nor created;
   * - `notCreatable`: paths that can be removed but not created, so that
   *   `createFile` fails after a successful removal;
   * - `sizeless`: files whose attributes carry no size (read as 0).
   */
  datatype Faults = Faults(unreadable: set<Path>, readOnly: set<Path>, notCreatable: set<Path>, sizeless: set<Path>)

  /** The files of every mounted volume, path by path, with their bytes. */
  class FileSystem {
    var files: map<Path, seq<Byte>>
    const faults: Faults

    constructor (files: map<Path, seq<Byte>>, faults: Faults)
      ensures this.files == files && this.faults == faults
    {
      this.files := files;
      this.faults := faults;
    }
  }

  /**
   * `attributesOfItem(atPath:)[.size] as? Int64 ?? 0`, or `None` when the call
   * throws because the file does not exist.
   */
  function SizeAttribute(files: map<Path, seq<Byte>>, faults: Faults, p: Path): (r: Option<nat>)
    ensures r.None? <==> p !in files
    ensures r.Some? ==> r.value == 0 || r.value == |files[p]|
    ensures r.Some? && p !in faults.sizeless ==> r.value == |files[p]|
    ensures r.Some? && p in faults.sizeless ==> r.value == 0
  {
    if p !in files then None
    else if p in faults.sizeless then Some(0)
    else Some(|files[p]|)
  }

  /** The size a copy task reads for a file it has opened: its size attribute, 0 if there is none. */
  function SizeOrZero(files: map<Path, seq<Byte>>, faults: Faults, p: Path): (r: nat)
    ensures r == if p in files && p !in faults.sizeless then |files[p]| else 0
  {
    match SizeAttribute(files, faults, p)
    case Some(n) => n
    case None => 0
  }

  /** The sum of the sources' sizes, a missing size key counting as 0. */
  function TotalSize(files: map<Path, seq<Byte>>, faults: Faults, sources: seq<Path>): (r: nat)
    ensures forall i :: 0 <= i < |sources| ==> SizeOrZero(files, faults, sources[i]) <= r
    decreases |sources|
  {
    if sources == [] then 0
    else TotalSize(files, faults, sources[..|sources| - 1]) + SizeOrZero(files, faults, sources[|sources| - 1])
  }

  /**
   * The first pass: the total size of the sources, or the error for the first
   * source whose attributes cannot be read.
   */
  function PrePass(files: map<Path, seq<Byte>>, faults: Faults, sources: seq<Path>): (r: Result<nat, CopyError>)
    ensures r.Failure? <==> exists j :: 0 <= j < |sources| && sources[j] !in files
    ensures r.Failure? ==> exists j :: (0 <= j < |sources| && sources[j] !in files && r.error == NoSuchFile(sources[j])
      && forall i :: 0 <= i < j ==> sources[i] in files)
    ensures r.Success? ==> r.value == TotalSize(files, faults, sources)
    decreases |sources|
  {
    if sources == [] then Success(0)
    else
      var init := sources[..|sources| - 1];
      var url := sources[|sources| - 1];
      var before := PrePass(files, faults, init);
      assert forall j :: 0 <= j < |init| ==> init[j] == sources[j];
      if before.Failure? then before
      else match SizeAttribute(files, faults, url)
        case None => Failure(NoSuchFile(url))
        case Some(n) => Success(before.value + n)
  }

  /** `destinationURL.appendingPathComponent(url.lastPathComponent)`: a flat copy into one directory. */
  function DestinationFor(destination: Path, url: Path): Path {
    Join(destination, LastComponent(url))
  }

  /** Two sources land on the same destination path exactly when their names agree. */
  lemma DestinationForInjective(destination: Path, url1: Path, url2: Path)
    ensures DestinationFor(destination, url1) == DestinationFor(destination, url2)
      <==> LastComponent(url1) == LastComponent(url2)
  {
    var n1, n2 := LastComponent(url1), LastComponent(url2);
    var d1, d2 := Join(destination, n1), Join(destination, n2);
    if d1 == d2 {
      var base := if |destination| > 0 && destination[|destination| - 1] == '/' then destination else destination + "/";
      assert d1 == base + n1 && d2 == base + n2;
      assert n1 == d1[|base|..] && n2 == d2[|base|..];
    }
  }

  /** What one copy task does to the files, whether it throws, and how many bytes it writes. */
  datatype TaskOutcome = TaskOutcome(files: map<Path, seq<Byte>>, error: Option<CopyError>, copied: nat)

  /**
   * One copy task: open the source, remove an existing destination, create
   * the destination afresh and fill it with the source's first `fileSize`
   * bytes. A task that throws has written nothing; when it throws because
   * the destination could not be created, the old destination is gone.
   */
  function CopyTaskSpec(files: map<Path, seq<Byte>>, faults: Faults, url: Path, destination: Path): (t: TaskOutcome)
    ensures t.error.Some? ==> (t.copied == 0 &&
      t.files == if t.error == Some(NotWritable(DestinationFor(destination, url)))
        then files - {DestinationFor(destination, url)} else files)
    ensures t.error.None? ==> t.copied == SizeOrZero(files, faults, url) && DestinationFor(destination, url) in t.files
  {
    var target := DestinationFor(destination, url);
    if url !in files then TaskOutcome(files, Some(NoSuchFile(url)), 0)
    else if url in faults.unreadable then TaskOutcome(files, Some(NotReadable(url)), 0)
    else if target in files && target in faults.readOnly then TaskOutcome(files, Some(NotRemovable(target)), 0)
    else if target in faults.readOnly || target in faults.notCreatable then
      TaskOutcome(files - {target}, Some(NotWritable(target)), 0)
    else
      var fileSize := SizeOrZero(files, faults, url);
      TaskOutcome(files[target := files[url][..fileSize]], None, fileSize)
  }

  /**
   * A task succeeds exactly when its source can be opened and its destination
   * can be removed and created; it then overwrites the destination with the
   * source's bytes (all of them when the size attribute is present). Whatever
   * its outcome, it changes no other path. A failing task keeps the
   * destination as it was, unless it removed it and then could not create it.
   */
  lemma CopyTaskOverwrites(files: map<Path, seq<Byte>>, faults: Faults, url: Path, destination: Path)
    ensures var t := CopyTaskSpec(files, faults, url, destination);
      var target := DestinationFor(destination, url);
      (t.error.None? <==> (url in files && url !in faults.unreadable &&
        target !in faults.readOnly && target !in faults.notCreatable)) &&
      (t.error.None? ==> (target in t.files && t.copied == |t.files[target]| &&
        t.files[target] == files[url][..SizeOrZero(files, faults, url)] &&
        (url !in faults.sizeless ==> t.files[target] == files[url]))) &&
      (forall p :: p != target ==> (p in t.files <==> p in files) && (p in files ==> t.files[p] == files[p])) &&
      (t.error.Some? ==> (t.copied == 0 &&
        (target in t.files <==> target in files && t.error != Some(NotWritable(target))) &&
        (target in t.files ==> t.files[target] == files[target])))
  {
  }

  /**
   * The destination exists, can be removed, but cannot be created again:
   * the task removes the old file, ignores the failed `createFile`, and
   * throws when it opens the destination for writing, leaving the old file
   * gone and every other path as it was.
   */
  lemma FailedCreateLosesDestination(files: map<Path, seq<Byte>>, faults: Faults, url: Path, destination: Path)
    requires url in files && url !in faults.unreadable
    requires DestinationFor(destination, url) in files
    requires DestinationFor(destination, url) !in faults.readOnly && DestinationFor(destination, url) in faults.notCreatable
    ensures var t := CopyTaskSpec(files, faults, url, destination);
      var target := DestinationFor(destination, url);
      t.error == Some(NotWritable(target)) && target !in t.files && t.files == files - {target}
  {
  }

  /** Whether a task throws depends only on its source and its destination path. */
  lemma CopyTaskSucceedsIff(files: map<Path, seq<Byte>>, faults: Faults, url: Path, destination: Path)
    ensures CopyTaskSpec(files, faults, url, destination).error.None? <==>
      url in files && url !in faults.unreadable &&
      DestinationFor(destination, url) !in faults.readOnly && DestinationFor(destination, url) !in faults.notCreatable
  {
  }

  /** The tasks of all sources, run in order on the serial queue. */
  datatype RunOutcome = RunOutcome(files: map<Path, seq<Byte>>, errors: seq<CopyError>, copied: nat)

  /** The outcome after one more task, run on the files the earlier tasks left. */
  function RunStep(before: RunOutcome, faults: Faults, url: Path, destination: Path): RunOutcome {
    var t := CopyTaskSpec(before.files, faults, url, destination);
    RunOutcome(t.files, before.errors + (if t.error.Some? then [t.error.value] else []), before.copied + t.copied)
  }

  function RunTasks(files: map<Path, seq<Byte>>, faults: Faults, sources: seq<Path>, destination: Path): (r: RunOutcome)
    ensures |r.errors| <= |sources|
    decreases |sources|
  {
    if sources == [] then RunOutcome(files, [], 0)
    else RunStep(RunTasks(files, faults, sources[..|sources| - 1], destination), faults, sources[|sources| - 1], destination)
  }

  /**
   * A source without a size key is copied as an empty file, and its task
   * still succeeds: the size read is 0, so the chunk loop never runs.
   */
  lemma SizelessSourceLandsEmpty(files: map<Path, seq<Byte>>, faults: Faults, url: Path, destination: Path)
    requires url in files && url in faults.sizeless && url !in faults.unreadable
    requires DestinationFor(destination, url) !in faults.readOnly && DestinationFor(destination, url) !in faults.notCreatable
    ensures var t := CopyTaskSpec(files, faults, url, destination);
      t.error.None? && t.copied == 0 && t.files[DestinationFor(destination, url)] == []
  {
    assert SizeOrZero(files, faults, url) == 0;
  }

  /**
   * When every source exists, the run reports no error exactly when every
   * source is readable and every destination path can be removed and created.
   */
  lemma {:induction false} RunSucceedsIff(
    files: map<Path, seq<Byte>>, faults: Faults, sources: seq<Path>, destination: Path)
    requires forall i :: 0 <= i < |sources| ==> sources[i] in files
    ensures RunTasks(files, faults, sources, destination).errors == [] <==>
      forall i :: 0 <= i < |sources| ==>
        sources[i] !in faults.unreadable && DestinationFor(destination, sources[i]) !in faults.readOnly &&
        DestinationFor(destination, sources[i]) !in faults.notCreatable
    decreases |sources|
  {
    if sources != [] {
      var init := sources[..|sources| - 1];
      var url := sources[|sources| - 1];
      assert forall i :: 0 <= i < |init| ==> init[i] == sources[i];
      RunSucceedsIff(files, faults, init, destination);
      var before := RunTasks(files, faults, init, destination);
      var t := CopyTaskSpec(before.files, faults, url, destination);
      assert RunTasks(files, faults, sources, destination).errors
        == before.errors + if t.error.Some? then [t.error.value] else [];
      if before.errors == [] {
        RunKeepsSources(files, faults, init, destination, url);
        CopyTaskSucceedsIff(before.files, faults, url, destination);
      }
    }
  }

  /**
   * A file present before the run is present after it, unless some task
   * removed it and then could not create it again, which that task reports.
   */
  lemma {:induction false} RunKeepsSources(
    files: map<Path, seq<Byte>>, faults: Faults, sources: seq<Path>, destination: Path, p: Path)
    requires p in files
    ensures var r := RunTasks(files, faults, sources, destination);
      NotWritable(p) !in r.errors ==> p in r.files
    decreases |sources|
  {
    if sources != [] {
      RunKeepsSources(files, faults, sources[..|sources| - 1], destination, p);
      var before := RunTasks(files, faults, sources[..|sources| - 1], destination);
      CopyTaskOverwrites(before.files, faults, sources[|sources| - 1], destination);
    }
  }

  lemma RunTasksPrefix(files: map<Path, seq<Byte>>, faults: Faults, sources: seq<Path>, destination: Path, k: nat)
    requires k < |sources|
    ensures RunTasks(files, faults, sources[..k + 1], destination)
      == RunStep(RunTasks(files, faults, sources[..k], destination), faults, sources[k], destination)
  {
    assert sources[..k + 1][..k] == sources[..k];
  }

  /** No source is the destination path of any source, so no task overwrites a later task's source. */
  predicate DestinationsAvoidSources(sources: seq<Path>, destination: Path) {
    forall i, j :: 0 <= i < |sources| && 0 <= j < |sources| ==> sources[i] != DestinationFor(destination, sources[j])
  }

  /** Running the tasks changes no path that is not the destination of one of them. */
  lemma {:induction false} RunKeepsOtherPaths(
    files: map<Path, seq<Byte>>, faults: Faults, sources: seq<Path>, destination: Path, p: Path)
    requires forall j :: 0 <= j < |sources| ==> p != DestinationFor(destination, sources[j])
    ensures var r := RunTasks(files, faults, sources, destination);
      (p in r.files <==> p in files) && (p in files ==> r.files[p] == files[p])
    decreases |sources|
  {
    if sources != [] {
      RunKeepsOtherPaths(files, faults, sources[..|sources| - 1], destination, p);
      var before := RunTasks(files, faults, sources[..|sources| - 1], destination);
      CopyTaskOverwrites(before.files, faults, sources[|sources| - 1], destination);
    }
  }

  /**
   * When no task overwrites a source, the bytes written never exceed the
   * first pass's total, and they reach it when no task throws.
   */
  lemma {:induction false} RunCopiesWithinTotal(
    files: map<Path, seq<Byte>>, faults: Faults, sources: seq<Path>, destination: Path)
    requires DestinationsAvoidSources(sources, destination)
    ensures var r := RunTasks(files, faults, sources, destination);
      r.copied <= TotalSize(files, faults, sources) &&
      (r.errors == [] ==> r.copied == TotalSize(files, faults, sources))
    decreases |sources|
  {
    if sources != [] {
      var init := sources[..|sources| - 1];
      var url := sources[|sources| - 1];
      assert DestinationsAvoidSources(init, destination) by {
        assert forall j :: 0 <= j < |init| ==> init[j] == sources[j];
      }
      RunCopiesWithinTotal(files, faults, init, destination);
      assert forall j :: 0 <= j < |init| ==> url != DestinationFor(destination, init[j]) by {
        assert forall j :: 0 <= j < |init| ==> init[j] == sources[j];
      }
      RunKeepsOtherPaths(files, faults, init, destination, url);
      var before := RunTasks(files, faults, init, destination);
      CopyTaskOverwrites(before.files, faults, url, destination);
      assert SizeOrZero(before.files, faults, url) == SizeOrZero(files, faults, url);
    }
  }

  /**
   * Without `DestinationsAvoidSources` the bound fails: copying `/c/a` (3
   * bytes) and `/d/a` (1 byte) into `/d` first overwrites `/d/a` with 3
   * bytes, then copies those 3 bytes again, so 6 bytes are counted against
   * a total of 4 and the last progress fraction is 1.5.
   */
  lemma OverlappingSourceOvershootsTotal()
    ensures var files := map["/c/a" := [1, 2, 3], "/d/a" := [4]];
      var faults := Faults({}, {}, {}, {});
      var run := RunTasks(files, faults, ["/c/a", "/d/a"], "/d");
      run.errors == [] && TotalSize(files, faults, ["/c/a", "/d/a"]) == 4 && run.copied == 6
  {
    var files: map<Path, seq<Byte>> := map["/c/a" := [1, 2, 3], "/d/a" := [4]];
    var faults := Faults({}, {}, {}, {});
    var sources: seq<Path> := ["/c/a", "/d/a"];
    assert LastComponent("/c/a") == "a" by {
      assert "/c/a"[..3] == "/c/";
      assert LastComponent("/c/") == "";
    }
    assert LastComponent("/d/a") == "a" by {
      assert "/d/a"[..3] == "/d/";
      assert LastComponent("/d/") == "";
    }
    assert DestinationFor("/d", "/c/a") == "/d/a";
    assert DestinationFor("/d", "/d/a") == "/d/a";
    assert sources[..1] == ["/c/a"] && sources[..1][..0] == [];
    var t1 := CopyTaskSpec(files, faults, "/c/a", "/d");
    assert SizeOrZero(files, faults, "/c/a") == 3;
    assert files["/c/a"][..3] == [1, 2, 3];
    assert "/d/a" !in faults.readOnly && "/c/a" !in faults.unreadable;
    assert t1 == TaskOutcome(files["/d/a" := [1, 2, 3]], None, 3);
    assert RunTasks(files, faults, [], "/d") == RunOutcome(files, [], 0);
    var first := RunTasks(files, faults, sources[..1], "/d");
    assert first == RunStep(RunOutcome(files, [], 0), faults, "/c/a", "/d");
    assert first.files == files["/d/a" := [1, 2, 3]] && first.copied == 3 && first.errors == [];
    assert TotalSize(files, faults, sources[..1]) == 3;
    var t2 := CopyTaskSpec(first.files, faults, "/d/a", "/d");
    assert SizeOrZero(first.files, faults, "/d/a") == 3;
    assert t2.error == None && t2.copied == 3;
    assert RunTasks(files, faults, sources, "/d") == RunStep(first, faults, "/d/a", "/d");
  }

  /** `url` is the last source with its name: no later source lands on the same destination path. */
  predicate LastWithName(sources: seq<Path>, i: nat)
    requires i < |sources|
  {
    forall j :: i < j < |sources| ==> LastComponent(sources[j]) != LastComponent(sources[i])
  }

  /** Dropping the last source keeps the other sources clear of every destination. */
  lemma AvoidanceOfPrefix(sources: seq<Path>, destination: Path)
    requires sources != [] && DestinationsAvoidSources(sources, destination)
    ensures DestinationsAvoidSources(sources[..|sources| - 1], destination)
    ensures forall j :: 0 <= j < |sources| - 1 ==> sources[|sources| - 1] != DestinationFor(destination, sources[j])
  {
    assert forall j :: 0 <= j < |sources| - 1 ==> sources[..|sources| - 1][j] == sources[j];
  }

  /**
   * The last task of a run without failures, whose source no earlier task
   * overwrote, leaves its destination holding that source's bytes.
   */
  lemma LastTaskWrites(files: map<Path, seq<Byte>>, faults: Faults, sources: seq<Path>, destination: Path)
    requires sources != [] && DestinationsAvoidSources(sources, destination)
    requires RunTasks(files, faults, sources, destination).errors == []
    ensures var url := sources[|sources| - 1];
      var before := RunTasks(files, faults, sources[..|sources| - 1], destination);
      before.errors == [] && url in files &&
      RunTasks(files, faults, sources, destination).files
        == before.files[DestinationFor(destination, url) := files[url][..SizeOrZero(files, faults, url)]]
  {
    var init := sources[..|sources| - 1];
    var url := sources[|sources| - 1];
    var before := RunTasks(files, faults, init, destination);
    AvoidanceOfPrefix(sources, destination);
    RunKeepsOtherPaths(files, faults, init, destination, url);
    assert SizeOrZero(before.files, faults, url) == SizeOrZero(files, faults, url);
  }

  /**
   * Flat copy: when every task succeeds and no task overwrites a source, the
   * destination path of each name holds the bytes of the last source with
   * that name.
   */
  lemma {:induction false} FlatCopyLastWins(
    files: map<Path, seq<Byte>>, faults: Faults, sources: seq<Path>, destination: Path, i: nat)
    requires DestinationsAvoidSources(sources, destination)
    requires RunTasks(files, faults, sources, destination).errors == []
    requires i < |sources| && LastWithName(sources, i)
    ensures var r := RunTasks(files, faults, sources, destination);
      var target := DestinationFor(destination, sources[i]);
      sources[i] in files && target in r.files &&
      r.files[target] == files[sources[i]][..SizeOrZero(files, faults, sources[i])]
    decreases |sources|
  {
    var init := sources[..|sources| - 1];
    var url := sources[|sources| - 1];
    LastTaskWrites(files, faults, sources, destination);
    if i < |init| {
      AvoidanceOfPrefix(sources, destination);
      assert init[i] == sources[i];
      assert LastWithName(init, i);
      FlatCopyLastWins(files, faults, init, destination, i);
      DestinationForInjective(destination, url, sources[i]);
    }
  }

  /** The `completion` calls the tasks make: one failure per task that threw, in task order. */
  function FailuresReported(errors: seq<CopyError>): (r: seq<Completion>)
    ensures |r| == |errors| && Succeeded !in r
  {
    seq(|errors|, i requires 0 <= i < |errors| => Failed(errors[i]))
  }

  /** The progress values reported so far: strictly rising, the last one the current count. */
  predicate ProgressTrace(reports: seq<nat>, copiedBytes: nat) {
    (forall i, j :: 0 <= i < j < |reports| ==> reports[i] < reports[j]) &&
    (|reports| > 0 ==> reports[|reports| - 1] == copiedBytes)
  }

  /** `n` chunks of at most `BufferSize` bytes, all but the last full, make up `size` bytes. */
  predicate IsChunkCount(n: nat, size: nat) {
    size <= n * BufferSize && (n == 0 || (n - 1) * BufferSize < size)
  }

  /** A zero-size file takes no iteration; a file of `size` bytes takes ceil(size / 1 MiB). */
  lemma ChunkCountIsCeiling(n: nat, size: nat)
    requires IsChunkCount(n, size)
    ensures n == (size + BufferSize - 1) / BufferSize
    ensures size == 0 ==> n == 0
  {
  }

  /** How many chunks a file of `size` bytes takes: one per full buffer, plus one for a remainder. */
  function ChunkCount(size: nat): nat
    decreases size
  {
    if size == 0 then 0 else if size <= BufferSize then 1 else 1 + ChunkCount(size - BufferSize)
  }

  lemma {:induction false} ChunkCountFits(size: nat)
    ensures IsChunkCount(ChunkCount(size), size)
    decreases size
  {
    if size > BufferSize {
      ChunkCountFits(size - BufferSize);
    }
  }

  /** Only one chunk count fits a size. */
  lemma {:induction false} ChunkCountUnique(n: nat, size: nat)
    requires IsChunkCount(n, size)
    ensures n == ChunkCount(size)
    decreases size
  {
    if size > BufferSize {
      assert n >= 2;
      ChunkCountUnique(n - 1, size - BufferSize);
    }
  }

  /** The running count after chunk `k` (from 0) of a `size`-byte file: `k + 1` full buffers, capped at `size`. */
  function ChunkProgress(k: nat, size: nat): nat {
    if (k + 1) * BufferSize < size then (k + 1) * BufferSize else size
  }

  /** The first `n` progress values of a file of `size` bytes copied after `base` bytes. */
  function ChunkReports(base: nat, size: nat, n: nat): seq<nat> {
    if n == 0 then [] else ChunkReports(base, size, n - 1) + [base + ChunkProgress(n - 1, size)]
  }

  /** Every progress value one task reports: one per chunk, each the running byte count. */
  function TaskReports(base: nat, size: nat): seq<nat> {
    ChunkReports(base, size, ChunkCount(size))
  }

  /** Where the copy loop stands: `bytesRead` bytes read in `chunks` chunks, all full until the end of the file. */
  predicate ChunksRead(size: nat, chunks: nat, bytesRead: nat) {
    bytesRead <= size && IsChunkCount(chunks, bytesRead) && (bytesRead < size ==> bytesRead == chunks * BufferSize)
  }

  /**
   * One more chunk, read after `chunks` full buffers, brings the count to
   * `ChunkProgress(chunks, size)` and adds that count to the reports.
   */
  lemma NextChunk(base: nat, size: nat, chunks: nat, bytesRead: nat, len: nat)
    requires ChunksRead(size, chunks, bytesRead) && bytesRead < size
    requires len == if bytesRead + BufferSize <= size then BufferSize else size - bytesRead
    ensures bytesRead + len == ChunkProgress(chunks, size)
    ensures ChunksRead(size, chunks + 1, bytesRead + len)
    ensures ChunkReports(base, size, chunks + 1) == ChunkReports(base, size, chunks) + [base + bytesRead + len]
  {
  }

  /** The `k`-th of the first `n` reports is the running count after chunk `k`. */
  lemma {:induction false} ChunkReportsAt(base: nat, size: nat, n: nat, k: nat)
    requires k < n
    ensures |ChunkReports(base, size, n)| == n
    ensures ChunkReports(base, size, n)[k] == base + ChunkProgress(k, size)
  {
    if k < n - 1 {
      ChunkReportsAt(base, size, n - 1, k);
    } else if n > 1 {
      ChunkReportsAt(base, size, n - 1, 0);
    }
  }

  /**
   * A task reports once per chunk, and report `k` is the running count after
   * chunk `k`: `k + 1` full buffers, or the whole file for the last chunk.
   */
  lemma TaskReportsAt(base: nat, size: nat)
    ensures |TaskReports(base, size)| == ChunkCount(size)
    ensures forall k :: 0 <= k < ChunkCount(size) ==> TaskReports(base, size)[k] == base + ChunkProgress(k, size)
  {
    var n := ChunkCount(size);
    if n > 0 {
      ChunkReportsAt(base, size, n, 0);
    }
    forall k | 0 <= k < n
      ensures TaskReports(base, size)[k] == base + ChunkProgress(k, size)
    {
      ChunkReportsAt(base, size, n, k);
    }
  }

  /** Once `n` chunks make up the whole file, the first `n` reports are all of the task's reports. */
  lemma ChunksDone(base: nat, size: nat, n: nat)
    requires IsChunkCount(n, size)
    ensures ChunkReports(base, size, n) == TaskReports(base, size)
  {
    ChunkCountUnique(n, size);
  }

  /**
   * The reports of one task take ceil(size / 1 MiB) values, rise strictly,
   * and end at `base + size`; an empty file reports nothing.
   */
  lemma TaskReportsRise(base: nat, size: nat)
    ensures IsChunkCount(|TaskReports(base, size)|, size)
    ensures ProgressTrace(TaskReports(base, size), base + size)
    ensures size == 0 <==> TaskReports(base, size) == []
    ensures forall k :: 0 <= k < |TaskReports(base, size)| ==> base < TaskReports(base, size)[k]
  {
    var n := ChunkCount(size);
    var r := TaskReports(base, size);
    ChunkCountFits(size);
    if n > 0 {
      ChunkReportsAt(base, size, n, 0);
      ChunkReportsAt(base, size, n, n - 1);
    }
    forall k | 0 <= k < |r|
      ensures base < r[k]
    {
      ChunkReportsAt(base, size, n, k);
    }
    forall i, j | 0 <= i < j < |r|
      ensures r[i] < r[j]
    {
      ChunkReportsAt(base, size, n, i);
      ChunkReportsAt(base, size, n, j);
      assert (i + 1) * BufferSize < size;
    }
  }

  /** Appending one task's reports to a trace that ends at `base` keeps it rising, now ending at `base + size`. */
  lemma TraceExtends(reports: seq<nat>, base: nat, size: nat)
    requires ProgressTrace(reports, base)
    ensures ProgressTrace(reports + TaskReports(base, size), base + size)
  {
    var r := TaskReports(base, size);
    TaskReportsRise(base, size);
    if |reports| > 0 {
      assert reports[|reports| - 1] == base;
    }
    var all := reports + r;
    forall i, j | 0 <= i < j < |all|
      ensures all[i] < all[j]
    {
      if j < |reports| {
      } else if i < |reports| {
        assert all[i] <= base && base < r[j - |reports|];
      } else {
        assert all[i] == r[i - |reports|] && all[j] == r[j - |reports|];
      }
    }
  }

  /** Every progress value the tasks of a run report, in order: each task's chunks, counted on from the bytes before it. */
  function RunReports(files: map<Path, seq<Byte>>, faults: Faults, sources: seq<Path>, destination: Path): seq<nat>
    decreases |sources|
  {
    if sources == [] then []
    else
      var init := sources[..|sources| - 1];
      var before := RunTasks(files, faults, init, destination);
      var t := CopyTaskSpec(before.files, faults, sources[|sources| - 1], destination);
      RunReports(files, faults, init, destination) + TaskReports(before.copied, t.copied)
  }

  lemma RunReportsPrefix(files: map<Path, seq<Byte>>, faults: Faults, sources: seq<Path>, destination: Path, k: nat)
    requires k < |sources|
    ensures var before := RunTasks(files, faults, sources[..k], destination);
      RunReports(files, faults, sources[..k + 1], destination) == RunReports(files, faults, sources[..k], destination)
        + TaskReports(before.copied, CopyTaskSpec(before.files, faults, sources[k], destination).copied)
  {
    assert sources[..k + 1][..k] == sources[..k];
  }

  /** The reports of a whole run rise strictly and end at the bytes the run copied. */
  lemma {:induction false} RunReportsRise(files: map<Path, seq<Byte>>, faults: Faults, sources: seq<Path>, destination: Path)
    ensures ProgressTrace(RunReports(files, faults, sources, destination), RunTasks(files, faults, sources, destination).copied)
    decreases |sources|
  {
    if sources != [] {
      var init := sources[..|sources| - 1];
      var before := RunTasks(files, faults, init, destination);
      var t := CopyTaskSpec(before.files, faults, sources[|sources| - 1], destination);
      RunReportsRise(files, faults, init, destination);
      TraceExtends(RunReports(files, faults, init, destination), before.copied, t.copied);
    }
  }

  /** `read(upToCount:) ?? Data()` on a handle at `offset` into `source`. */
  function ReadUpTo(source: seq<Byte>, offset: nat, count: nat): (chunk: seq<Byte>)
    ensures |chunk| <= count
    ensures offset < |source| && 0 < count ==> 0 < |chunk|
    ensures offset + |chunk| <= |source| || chunk == []
    ensures offset + |chunk| <= |source| ==> chunk == source[offset..offset + |chunk|]
    ensures offset < |source| ==> |chunk| == if offset + count <= |source| then count else |source| - offset
  {
    if offset >= |source| then []
    else if offset + count <= |source| then source[offset..offset + count]
    else source[offset..]
  }

  /** The state `copyFiles` shares between its tasks and callbacks. */
  class CopyJob {
    var totalBytes: nat
    var copiedBytes: nat
    /** The `DispatchGroup`'s count: tasks entered that have not left. */
    var outstanding: nat
    /** `copiedBytes` at each `progress` call; the fraction reported is it over `totalBytes`. */
    var progressReports: seq<nat>
    var completions: seq<Completion>

    constructor ()
      ensures totalBytes == 0 && copiedBytes == 0 && outstanding == 0
      ensures progressReports == [] && completions == []
    {
      totalBytes, copiedBytes, outstanding := 0, 0, 0;
      progressReports, completions := [], [];
    }

    /**
     * One task of the queue. On a throw it reports the failure and returns
     * without leaving the group; otherwise it copies in chunks of at most
     * `BufferSize` bytes, counting each chunk and reporting progress after it.
     */
    method RunTask(fs: FileSystem, url: Path, destinationURL: Path)
      requires outstanding > 0
      modifies this, fs
      ensures old(progressReports) <= progressReports
      ensures ProgressTrace(old(progressReports), old(copiedBytes)) ==> ProgressTrace(progressReports, copiedBytes)
      ensures var t := CopyTaskSpec(old(fs.files), fs.faults, url, destinationURL);
        fs.files == t.files &&
        copiedBytes == old(copiedBytes) + t.copied &&
        completions == old(completions) + (if t.error.Some? then [Failed(t.error.value)] else []) &&
        outstanding == old(outstanding) - (if t.error.Some? then 0 else 1) &&
        progressReports == old(progressReports) + TaskReports(old(copiedBytes), t.copied)
      ensures totalBytes == old(totalBytes)
    {
      var destinationFileURL := DestinationFor(destinationURL, url);
      assert TaskReports(copiedBytes, 0) == [];
      // FileHandle(forReadingFrom:)
      if url !in fs.files {
        completions := completions + [Failed(NoSuchFile(url))];
        return;
      }
      if url in fs.faults.unreadable {
        completions := completions + [Failed(NotReadable(url))];
        return;
      }
      var source := fs.files[url];
      var fileSize := SizeOrZero(fs.files, fs.faults, url);
      // removeItem(at:) of an existing destination
      if destinationFileURL in fs.files {
        if destinationFileURL in fs.faults.readOnly {
          completions := completions + [Failed(NotRemovable(destinationFileURL))];
          return;
        }
        fs.files := fs.files - {destinationFileURL};
      }
      // createFile(atPath:contents: nil), whose result is ignored
      if destinationFileURL !in fs.faults.readOnly && destinationFileURL !in fs.faults.notCreatable {
        fs.files := fs.files[destinationFileURL := []];
      }
      // FileHandle(forWritingTo:)
      if destinationFileURL !in fs.files {
        completions := completions + [Failed(NotWritable(destinationFileURL))];
        return;
      }
      assert fs.files == old(fs.files)[destinationFileURL := []];
      ghost var t := CopyTaskSpec(old(fs.files), fs.faults, url, destinationURL);
      assert t.files == old(fs.files)[destinationFileURL := source[..fileSize]] && t.copied == fileSize;
      CopyChunks(fs, source, fileSize, destinationFileURL);
      outstanding := outstanding - 1;
    }

    /**
     * The `while bytesRead < fileSize` loop of a task: read at most
     * `BufferSize` bytes, append them to the destination, add their count to
     * `bytesRead` and `copiedBytes`, and report progress.
     */
    method CopyChunks(fs: FileSystem, source: seq<Byte>, fileSize: nat, destinationFileURL: Path)
      requires fileSize == 0 || fileSize == |source|
      requires destinationFileURL in fs.files && fs.files[destinationFileURL] == []
      modifies this`copiedBytes, this`progressReports, fs`files
      ensures fs.files == old(fs.files)[destinationFileURL := source[..fileSize]]
      ensures copiedBytes == old(copiedBytes) + fileSize
      ensures old(progressReports) <= progressReports
      ensures ProgressTrace(old(progressReports), old(copiedBytes)) ==> ProgressTrace(progressReports, copiedBytes)
      ensures progressReports == old(progressReports) + TaskReports(old(copiedBytes), fileSize)
    {
      var bufferSize := BufferSize;
      var bytesRead: nat := 0;
      var readOffset: nat := 0;
      ghost var chunks: nat := 0;
      while bytesRead < fileSize
        invariant ChunksRead(fileSize, chunks, bytesRead) && readOffset == bytesRead
        invariant fs.files == old(fs.files)[destinationFileURL := source[..bytesRead]]
        invariant copiedBytes == old(copiedBytes) + bytesRead
        invariant progressReports == old(progressReports) + ChunkReports(old(copiedBytes), fileSize, chunks)
        decreases fileSize - bytesRead
      {
        var buffer := ReadUpTo(source, readOffset, bufferSize);
        NextChunk(old(copiedBytes), fileSize, chunks, bytesRead, |buffer|);
        readOffset := readOffset + |buffer|;
        assert source[..bytesRead] + buffer == source[..bytesRead + |buffer|];
        fs.files := fs.files[destinationFileURL := fs.files[destinationFileURL] + buffer];
        bytesRead := bytesRead + |buffer|;
        copiedBytes := copiedBytes + |buffer|;
        progressReports := progressReports + [copiedBytes];
        chunks := chunks + 1;
      }
      ChunksDone(old(copiedBytes), fileSize, chunks);
      if ProgressTrace(old(progressReports), old(copiedBytes)) {
        TraceExtends(old(progressReports), old(copiedBytes), fileSize);
      }
    }

    /** The serial queue: the task of each source in turn, on the files the earlier tasks left. */
    method RunQueue(fs: FileSystem, sourceURLs: seq<Path>, destinationURL: Path)
      requires outstanding == |sourceURLs| && copiedBytes == 0 && progressReports == [] && completions == []
      modifies this, fs
      ensures var run := RunTasks(old(fs.files), fs.faults, sourceURLs, destinationURL);
        fs.files == run.files && copiedBytes == run.copied &&
        completions == FailuresReported(run.errors) && outstanding == |run.errors|
      ensures progressReports == RunReports(old(fs.files), fs.faults, sourceURLs, destinationURL)
      ensures totalBytes == old(totalBytes)
      ensures ProgressTrace(progressReports, copiedBytes)
    {
      for k := 0 to |sourceURLs|
        invariant var run := RunTasks(old(fs.files), fs.faults, sourceURLs[..k], destinationURL);
          fs.files == run.files && copiedBytes == run.copied &&
          completions == FailuresReported(run.errors) &&
          outstanding == |sourceURLs| - k + |run.errors|
        invariant progressReports == RunReports(old(fs.files), fs.faults, sourceURLs[..k], destinationURL)
        invariant totalBytes == old(totalBytes)
      {
        ghost var before := RunTasks(old(fs.files), fs.faults, sourceURLs[..k], destinationURL);
        ghost var t := CopyTaskSpec(before.files, fs.faults, sourceURLs[k], destinationURL);
        RunTask(fs, sourceURLs[k], destinationURL);
        RunTasksPrefix(old(fs.files), fs.faults, sourceURLs, destinationURL, k);
        RunReportsPrefix(old(fs.files), fs.faults, sourceURLs, destinationURL, k);
        FailuresReportedAppend(before.errors, if t.error.Some? then [t.error.value] else []);
      }
      assert sourceURLs[..|sourceURLs|] == sourceURLs;
      RunReportsRise(old(fs.files), fs.faults, sourceURLs, destinationURL);
    }
  }

  /** The bytes copied stay within the first pass's total and reach it on success. */
  predicate WithinTotal(job: CopyJob, sources: seq<Path>, destination: Path)
    reads job
  {
    DestinationsAvoidSources(sources, destination) ==>
      job.copiedBytes <= job.totalBytes &&
      (Succeeded in job.completions ==> job.copiedBytes == job.totalBytes)
  }

  /** The first pass of `copyFiles`, as a loop over the sources. */
  method MeasureSources(fs: FileSystem, sourceURLs: seq<Path>) returns (result: Result<nat, CopyError>)
    ensures result == PrePass(fs.files, fs.faults, sourceURLs)
  {
    var totalBytes: nat := 0;
    for k := 0 to |sourceURLs|
      invariant PrePass(fs.files, fs.faults, sourceURLs[..k]) == Success(totalBytes)
    {
      var url := sourceURLs[k];
      assert sourceURLs[..k + 1][..k] == sourceURLs[..k];
      match SizeAttribute(fs.files, fs.faults, url)
      case None =>
        assert PrePass(fs.files, fs.faults, sourceURLs[..k + 1]).Failure?;
        PrePassKeepsFailure(fs.files, fs.faults, sourceURLs, k + 1);
        return Failure(NoSuchFile(url));
      case Some(size) =>
        totalBytes := totalBytes + size;
    }
    assert sourceURLs[..|sourceURLs|] == sourceURLs;
    return Success(totalBytes);
  }

  /** Once a prefix of the sources fails the first pass, the whole list fails it the same way. */
  lemma {:induction false} PrePassKeepsFailure(
    files: map<Path, seq<Byte>>, faults: Faults, sources: seq<Path>, k: nat)
    requires k <= |sources| && PrePass(files, faults, sources[..k]).Failure?
    ensures PrePass(files, faults, sources) == PrePass(files, faults, sources[..k])
    decreases |sources| - k
  {
    if k < |sources| {
      assert sources[..k + 1][..k] == sources[..k];
      PrePassKeepsFailure(files, faults, sources, k + 1);
    } else {
      assert sources[..k] == sources;
    }
  }

  /** Reporting one more failure appends it to the reported completions. */
  lemma FailuresReportedAppend(errors: seq<CopyError>, more: seq<CopyError>)
    ensures FailuresReported(errors + more) == FailuresReported(errors) + FailuresReported(more)
  {
  }

  /**
   * `copyFiles`: measure every source first and fail before touching
   * anything if one is missing; otherwise run one task per source, and
   * report success once every task has left the group.
   */
  method CopyFiles(fs: FileSystem, sourceURLs: seq<Path>, destinationURL: Path) returns (job: CopyJob)
    modifies fs
    ensures fresh(job)
    ensures var pre := PrePass(old(fs.files), fs.faults, sourceURLs);
      if pre.Failure? then
        fs.files == old(fs.files) && job.completions == [Failed(pre.error)] &&
        job.copiedBytes == 0 && job.progressReports == []
      else
        var run := RunTasks(old(fs.files), fs.faults, sourceURLs, destinationURL);
        job.totalBytes == pre.value && fs.files == run.files && job.copiedBytes == run.copied &&
        job.completions == FailuresReported(run.errors) + (if run.errors == [] then [Succeeded] else []) &&
        job.progressReports == RunReports(old(fs.files), fs.faults, sourceURLs, destinationURL)
    ensures ProgressTrace(job.progressReports, job.copiedBytes)
    ensures Succeeded in job.completions ==> job.completions == [Succeeded]
    ensures WithinTotal(job, sourceURLs, destinationURL)
  {
    job := new CopyJob();
    var measured := MeasureSources(fs, sourceURLs);
    if measured.Failure? {
      job.completions := [Failed(measured.error)];
      return;
    }
    job.totalBytes := measured.value;
    // group.enter() once per source
    job.outstanding := |sourceURLs|;
    ghost var files0 := fs.files;
    job.RunQueue(fs, sourceURLs, destinationURL);
    ghost var run := RunTasks(files0, fs.faults, sourceURLs, destinationURL);
    // group.notify: only once every task has left
    if job.outstanding == 0 {
      job.completions := job.completions + [Succeeded];
    }
    assert Succeeded !in FailuresReported(run.errors);
    if DestinationsAvoidSources(sourceURLs, destinationURL) {
      RunCopiesWithinTotal(files0, fs.faults, sourceURLs, destinationURL);
    }
  }
}
