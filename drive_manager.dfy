/**
 * Volume classification and media discovery: which mounted volumes count as
 * camera cards, and which files on a card are offered for import.
 *
 * `FileManager` is replaced by a `VolumeView`, a snapshot of the answers its
 * calls give. The order of the mounted volumes and of the recursive walk are
 * inputs, as is what the walk skips (hidden entries, package contents).
 */
module DriveManager {
  import opened Wrappers
  import opened Paths

  /** The keys of `attributesOfFileSystem(forPath:)` that the core reads. */
  datatype FileSystemAttributes = FileSystemAttributes(systemSize: Option<int>, systemFreeNodes: Option<int>)

  /**
   * What `FileManager` answers about the mounted volumes:
   * - `existing`: the paths for which `fileExists(atPath:)` is true;
   * - `listings`: `contentsOfDirectory(at:)` per directory; a missing key means the call throws;
   * - `fileSystems`: `attributesOfFileSystem(forPath:)` per volume; a missing key means the call throws;
   * - `walks`: what the recursive enumerator yields from a root; a missing key means no enumerator.
   */
  datatype VolumeView = VolumeView(
    existing: set<Path>,
    listings: map<Path, seq<Path>>,
    fileSystems: map<Path, FileSystemAttributes>,
    walks: map<Path, seq<Path>>)

  /** Volume names that always belong to the internal disk. */
  const InternalDriveNames: seq<string> := ["Macintosh HD", "Data", "System", "Preboot", "Recovery"]

  /** The two stream directories of the AVCHD layout, relative to the volume root. */
  const StreamDirectory: string := "AVCHD/BDMV/STREAM"
  const PrivateStreamDirectory: string := "PRIVATE/AVCHD/BDMV/STREAM"

  predicate Distinct<T(==)>(s: seq<T>) {
    forall i, j :: 0 <= i < j < |s| ==> s[i] != s[j]
  }

  /** Listings name entries inside the listed directory, each once. */
  predicate WellFormedListings(view: VolumeView) {
    forall d :: d in view.listings ==>
      Distinct(view.listings[d]) && forall f :: f in view.listings[d] ==> d <= f
  }

  /** The `.MTS` entries of a directory listing, in listing order (`files.filter { ... }`). */
  function KeepTransportStreams(files: seq<Path>): (r: seq<Path>)
    ensures forall f :: f in r <==> f in files && IsTransportStream(f)
    ensures Distinct(files) ==> Distinct(r)
    ensures |r| <= |files|
    decreases |files|
  {
    if files == [] then []
    else
      var kept := KeepTransportStreams(files[..|files| - 1]);
      var f := files[|files| - 1];
      assert files == files[..|files| - 1] + [f];
      if IsTransportStream(f) then kept + [f] else kept
  }

  /** The filter keeps listing order: filtering two listings in turn is filtering their concatenation. */
  lemma {:induction false} KeepTransportStreamsAppend(a: seq<Path>, b: seq<Path>)
    ensures KeepTransportStreams(a + b) == KeepTransportStreams(a) + KeepTransportStreams(b)
    decreases |b|
  {
    if b == [] {
      assert a + b == a;
    } else {
      var init, f := b[..|b| - 1], b[|b| - 1];
      assert (a + b)[..|a + b| - 1] == a + init;
      assert (a + b)[|a + b| - 1] == f;
      KeepTransportStreamsAppend(a, init);
      if IsTransportStream(f) {
        assert KeepTransportStreams(a + b) == (KeepTransportStreams(a) + KeepTransportStreams(init)) + [f];
        assert KeepTransportStreams(b) == KeepTransportStreams(init) + [f];
      } else {
        assert KeepTransportStreams(a + b) == KeepTransportStreams(a) + KeepTransportStreams(init);
        assert KeepTransportStreams(b) == KeepTransportStreams(init);
      }
    }
  }

  /**
   * What one stream directory contributes: its `.MTS` entries when it exists
   * and can be listed, nothing otherwise.
   */
  function StreamFiles(view: VolumeView, dir: Path): (r: seq<Path>)
    ensures forall f :: f in r <==>
      dir in view.existing && dir in view.listings && f in view.listings[dir] && IsTransportStream(f)
  {
    if dir in view.existing && dir in view.listings then KeepTransportStreams(view.listings[dir]) else []
  }

  /** The fixed-path phase: the stream files under `AVCHD/`, then those under `PRIVATE/AVCHD/`. */
  function StreamPhase(view: VolumeView, root: Path): (r: seq<Path>)
    ensures forall f :: f in r ==> IsTransportStream(f)
  {
    StreamFiles(view, Join(root, StreamDirectory)) + StreamFiles(view, Join(root, PrivateStreamDirectory))
  }

  /** The enumerator's output for a root, or nothing when no enumerator is created. */
  function WalkOf(view: VolumeView, root: Path): seq<Path> {
    if root in view.walks then view.walks[root] else []
  }

  /**
   * The walk phase: append each `.mp4`/`.mov` entry of `walk`, in walk order,
   * unless it is already listed.
   */
  function AppendNew(found: seq<Path>, walk: seq<Path>): (r: seq<Path>)
    ensures |found| <= |r| && r[..|found|] == found
    ensures forall f :: f in r <==> f in found || (f in walk && IsContainerVideo(f))
    ensures Distinct(found) ==> Distinct(r)
    decreases |walk|
  {
    if walk == [] then found
    else
      var earlier := AppendNew(found, walk[..|walk| - 1]);
      var f := walk[|walk| - 1];
      assert walk == walk[..|walk| - 1] + [f];
      if IsContainerVideo(f) && f !in earlier then earlier + [f] else earlier
  }

  /** One more walk entry extends `AppendNew` by at most that entry. */
  lemma AppendNewStep(found: seq<Path>, walk: seq<Path>, i: nat)
    requires i < |walk|
    ensures var before := AppendNew(found, walk[..i]);
      AppendNew(found, walk[..i + 1]) ==
        if IsContainerVideo(walk[i]) && walk[i] !in before then before + [walk[i]] else before
  {
    assert walk[..i + 1][..i] == walk[..i];
  }

  /** A volume chosen by the scan; immutable once built. */
  datatype Drive = Drive(url: Path, name: string, size: int) {

    /** `Drive.findVideoFiles`: the fixed-path phase alone, without the walk. */
    method FindVideoFiles(view: VolumeView) returns (videoFiles: seq<Path>)
      ensures videoFiles == StreamPhase(view, url)
      ensures forall f :: f in videoFiles ==> IsTransportStream(f)
      ensures WellFormedListings(view) ==> Distinct(videoFiles)
    {
      videoFiles := [];
      var streamPath := Join(url, StreamDirectory);
      if streamPath in view.existing && streamPath in view.listings {
        videoFiles := videoFiles + KeepTransportStreams(view.listings[streamPath]);
      }
      var privateStreamPath := Join(url, PrivateStreamDirectory);
      if privateStreamPath in view.existing && privateStreamPath in view.listings {
        videoFiles := videoFiles + KeepTransportStreams(view.listings[privateStreamPath]);
      }
      if WellFormedListings(view) {
        StreamPhaseDistinct(view, url);
      }
    }
  }

  /** `Drive.init`: the name is the last path component, the size is best effort. */
  function NewDrive(view: VolumeView, url: Path): (d: Drive)
    ensures d.url == url && d.name == LastComponent(url)
    ensures url !in view.fileSystems ==> d.size == 0
    ensures d.size != 0 ==> url in view.fileSystems && view.fileSystems[url].systemSize == Some(d.size)
    ensures url in view.fileSystems && view.fileSystems[url].systemSize.Some? ==>
      d.size == view.fileSystems[url].systemSize.value
  {
    var size :=
      if url !in view.fileSystems then 0
      else match view.fileSystems[url].systemSize
        case Some(n) => n
        case None => 0;
    Drive(url, LastComponent(url), size)
  }

  /**
   * `isSystemVolume`: the root volume, an internal volume name, or a volume
   * whose file-system attributes cannot be read or carry no free-node count.
   */
  predicate IsSystemVolume(view: VolumeView, url: Path): (r: bool)
    ensures url == "/" ==> r
    ensures LastComponent(url) in InternalDriveNames ==> r
    ensures url != "/" && LastComponent(url) !in InternalDriveNames ==>
      (r <==> url !in view.fileSystems || view.fileSystems[url].systemFreeNodes == None)
  {
    if url == "/" then true
    else if LastComponent(url) in InternalDriveNames then true
    else if url !in view.fileSystems then true
    else
      var isReadOnly := view.fileSystems[url].systemFreeNodes == None;
      isReadOnly
  }

  /** `isValidCanonDrive`: `AVCHD` at the root, or `PRIVATE` and `PRIVATE/AVCHD`. */
  predicate IsValidCanonDrive(view: VolumeView, url: Path) {
    var avchd := Join(url, "AVCHD");
    var private := Join(url, "PRIVATE");
    if avchd in view.existing then true
    else if private in view.existing then Join(private, "AVCHD") in view.existing
    else false
  }

  /** The markers whose existence decides `IsValidCanonDrive`. */
  function CanonMarkers(url: Path): set<Path> {
    {Join(url, "AVCHD"), Join(url, "PRIVATE"), Join(Join(url, "PRIVATE"), "AVCHD")}
  }

  /** Only the existence of the three markers matters: listings, attributes and walks are never consulted. */
  lemma CanonDriveOnlyChecksMarkers(view1: VolumeView, view2: VolumeView, url: Path)
    requires forall p :: p in CanonMarkers(url) ==> (p in view1.existing <==> p in view2.existing)
    ensures IsValidCanonDrive(view1, url) == IsValidCanonDrive(view2, url)
  {
  }

  /** Adding `AVCHD` at the root, or `PRIVATE/AVCHD`, makes any volume valid. */
  lemma AddingAvchdQualifies(view: VolumeView, url: Path)
    ensures IsValidCanonDrive(view.(existing := view.existing + {Join(url, "AVCHD")}), url)
    ensures IsValidCanonDrive(
      view.(existing := view.existing + {Join(url, "PRIVATE"), Join(Join(url, "PRIVATE"), "AVCHD")}), url)
  {
  }

  /** Without any of the `AVCHD` markers no volume is valid. */
  lemma RemovingAvchdDisqualifies(view: VolumeView, url: Path)
    ensures !IsValidCanonDrive(
      view.(existing := view.existing - {Join(url, "AVCHD"), Join(Join(url, "PRIVATE"), "AVCHD")}), url)
  {
  }

  /** A mounted volume is reported by the scan. */
  predicate Qualifies(view: VolumeView, url: Path) {
    !IsSystemVolume(view, url) && IsValidCanonDrive(view, url)
  }

  /** The volumes a scan keeps, in mount order. */
  function Qualifying(view: VolumeView, mounted: seq<Path>): (r: seq<Path>)
    ensures forall v :: v in r <==> v in mounted && Qualifies(view, v)
    ensures Distinct(mounted) ==> Distinct(r)
    ensures |r| <= |mounted|
    decreases |mounted|
  {
    if mounted == [] then []
    else
      var earlier := Qualifying(view, mounted[..|mounted| - 1]);
      var v := mounted[|mounted| - 1];
      assert mounted == mounted[..|mounted| - 1] + [v];
      if Qualifies(view, v) then earlier + [v] else earlier
  }

  /** The scan keeps mount order: scanning two lists of volumes in turn is scanning their concatenation. */
  lemma {:induction false} QualifyingAppend(view: VolumeView, a: seq<Path>, b: seq<Path>)
    ensures Qualifying(view, a + b) == Qualifying(view, a) + Qualifying(view, b)
    decreases |b|
  {
    if b == [] {
      assert a + b == a;
    } else {
      var init, f := b[..|b| - 1], b[|b| - 1];
      assert (a + b)[..|a + b| - 1] == a + init;
      assert (a + b)[|a + b| - 1] == f;
      QualifyingAppend(view, a, init);
      if Qualifies(view, f) {
        assert Qualifying(view, a + b) == (Qualifying(view, a) + Qualifying(view, init)) + [f];
        assert Qualifying(view, b) == Qualifying(view, init) + [f];
      } else {
        assert Qualifying(view, a + b) == Qualifying(view, a) + Qualifying(view, init);
        assert Qualifying(view, b) == Qualifying(view, init);
      }
    }
  }

  /** Of two qualifying volumes, the one mounted first is reported first. */
  lemma QualifyingKeepsMountOrder(view: VolumeView, mounted: seq<Path>, i: nat, j: nat)
    requires i < j < |mounted| && Qualifies(view, mounted[i]) && Qualifies(view, mounted[j])
    ensures exists p, q :: (0 <= p < q < |Qualifying(view, mounted)| &&
      Qualifying(view, mounted)[p] == mounted[i] && Qualifying(view, mounted)[q] == mounted[j])
  {
    var a, b := mounted[..j], mounted[j..];
    assert mounted == a + b;
    QualifyingAppend(view, a, b);
    assert mounted[i] == a[i];
    var qa := Qualifying(view, a);
    var qb := Qualifying(view, b);
    assert mounted[j] == b[0] && mounted[j] in b;
    assert mounted[i] in qa && mounted[j] in qb;
    var p :| 0 <= p < |qa| && qa[p] == mounted[i];
    var q :| 0 <= q < |qb| && qb[q] == mounted[j];
    var r := qa + qb;
    assert r[p] == qa[p];
    assert r[|qa| + q] == qb[q];
  }

  /** The drives built for the given volumes, one per volume, in order. */
  function DrivesFor(view: VolumeView, volumes: seq<Path>): (r: seq<Drive>)
    ensures |r| == |volumes|
    ensures forall i :: 0 <= i < |volumes| ==> r[i].url == volumes[i] && r[i].name == LastComponent(volumes[i])
  {
    seq(|volumes|, i requires 0 <= i < |volumes| => NewDrive(view, volumes[i]))
  }

  /** A scan never reports the root volume, an internal volume or a volume without free-node metadata. */
  lemma ScanSkipsSystemVolumes(view: VolumeView, mounted: seq<Path>, v: Path)
    requires v in Qualifying(view, mounted)
    ensures v != "/" && LastComponent(v) !in InternalDriveNames
    ensures v in view.fileSystems && view.fileSystems[v].systemFreeNodes != None
    ensures IsValidCanonDrive(view, v)
  {
  }

  /** The two stream directories cannot list the same path, so the fixed-path phase has no repeats. */
  lemma StreamPhaseDistinct(view: VolumeView, root: Path)
    requires WellFormedListings(view)
    ensures Distinct(StreamPhase(view, root))
  {
    var d1 := Join(root, StreamDirectory);
    var d2 := Join(root, PrivateStreamDirectory);
    var s1 := StreamFiles(view, d1);
    var s2 := StreamFiles(view, d2);
    var k := if |root| > 0 && root[|root| - 1] == '/' then |root| else |root| + 1;
    assert d1[k] == 'A' && d2[k] == 'P';
    forall i, j | 0 <= i < |s1| && 0 <= j < |s2|
      ensures s1[i] != s2[j]
    {
      assert s1[i] in view.listings[d1] && s2[j] in view.listings[d2];
      assert d1 <= s1[i] && d2 <= s2[j];
      assert s1[i][k] == 'A' && s2[j][k] == 'P';
    }
    DistinctConcat(s1, s2);
  }

  /** Two repeat-free sequences with no element in common concatenate to a repeat-free one. */
  lemma DistinctConcat<T>(a: seq<T>, b: seq<T>)
    requires Distinct(a) && Distinct(b)
    requires forall i, j :: 0 <= i < |a| && 0 <= j < |b| ==> a[i] != b[j]
    ensures Distinct(a + b)
  {
    forall i, j | 0 <= i < j < |a + b|
      ensures (a + b)[i] != (a + b)[j]
    {
      if j < |a| {
        assert (a + b)[i] == a[i] && (a + b)[j] == a[j];
      } else if i < |a| {
        assert (a + b)[i] == a[i] && (a + b)[j] == b[j - |a|];
      } else {
        assert (a + b)[i] == b[i - |a|] && (a + b)[j] == b[j - |a|];
      }
    }
  }

  /** The scanner: the volumes found by the last scan, and whether a scan is running. */
  class DriveManager {
    var validDrives: seq<Drive>
    var isScanning: bool

    constructor ()
      ensures validDrives == [] && !isScanning
    {
      validDrives := [];
      isScanning := false;
    }

    /**
     * `startScanning`: forget the previous result, then keep, in mount order,
     * every mounted volume that is not a system volume and has the AVCHD layout.
     */
    method StartScanning(view: VolumeView, mountedVolumes: seq<Path>)
      modifies this
      ensures validDrives == DrivesFor(view, Qualifying(view, mountedVolumes))
      ensures !isScanning
    {
      isScanning := true;
      validDrives := [];
      for k := 0 to |mountedVolumes|
        invariant validDrives == DrivesFor(view, Qualifying(view, mountedVolumes[..k]))
      {
        var volumeURL := mountedVolumes[k];
        assert mountedVolumes[..k + 1] == mountedVolumes[..k] + [volumeURL];
        if IsSystemVolume(view, volumeURL) {
          continue;
        }
        if IsValidCanonDrive(view, volumeURL) {
          validDrives := validDrives + [NewDrive(view, volumeURL)];
        }
      }
      assert mountedVolumes[..|mountedVolumes|] == mountedVolumes;
      isScanning := false;
    }

    /**
     * `findVideoFiles(in:)`: the fixed-path phase, then every `.mp4`/`.mov`
     * entry of the recursive walk that is not already listed.
     */
    method FindVideoFiles(view: VolumeView, drive: Drive) returns (videoFiles: seq<Path>)
      ensures videoFiles == AppendNew(StreamPhase(view, drive.url), WalkOf(view, drive.url))
      ensures forall f :: f in videoFiles <==>
        f in StreamPhase(view, drive.url) || (f in WalkOf(view, drive.url) && IsContainerVideo(f))
      ensures forall f :: f in videoFiles ==> IsTransportStream(f) || IsContainerVideo(f)
      ensures WellFormedListings(view) ==> Distinct(videoFiles)
    {
      videoFiles := drive.FindVideoFiles(view);
      ghost var streams := videoFiles;
      if drive.url in view.walks {
        var walk := view.walks[drive.url];
        var i := 0;
        assert walk[..0] == [];
        while i < |walk|
          invariant 0 <= i <= |walk|
          invariant videoFiles == AppendNew(streams, walk[..i])
        {
          var fileURL := walk[i];
          AppendNewStep(streams, walk, i);
          var ext := Lower(Extension(fileURL));
          assert IsContainerVideo(fileURL) <==> ext == "mp4" || ext == "mov";
          if ext == "mp4" || ext == "mov" {
            if fileURL !in videoFiles {
              videoFiles := videoFiles + [fileURL];
            }
          }
          i := i + 1;
        }
        assert walk[..|walk|] == walk;
      }
      assert videoFiles == AppendNew(streams, WalkOf(view, drive.url));
      forall f | f in videoFiles
        ensures IsTransportStream(f) || IsContainerVideo(f)
      {
        if f in streams {
          assert IsTransportStream(f);
        }
      }
    }
  }
}
