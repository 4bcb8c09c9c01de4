/**
 * The video list of a camera card: the `VideoFile` records shown for each
 * discovered file, and the click handler that keeps the set of selected URLs,
 * including shift-click selection of a whole range of rows.
 *
 * The shift key is an input of the handler. Dates are plain numbers, and the
 * clock reading used as the fallback creation date is a parameter.
 */
module VideoListView {
  import opened Wrappers
  import opened Paths

  /** A point in time, as the number of seconds since a reference date. */
  type Date = int

  /**
   * The keys of `attributesOfItem(atPath:)` that a `VideoFile` reads. `None`
   * means the attribute is absent or does not have the expected type.
   */
  datatype ItemAttributes = ItemAttributes(size: Option<int>, creationDate: Option<Date>)

  datatype VideoFile = VideoFile(url: Path, name: string, size: int, creationDate: Date, isSelected: bool)

  /**
   * `VideoFile(url:)`. `attributes` is `None` when reading the attributes
   * throws; `now` is the clock reading used when no creation date is known.
   */
  function NewVideoFile(url: Path, attributes: Option<ItemAttributes>, now: Date): (v: VideoFile)
    ensures v.url == url && v.name == LastComponent(url) && !v.isSelected
    ensures attributes.None? ==> v.size == 0 && v.creationDate == now
    ensures attributes.Some? ==>
      v.size == (if attributes.value.size.Some? then attributes.value.size.value else 0) &&
      v.creationDate == (if attributes.value.creationDate.Some? then attributes.value.creationDate.value else now)
  {
    match attributes
    case None => VideoFile(url, LastComponent(url), 0, now, false)
    case Some(a) =>
      var size := if a.size.Some? then a.size.value else 0;
      var created := if a.creationDate.Some? then a.creationDate.value else now;
      VideoFile(url, LastComponent(url), size, created, false)
  }

  /** The URLs of the rows `lo` to `hi`, both included; empty when `hi < lo`. */
  function UrlsBetween(videoFiles: seq<VideoFile>, lo: int, hi: int): (r: set<Path>)
    requires 0 <= lo && hi < |videoFiles|
    ensures forall i :: lo <= i <= hi ==> videoFiles[i].url in r
    decreases hi - lo + 1
  {
    if hi < lo then {} else UrlsBetween(videoFiles, lo, hi - 1) + {videoFiles[hi].url}
  }

  /** A URL is in the range exactly when some row between `lo` and `hi` carries it. */
  lemma {:induction false} UrlsBetweenMembership(videoFiles: seq<VideoFile>, lo: int, hi: int, u: Path)
    requires 0 <= lo && hi < |videoFiles|
    ensures u in UrlsBetween(videoFiles, lo, hi) <==> exists i :: lo <= i <= hi && videoFiles[i].url == u
    decreases hi - lo + 1
  {
    if hi >= lo {
      UrlsBetweenMembership(videoFiles, lo, hi - 1, u);
      if videoFiles[hi].url == u {
        assert lo <= hi <= hi && videoFiles[hi].url == u;
      }
      if exists i :: lo <= i <= hi && videoFiles[i].url == u {
        var i :| lo <= i <= hi && videoFiles[i].url == u;
        if i < hi {
          assert lo <= i <= hi - 1 && videoFiles[i].url == u;
        }
      }
    }
  }

  /** Inserts `urls` into, or removes them from, the selection. */
  function Apply(selected: set<Path>, urls: set<Path>, isSelected: bool): (r: set<Path>)
    ensures forall u :: u in r <==> if u in urls then isSelected else u in selected
  {
    if isSelected then selected + urls else selected - urls
  }

  /**
   * The selection after a click on row `index`. With shift held and an earlier
   * click at `lastIndex`, every row from the smaller to the larger of the two
   * indices is set to `isSelected`; otherwise only the clicked row is.
   */
  function SelectionAfter(videoFiles: seq<VideoFile>, selected: set<Path>, lastClickedIndex: Option<int>,
                          index: int, isSelected: bool, shiftHeld: bool): (r: set<Path>)
    requires 0 <= index < |videoFiles|
    requires shiftHeld && lastClickedIndex.Some? ==> 0 <= lastClickedIndex.value < |videoFiles|
    ensures videoFiles[index].url in r <==> isSelected
  {
    if shiftHeld && lastClickedIndex.Some? then
      var lastIndex := lastClickedIndex.value;
      var lo := if lastIndex < index then lastIndex else index;
      var hi := if lastIndex < index then index else lastIndex;
      Apply(selected, UrlsBetween(videoFiles, lo, hi), isSelected)
    else
      Apply(selected, {videoFiles[index].url}, isSelected)
  }

  /** Rows carrying the same URLs give the same range, whatever else they record. */
  lemma {:induction false} UrlsBetweenDependsOnlyOnUrls(rows1: seq<VideoFile>, rows2: seq<VideoFile>, lo: int, hi: int)
    requires |rows1| == |rows2| && forall i :: 0 <= i < |rows1| ==> rows1[i].url == rows2[i].url
    requires 0 <= lo && hi < |rows1|
    ensures UrlsBetween(rows1, lo, hi) == UrlsBetween(rows2, lo, hi)
    decreases hi - lo + 1
  {
    if hi >= lo {
      UrlsBetweenDependsOnlyOnUrls(rows1, rows2, lo, hi - 1);
    }
  }

  /**
   * A click acts on URLs only: the `isSelected` flags, names, sizes and dates
   * of the rows never influence the selection, which the list shows from the
   * selected set alone.
   */
  lemma SelectionDependsOnlyOnUrls(rows1: seq<VideoFile>, rows2: seq<VideoFile>, selected: set<Path>,
                                   lastClickedIndex: Option<int>, index: int, isSelected: bool, shiftHeld: bool)
    requires |rows1| == |rows2| && forall i :: 0 <= i < |rows1| ==> rows1[i].url == rows2[i].url
    requires 0 <= index < |rows1|
    requires shiftHeld && lastClickedIndex.Some? ==> 0 <= lastClickedIndex.value < |rows1|
    ensures SelectionAfter(rows1, selected, lastClickedIndex, index, isSelected, shiftHeld) ==
            SelectionAfter(rows2, selected, lastClickedIndex, index, isSelected, shiftHeld)
  {
    if shiftHeld && lastClickedIndex.Some? {
      var lastIndex := lastClickedIndex.value;
      var lo := if lastIndex < index then lastIndex else index;
      var hi := if lastIndex < index then index else lastIndex;
      UrlsBetweenDependsOnlyOnUrls(rows1, rows2, lo, hi);
    }
  }

  /** A plain click, or a shift-click with no earlier click, sets the clicked URL and nothing else. */
  lemma SingleClickSetsOnlyThatUrl(videoFiles: seq<VideoFile>, selected: set<Path>, lastClickedIndex: Option<int>,
                                   index: int, isSelected: bool, shiftHeld: bool, u: Path)
    requires 0 <= index < |videoFiles|
    requires !shiftHeld || lastClickedIndex.None?
    ensures u in SelectionAfter(videoFiles, selected, lastClickedIndex, index, isSelected, shiftHeld) <==>
      if u == videoFiles[index].url then isSelected else u in selected
  {
  }

  /** A shift-click sets every row between the two clicks, both ends included. */
  lemma {:induction false} RangeClickSetsEveryRowBetween(videoFiles: seq<VideoFile>, selected: set<Path>,
                                                         lastIndex: int, index: int, isSelected: bool, i: int)
    requires 0 <= index < |videoFiles| && 0 <= lastIndex < |videoFiles|
    requires lastIndex <= i <= index || index <= i <= lastIndex
    ensures videoFiles[i].url in SelectionAfter(videoFiles, selected, Some(lastIndex), index, isSelected, true) <==> isSelected
  {
    var lo := if lastIndex < index then lastIndex else index;
    var hi := if lastIndex < index then index else lastIndex;
    UrlsBetweenMembership(videoFiles, lo, hi, videoFiles[i].url);
    assert lo <= i <= hi;
  }

  /** A shift-click leaves alone every URL that no row between the two clicks carries. */
  lemma {:induction false} RangeClickLeavesOthers(videoFiles: seq<VideoFile>, selected: set<Path>,
                                                  lastIndex: int, index: int, isSelected: bool, u: Path)
    requires 0 <= index < |videoFiles| && 0 <= lastIndex < |videoFiles|
    requires forall i :: (lastIndex <= i <= index || index <= i <= lastIndex) ==> videoFiles[i].url != u
    ensures u in SelectionAfter(videoFiles, selected, Some(lastIndex), index, isSelected, true) <==> u in selected
  {
    var lo := if lastIndex < index then lastIndex else index;
    var hi := if lastIndex < index then index else lastIndex;
    UrlsBetweenMembership(videoFiles, lo, hi, u);
  }

  /** Shift-clicking from `a` to `b` selects the same rows as shift-clicking from `b` to `a`. */
  lemma RangeClickIgnoresOrder(videoFiles: seq<VideoFile>, selected: set<Path>, a: int, b: int, isSelected: bool)
    requires 0 <= a < |videoFiles| && 0 <= b < |videoFiles|
    ensures SelectionAfter(videoFiles, selected, Some(a), b, isSelected, true) ==
            SelectionAfter(videoFiles, selected, Some(b), a, isSelected, true)
  {
  }

  /**
   * Repeating a click changes nothing: the repeat starts from the clicked row,
   * so it covers only that row, which the first click already set.
   */
  lemma {:induction false} RepeatedClickIsIdempotent(videoFiles: seq<VideoFile>, selected: set<Path>,
                                                     lastClickedIndex: Option<int>, index: int,
                                                     isSelected: bool, shiftHeld: bool)
    requires 0 <= index < |videoFiles|
    requires shiftHeld && lastClickedIndex.Some? ==> 0 <= lastClickedIndex.value < |videoFiles|
    ensures var once := SelectionAfter(videoFiles, selected, lastClickedIndex, index, isSelected, shiftHeld);
            SelectionAfter(videoFiles, once, Some(index), index, isSelected, shiftHeld) == once
  {
    var once := SelectionAfter(videoFiles, selected, lastClickedIndex, index, isSelected, shiftHeld);
    if shiftHeld {
      assert UrlsBetween(videoFiles, index, index) == {videoFiles[index].url} by {
        assert UrlsBetween(videoFiles, index, index - 1) == {};
      }
      if lastClickedIndex.Some? {
        RangeClickSetsEveryRowBetween(videoFiles, selected, lastClickedIndex.value, index, isSelected, index);
      }
    }
  }

  /** The state of the list that the click handler reads and writes. */
  class VideoListView {
    /** The rows, as the scan of the card produced them. */
    var videoFiles: seq<VideoFile>
    /** The selected URLs, shared with the window that starts the import. */
    var selectedVideos: set<Path>
    var lastClickedIndex: Option<int>

    /** The remembered click, when there is one, names a row of the list. */
    predicate Valid()
      reads this
    {
      lastClickedIndex.Some? ==> 0 <= lastClickedIndex.value < |videoFiles|
    }

    /** A list showing the scanned `videoFiles`, with no click yet. */
    constructor (videoFiles: seq<VideoFile>, selectedVideos: set<Path>)
      ensures this.videoFiles == videoFiles && this.selectedVideos == selectedVideos
      ensures lastClickedIndex == None && Valid()
    {
      this.videoFiles := videoFiles;
      this.selectedVideos := selectedVideos;
      lastClickedIndex := None;
    }

    /** `handleSelection(index:isSelected:)`, with the state of the shift key passed in. */
    method HandleSelection(index: int, isSelected: bool, shiftHeld: bool)
      requires Valid() && 0 <= index < |videoFiles|
      modifies this`selectedVideos, this`lastClickedIndex
      ensures selectedVideos ==
        SelectionAfter(videoFiles, old(selectedVideos), old(lastClickedIndex), index, isSelected, shiftHeld)
      ensures lastClickedIndex == Some(index) && Valid()
    {
      var video := videoFiles[index];
      if shiftHeld && lastClickedIndex.Some? {
        var lastIndex := lastClickedIndex.value;
        var lo, hi := if lastIndex < index then lastIndex else index, if lastIndex < index then index else lastIndex;
        var i := lo;
        while i <= hi
          invariant lo <= i <= hi + 1
          invariant selectedVideos == Apply(old(selectedVideos), UrlsBetween(videoFiles, lo, i - 1), isSelected)
        {
          var url := videoFiles[i].url;
          if isSelected {
            selectedVideos := selectedVideos + {url};
          } else {
            selectedVideos := selectedVideos - {url};
          }
          i := i + 1;
        }
      } else {
        if isSelected {
          selectedVideos := selectedVideos + {video.url};
        } else {
          selectedVideos := selectedVideos - {video.url};
        }
      }
      lastClickedIndex := Some(index);
    }
  }
}
