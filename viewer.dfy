/**
 * `State` and `State::update` of src/main.rs: the viewer's state, one method
 * per `Message`, and the rule by which `view` chooses the buffer the main
 * image area shows. Every `Task::perform` becomes the `Task` value a method
 * returns, with the message it would deliver computed at once; the 300 ms
 * sleep before FinalizeDragging becomes a delay carried by the task. The
 * clock, the file dialog, directory listings and image decoding are
 * parameters.
 */
module Viewer {
  import opened Wrappers
  import opened Paths
  import opened Geometry
  import opened ImageFormats
  import opened SmartDirectory
  import opened FileTree
  import opened Interaction

  datatype Button = Left | Right | Middle | OtherButton

  /** The `iced::mouse::Event`s the image area forwards. */
  datatype MouseEvent = ButtonPressed(button: Button) | ButtonReleased(button: Button) | OtherEvent

  /**
   * A thumbnail handle: the light grey tile for a missing file, the darker
   * grey tile for an unsupported format, the red tile for a decoding error,
   * or an 80x80 rendering of a decoded image.
   */
  datatype Thumb = MissingPlaceholder | UnsupportedPlaceholder | ErrorPlaceholder | Thumbnail(source: nat)

  datatype Message =
    | ChangeDirectory(path: Path)
    | SelectImage
    | NoOp
    | ExpandDirectory(path: Path)
    | PickImage(path: Path)
    | SelectFolder(path: Path)
    | PickNextImage
    | PickPreviousImage
    | OpenResamplingBar
    | SliderChanged(value: nat)
    | SliderReleased
    | ResamplingTypeChanged(alg: Alg)
    | ImageResized(bytes: Bytes, highQuality: bool)
    | LoadImage(path: Path)
    | LoadThumbnail(path: Path)
    | ThumbnailLoaded(path: Path, thumb: Thumb)
    | LoadScaledBytes
    | FinalizeDragging
    | ToggleHandTool
    | MousePressed(event: MouseEvent)
    | MouseReleased(event: MouseEvent)
    | MouseMoved(position: Vec2)
    | ToggleFullscreen
    | EscPressed
    | UploadToCloud(path: Path)

  /** The effect `update` returns: nothing, a message delivered next, or one delivered after a delay. */
  datatype Task = NoTask | Perform(message: Message) | PerformAfter(delayMs: nat, message: Message)

  /** What the main image area shows. */
  datatype Display = PreviewBuffer(bytes: Bytes) | FinalBuffer(bytes: Bytes) | FromPath(path: Path) | Blank

  /**
   * The thumbnail LoadThumbnail produces: a missing or non-regular file gets
   * the first placeholder, an extension outside the thumbnail formats the
   * second (nothing is decoded), a decoding error the red tile.
   */
  function ThumbnailFor(path: Path, isFile: bool, decoded: Option<Image>): (t: Thumb)
    ensures !isFile ==> t == MissingPlaceholder
    ensures isFile && !IsThumbnailFormat(path) ==> t == UnsupportedPlaceholder
    ensures t.Thumbnail? <==> isFile && IsThumbnailFormat(path) && decoded.Some?
    ensures t.Thumbnail? ==> t.source == decoded.value.id
    ensures isFile && IsThumbnailFormat(path) && decoded.None? ==> t == ErrorPlaceholder
  {
    if !isFile then MissingPlaceholder
    else if !IsThumbnailFormat(path) then UnsupportedPlaceholder
    else match decoded
      case Some(img) => Thumbnail(img.id)
      case None => ErrorPlaceholder
  }

  /** An svg the gallery lists never gets a real thumbnail, however it would decode. */
  lemma SvgThumbnailIsPlaceholder(dir: Path, stem: string, decoded: Option<Image>)
    requires stem != "" && '/' !in stem
    ensures IsGalleryImage(Join(dir, stem + ".svg"))
    ensures ThumbnailFor(Join(dir, stem + ".svg"), true, decoded) == UnsupportedPlaceholder
  {
    SvgListedButNotThumbnailed(dir, stem);
  }

  /** The first path of the collection without a cached thumbnail. */
  function FirstUncachedOf(collection: seq<Path>, cache: map<Path, Thumb>): (r: Option<Path>)
    ensures r.None? <==> forall i :: 0 <= i < |collection| ==> collection[i] in cache
    ensures r.Some? ==> exists i :: (0 <= i < |collection| && collection[i] == r.value
      && r.value !in cache && forall j :: 0 <= j < i ==> collection[j] in cache)
    decreases |collection|
  {
    if collection == [] then None
    else if collection[0] !in cache then Some(collection[0])
    else
      var r := FirstUncachedOf(collection[1..], cache);
      if r.Some? then
        var i :| 0 <= i < |collection[1..]| && collection[1..][i] == r.value
          && r.value !in cache && forall j :: 0 <= j < i ==> collection[1..][j] in cache;
        assert collection[i + 1] == r.value;
        r
      else r
  }

  /** The `for path in &self.image_collection` loops that ask for the next thumbnail. */
  method FirstUncached(collection: seq<Path>, cache: map<Path, Thumb>) returns (r: Option<Path>)
    ensures r == FirstUncachedOf(collection, cache)
  {
    var i := 0;
    while i < |collection|
      invariant i <= |collection|
      invariant FirstUncachedOf(collection, cache) == FirstUncachedOf(collection[i..], cache)
    {
      assert collection[i..][1..] == collection[i + 1..];
      if collection[i] !in cache {
        return Some(collection[i]);
      }
      i := i + 1;
    }
    return None;
  }

  /** The task that asks for the next thumbnail, if any is missing. */
  function ThumbnailRequest(collection: seq<Path>, cache: map<Path, Thumb>): (t: Task)
    ensures t.NoTask? <==> forall i :: 0 <= i < |collection| ==> collection[i] in cache
    ensures !t.NoTask? ==>
              && t.Perform? && t.message.LoadThumbnail?
              && t.message.path in collection && t.message.path !in cache
  {
    match FirstUncachedOf(collection, cache)
    case Some(p) => Perform(Message.LoadThumbnail(p))
    case None => NoTask
  }

  /** The paths of the collection still without a thumbnail. */
  function Uncached(collection: seq<Path>, cache: map<Path, Thumb>): (u: set<Path>)
    ensures forall q :: q in u <==> q in collection && q !in cache
  {
    set i | 0 <= i < |collection| && collection[i] !in cache :: collection[i]
  }

  /**
   * The LoadThumbnail / ThumbnailLoaded chain ends: caching the requested
   * path leaves strictly fewer paths without a thumbnail.
   */
  lemma ThumbnailChainShrinks(collection: seq<Path>, cache: map<Path, Thumb>, th: Thumb)
    requires FirstUncachedOf(collection, cache).Some?
    ensures var p := FirstUncachedOf(collection, cache).value;
      Uncached(collection, cache[p := th]) < Uncached(collection, cache)
  {
    var p := FirstUncachedOf(collection, cache).value;
    var i :| 0 <= i < |collection| && collection[i] == p && p !in cache;
    assert p in Uncached(collection, cache);
  }

  /** `iter().position(|p| p == path)`. */
  function PositionOf(collection: seq<Path>, p: Path): (r: Option<nat>)
    ensures r.None? <==> p !in collection
    ensures r.Some? ==>
      && r.value < |collection| && collection[r.value] == p
      && forall j :: 0 <= j < r.value ==> collection[j] != p
    decreases |collection|
  {
    if collection == [] then None
    else if collection[0] == p then Some(0)
    else match PositionOf(collection[1..], p)
      case None => None
      case Some(k) => Some(k + 1)
  }

  /** PickNextImage's index: one on, wrapping to the first. */
  function NextIndex(index: nat, len: nat): (k: nat)
    requires len >= 1
    ensures k < len
  {
    (index + 1) % len
  }

  /** PickPreviousImage's index: one back, wrapping to the last. */
  function PreviousIndex(index: nat, len: nat): (k: nat)
    requires len >= 1
    ensures index <= len ==> k < len
  {
    if index == 0 then len - 1 else index - 1
  }

  /** Within the collection, Next and Previous undo each other. */
  lemma NextPreviousInverse(index: nat, len: nat)
    requires index < len
    ensures PreviousIndex(index, len) < len
    ensures PreviousIndex(NextIndex(index, len), len) == index
    ensures NextIndex(PreviousIndex(index, len), len) == index
  {
    if index + 1 == len {
      assert NextIndex(index, len) == 0;
    } else {
      assert NextIndex(index, len) == index + 1;
    }
    if index == 0 {
      assert NextIndex(len - 1, len) == 0;
    } else {
      assert NextIndex(index - 1, len) == index;
    }
  }

  /** The collection and index that PickNextImage and PickPreviousImage walk. */
  datatype Gallery = Gallery(collection: seq<Path>, index: nat)

  /** `image_collection[current_image_index]` can be read. */
  predicate InRange(g: Gallery) {
    g.collection != [] ==> g.index < |g.collection|
  }

  /** ExpandDirectory as written: a new collection is listed and the old index kept. */
  function RelistAsWritten(g: Gallery, images: seq<Path>): (r: Gallery)
    ensures r.collection == images && r.index == g.index
  {
    Gallery(images, g.index)
  }

  /**
   * With five images listed and the last one shown, opening a folder of two
   * keeps index 4; PickPreviousImage then reads index 3 of a two-element
   * collection, and the index panics.
   */
  lemma StaleIndexAfterRelist(a: Path, b: Path, c: Path, d: Path, e: Path)
    ensures InRange(Gallery([a, b, c, d, e], 4))
    ensures var g := RelistAsWritten(Gallery([a, b, c, d, e], 4), [a, b]);
      && !InRange(g) && PreviousIndex(g.index, 2) == 3 && PreviousIndex(g.index, 2) >= |g.collection|
  {
  }

  /** ExpandDirectory corrected: a new collection starts at its first image, as SelectImage does. */
  function Relist(g: Gallery, images: seq<Path>): (r: Gallery)
    ensures r.collection == images && InRange(r)
  {
    Gallery(images, 0)
  }

  /** After the corrected relist, any walk with Next and Previous reads inside the collection. */
  lemma {:induction false} WalkStaysInRange(g: Gallery, images: seq<Path>, steps: seq<bool>)
    requires images != []
    ensures Walk(Relist(g, images), steps).index < |images|
    ensures Walk(Relist(g, images), steps).collection == images
  {
    WalkKeeps(Relist(g, images), steps);
  }

  /** Applies PickNextImage (`true`) and PickPreviousImage (`false`) in turn. */
  function Walk(g: Gallery, steps: seq<bool>): (r: Gallery)
    ensures r.collection == g.collection
    decreases |steps|
  {
    if steps == [] || g.collection == [] then g
    else
      var len := |g.collection|;
      var k := if steps[0] then NextIndex(g.index, len) else PreviousIndex(g.index, len);
      Walk(Gallery(g.collection, k), steps[1..])
  }

  lemma {:induction false} WalkKeeps(g: Gallery, steps: seq<bool>)
    requires InRange(g)
    ensures InRange(Walk(g, steps)) && Walk(g, steps).collection == g.collection
    decreases |steps|
  {
    if steps != [] && g.collection != [] {
      var len := |g.collection|;
      var k := if steps[0] then NextIndex(g.index, len) else PreviousIndex(g.index, len);
      NextPreviousInverse(g.index, len);
      WalkKeeps(Gallery(g.collection, k), steps[1..]);
    }
  }

  /** The tree entries of the Recents root: one file per recent item. */
  function RecentEntries(items: seq<RecentItem>): (es: seq<Entry>)
    ensures |es| == |items|
    ensures forall i :: 0 <= i < |items| ==> es[i] == File(items[i].Name(), items[i].path)
  {
    seq(|items|, i requires 0 <= i < |items| => File(items[i].Name(), items[i].path))
  }

  /** The collection ExpandDirectory lists: the recent paths for Recents, a readable directory's images, or nothing. */
  function Relisted(p: Path, listing: Option<seq<Listed>>, recent: seq<RecentItem>): (r: Option<seq<Path>>)
    ensures r.None? <==> p != RECENTS && listing.None?
  {
    if p == RECENTS then Some(PathsOf(recent))
    else if listing.Some? then Some(GalleryImages(p, listing.value))
    else None
  }

  class State {
    var currentImage: Option<Path>
    var roots: seq<Entry>
    var imageCollection: seq<Path>
    var currentImageIndex: nat
    var resamplingBarOpened: bool
    var sliderValue: nat
    var resamplingType: Alg
    var original: Option<Image>
    var scaledBytes: Bytes
    var thumbnailCache: map<Path, Thumb>
    var isDragging: bool
    var lastResizeTime: int
    var previewScaledBytes: Bytes
    var finalScaledBytes: Bytes
    var isResamplingMode: bool
    var handToolActive: bool
    var isPanning: bool
    var panStartPosition: Option<Vec2>
    var panOffset: Vec2
    const recentManager: RecentManager
    var isFullscreen: bool

    /**
     * The slider stays in its widget's range, a decoded image has `u32`
     * dimensions, the current index reads inside a non-empty collection, and
     * the recency list keeps its own invariant.
     */
    ghost predicate Valid()
      reads this, recentManager
    {
      && SLIDER_MIN <= sliderValue <= SLIDER_MAX
      && (original.Some? ==> ValidImage(original.value))
      && InRange(Gallery(imageCollection, currentImageIndex))
      && recentManager.Valid()
    }

    /**
     * `view`'s choice for the main image: when zooming or panning has
     * produced a buffer, the preview while a drag or pan is under way and the
     * final render otherwise; else the current file, or a blank tile.
     */
    function Shown(): (d: Display)
      reads this
      ensures (d.PreviewBuffer? || d.FinalBuffer?) <==> (isResamplingMode || handToolActive) && scaledBytes != Empty
      ensures d.PreviewBuffer? ==> (isDragging || isPanning) && d.bytes == previewScaledBytes
      ensures d.FinalBuffer? ==> !isDragging && !isPanning && d.bytes == finalScaledBytes
      ensures d.FromPath? ==> currentImage == Some(d.path)
      ensures d.Blank? ==> currentImage.None?
    {
      if (isResamplingMode || handToolActive) && scaledBytes != Empty then
        if isDragging || isPanning then PreviewBuffer(previewScaledBytes) else FinalBuffer(finalScaledBytes)
      else match currentImage
        case Some(p) => FromPath(p)
        case None => Blank
    }

    /**
     * `State::new`, for a home directory with the given listing and no saved
     * recency list: Recents and the home directory as roots, the home
     * directory's children loaded, the slider at 50, Lanczos3 selected.
     */
    constructor (now: int, home: Path, homeListing: Option<seq<Listed>>)
      ensures Valid()
      ensures recentManager.recentItems == [] && recentManager.maxItems == 20
      ensures roots == [Directory("Recents", RECENTS, [], false, false),
        LoadedChildren(Directory(FileName(home).GetOr(""), home, [], false, false), home, homeListing)]
      ensures currentImage == None && imageCollection == [] && currentImageIndex == 0
      ensures sliderValue == SLIDER_MIN && resamplingType == Lanczos3 && original == None
      ensures scaledBytes == Empty && previewScaledBytes == Empty && finalScaledBytes == Empty
      ensures thumbnailCache == map[] && lastResizeTime == now
      ensures !resamplingBarOpened && !isDragging && !isResamplingMode && !handToolActive
      ensures !isPanning && panStartPosition == None && panOffset == Vec2(0.0, 0.0) && !isFullscreen
    {
      var manager := new RecentManager(20);
      var recents := Directory("Recents", RECENTS, RecentEntries(manager.recentItems), false, false);
      var homeRoot := Directory(FileName(home).GetOr(""), home, [], false, false);
      homeRoot := LoadDirectoryChildren(homeRoot, home, homeListing);
      recentManager := manager;
      currentImage := None;
      roots := [recents, homeRoot];
      imageCollection := [];
      currentImageIndex := 0;
      resamplingBarOpened := false;
      sliderValue := SLIDER_MIN;
      resamplingType := Lanczos3;
      original := None;
      scaledBytes := Empty;
      thumbnailCache := map[];
      isDragging := false;
      lastResizeTime := now;
      previewScaledBytes := Empty;
      finalScaledBytes := Empty;
      isResamplingMode := false;
      handToolActive := false;
      isPanning := false;
      panStartPosition := None;
      panOffset := Vec2(0.0, 0.0);
      isFullscreen := false;
    }

    /** SelectImage: the picked file (none if the dialog was cancelled) becomes current, the collection is emptied. */
    method SelectImage(picked: Option<Path>) returns (t: Task)
      requires Valid()
      modifies this
      ensures Valid()
      ensures currentImage == picked && imageCollection == [] && currentImageIndex == 0
      ensures unchanged(this`roots, this`resamplingBarOpened, this`sliderValue, this`resamplingType,
        this`original, this`scaledBytes, this`thumbnailCache, this`isDragging, this`lastResizeTime,
        this`previewScaledBytes, this`finalScaledBytes, this`isResamplingMode, this`handToolActive,
        this`isPanning, this`panStartPosition, this`panOffset, this`isFullscreen)
      ensures t == Perform(Message.LoadImage(picked.GetOr("")))
    {
      currentImage := picked;
      imageCollection := [];
      currentImageIndex := 0;
      t := Perform(Message.LoadImage(picked.GetOr("")));
    }

    /** ChangeDirectory only sets `current_path`, which this model does not keep. */
    method ChangeDirectory(p: Path) returns (t: Task)
      ensures t == NoTask
    {
      t := NoTask;
    }

    method NoOp() returns (t: Task)
      ensures t == NoTask
    {
      t := NoTask;
    }

    method SelectFolder(p: Path) returns (t: Task)
      ensures t == NoTask
    {
      t := NoTask;
    }

    /**
     * ExpandDirectory: toggle the tree node and load it if needed; for a
     * readable directory, list its images as the new collection; for Recents,
     * the recent paths. Either way a new collection starts at index 0 and the
     * first thumbnail missing from the cache is asked for.
     */
    method ExpandDirectory(p: Path, listing: Option<seq<Listed>>) returns (t: Task)
      requires Valid()
      modifies this
      ensures Valid()
      ensures roots == ExpandedTree(old(roots), p, listing)
      ensures unchanged(this`currentImage, this`resamplingBarOpened, this`sliderValue, this`resamplingType,
        this`original, this`scaledBytes, this`thumbnailCache, this`isDragging, this`lastResizeTime,
        this`previewScaledBytes, this`finalScaledBytes, this`isResamplingMode, this`handToolActive,
        this`isPanning, this`panStartPosition, this`panOffset, this`isFullscreen)
      ensures var images := Relisted(p, listing, recentManager.recentItems);
        images.Some? ==>
          && Gallery(imageCollection, currentImageIndex)
             == Relist(Gallery(old(imageCollection), old(currentImageIndex)), images.value)
          && t == ThumbnailRequest(imageCollection, thumbnailCache)
      ensures Relisted(p, listing, recentManager.recentItems).None? ==>
        && imageCollection == old(imageCollection) && currentImageIndex == old(currentImageIndex)
        && t == NoTask
    {
      var isRecents := p == RECENTS;
      roots := ExpandInTree(roots, p, listing);
      var images: seq<Path>;
      if !isRecents && listing.Some? {
        images := ListImages(p, listing.value);
      } else if isRecents {
        var items := recentManager.GetRecentItems();
        images := PathsOf(items);
      } else {
        return NoTask;
      }
      t := ShowCollection(images);
    }

    /** ExpandDirectory's second half: a new collection, from its first image, and the first missing thumbnail asked for. */
    method ShowCollection(images: seq<Path>) returns (t: Task)
      requires Valid()
      modifies this
      ensures Valid()
      ensures Gallery(imageCollection, currentImageIndex)
        == Relist(Gallery(old(imageCollection), old(currentImageIndex)), images)
      ensures unchanged(this`currentImage, this`roots, this`resamplingBarOpened, this`sliderValue,
        this`resamplingType, this`original, this`scaledBytes, this`thumbnailCache, this`isDragging,
        this`lastResizeTime, this`previewScaledBytes, this`finalScaledBytes, this`isResamplingMode,
        this`handToolActive, this`isPanning, this`panStartPosition, this`panOffset, this`isFullscreen)
      ensures t == ThumbnailRequest(imageCollection, thumbnailCache)
    {
      imageCollection := images;
      currentImageIndex := 0;
      var next := FirstUncached(imageCollection, thumbnailCache);
      t := if next.Some? then Perform(Message.LoadThumbnail(next.value)) else NoTask;
    }

    /** PickImage: the file becomes current, at its place in the collection (0 when it is not listed). */
    method PickImage(p: Path) returns (t: Task)
      requires Valid()
      modifies this
      ensures Valid()
      ensures currentImage == Some(p) && currentImageIndex == PositionOf(imageCollection, p).GetOr(0)
      ensures p in imageCollection ==> imageCollection[currentImageIndex] == p
      ensures unchanged(this`roots, this`imageCollection, this`resamplingBarOpened, this`sliderValue,
        this`resamplingType, this`original, this`scaledBytes, this`thumbnailCache, this`isDragging,
        this`lastResizeTime, this`previewScaledBytes, this`finalScaledBytes, this`isResamplingMode,
        this`handToolActive, this`isPanning, this`panStartPosition, this`panOffset, this`isFullscreen)
      ensures t == Perform(Message.LoadImage(p))
    {
      currentImage := Some(p);
      currentImageIndex := PositionOf(imageCollection, p).GetOr(0);
      t := Perform(Message.LoadImage(p));
    }

    /** PickNextImage: one on in the collection, wrapping around; an empty collection reloads the current file. */
    method PickNextImage() returns (t: Task)
      requires Valid()
      modifies this
      ensures Valid()
      ensures unchanged(this`roots, this`imageCollection, this`resamplingBarOpened, this`sliderValue,
        this`resamplingType, this`original, this`scaledBytes, this`thumbnailCache, this`isDragging,
        this`lastResizeTime, this`previewScaledBytes, this`finalScaledBytes, this`isResamplingMode,
        this`handToolActive, this`isPanning, this`panStartPosition, this`panOffset, this`isFullscreen)
      ensures imageCollection == [] ==> currentImage == old(currentImage) && currentImageIndex == old(currentImageIndex)
      ensures imageCollection != [] ==>
        && currentImageIndex == NextIndex(old(currentImageIndex), |imageCollection|)
        && currentImage == Some(imageCollection[currentImageIndex])
      ensures t == Perform(Message.LoadImage(currentImage.GetOr("")))
    {
      if imageCollection != [] {
        currentImageIndex := NextIndex(currentImageIndex, |imageCollection|);
        currentImage := Some(imageCollection[currentImageIndex]);
      }
      t := Perform(Message.LoadImage(currentImage.GetOr("")));
    }

    /** PickPreviousImage: one back in the collection, wrapping around. */
    method PickPreviousImage() returns (t: Task)
      requires Valid()
      modifies this
      ensures Valid()
      ensures unchanged(this`roots, this`imageCollection, this`resamplingBarOpened, this`sliderValue,
        this`resamplingType, this`original, this`scaledBytes, this`thumbnailCache, this`isDragging,
        this`lastResizeTime, this`previewScaledBytes, this`finalScaledBytes, this`isResamplingMode,
        this`handToolActive, this`isPanning, this`panStartPosition, this`panOffset, this`isFullscreen)
      ensures imageCollection == [] ==> currentImage == old(currentImage) && currentImageIndex == old(currentImageIndex)
      ensures imageCollection != [] ==>
        && currentImageIndex == PreviousIndex(old(currentImageIndex), |imageCollection|)
        && currentImage == Some(imageCollection[currentImageIndex])
      ensures t == Perform(Message.LoadImage(currentImage.GetOr("")))
    {
      if imageCollection != [] {
        NextPreviousInverse(currentImageIndex, |imageCollection|);
        currentImageIndex := PreviousIndex(currentImageIndex, |imageCollection|);
        currentImage := Some(imageCollection[currentImageIndex]);
      }
      t := Perform(Message.LoadImage(currentImage.GetOr("")));
    }

    method OpenResamplingBar() returns (t: Task)
      requires Valid()
      modifies this
      ensures Valid()
      ensures resamplingBarOpened == !old(resamplingBarOpened)
      ensures unchanged(this`currentImage, this`roots, this`imageCollection, this`currentImageIndex,
        this`sliderValue, this`resamplingType, this`original, this`scaledBytes, this`thumbnailCache,
        this`isDragging, this`lastResizeTime, this`previewScaledBytes, this`finalScaledBytes,
        this`isResamplingMode, this`handToolActive, this`isPanning, this`panStartPosition, this`panOffset,
        this`isFullscreen)
      ensures t == NoTask
    {
      resamplingBarOpened := !resamplingBarOpened;
      t := NoTask;
    }

    /**
     * SliderChanged: the value is taken and zoom mode entered at once; a
     * Point-kernel preview is rendered only if 300 ms have passed since the
     * last one, which then becomes the last render time.
     */
    method SliderChanged(v: nat, now: int) returns (t: Task)
      requires Valid() && SLIDER_MIN <= v <= SLIDER_MAX
      modifies this
      ensures Valid()
      ensures sliderValue == v && isDragging && isResamplingMode
      ensures lastResizeTime == if Admits(old(lastResizeTime), now) then now else old(lastResizeTime)
      ensures unchanged(this`currentImage, this`roots, this`imageCollection, this`currentImageIndex,
        this`resamplingBarOpened, this`resamplingType, this`original, this`scaledBytes, this`thumbnailCache,
        this`previewScaledBytes, this`finalScaledBytes, this`handToolActive, this`isPanning,
        this`panStartPosition, this`panOffset, this`isFullscreen)
      ensures t == if Admits(old(lastResizeTime), now)
        then Perform(Message.ImageResized(ScaleImage(original, v, Point), false))
        else NoTask
    {
      sliderValue := v;
      isDragging := true;
      isResamplingMode := true;
      var elapsed := ElapsedMs(lastResizeTime, now);
      if elapsed < THROTTLE_MS {
        return NoTask;
      }
      lastResizeTime := now;
      t := Perform(Message.ImageResized(ScaleImage(original, v, Point), false));
    }

    /** SliderReleased: FinalizeDragging, 300 ms later. */
    method SliderReleased() returns (t: Task)
      ensures t == PerformAfter(FINALIZE_DELAY_MS, Message.FinalizeDragging)
    {
      t := PerformAfter(FINALIZE_DELAY_MS, Message.FinalizeDragging);
    }

    /** FinalizeDragging: if a drag is under way, end it and render with the selected kernel. */
    method FinalizeDragging() returns (t: Task)
      requires Valid()
      modifies this
      ensures Valid()
      ensures !isDragging
      ensures unchanged(this`currentImage, this`roots, this`imageCollection, this`currentImageIndex,
        this`resamplingBarOpened, this`sliderValue, this`resamplingType, this`original, this`scaledBytes,
        this`thumbnailCache, this`lastResizeTime, this`previewScaledBytes, this`finalScaledBytes,
        this`isResamplingMode, this`handToolActive, this`isPanning, this`panStartPosition, this`panOffset,
        this`isFullscreen)
      ensures t == if old(isDragging)
        then Perform(Message.ImageResized(ScaleImage(original, sliderValue, resamplingType), true))
        else NoTask
    {
      if !isDragging {
        return NoTask;
      }
      isDragging := false;
      t := Perform(Message.ImageResized(ScaleImage(original, sliderValue, resamplingType), true));
    }

    /** ResamplingTypeChanged: select the kernel and, with an image loaded, re-render with it at once. */
    method ResamplingTypeChanged(alg: Alg) returns (t: Task)
      requires Valid()
      modifies this
      ensures Valid()
      ensures resamplingType == alg
      ensures unchanged(this`currentImage, this`roots, this`imageCollection, this`currentImageIndex,
        this`resamplingBarOpened, this`sliderValue, this`original, this`scaledBytes, this`thumbnailCache,
        this`isDragging, this`lastResizeTime, this`previewScaledBytes, this`finalScaledBytes,
        this`isResamplingMode, this`handToolActive, this`isPanning, this`panStartPosition, this`panOffset,
        this`isFullscreen)
      ensures t == if original.Some?
        then Perform(Message.ImageResized(ScaleImage(original, sliderValue, alg), true))
        else NoTask
    {
      resamplingType := alg;
      if original.Some? {
        return Perform(Message.ImageResized(ScaleImage(original, sliderValue, alg), true));
      }
      t := NoTask;
    }

    /**
     * ImageResized: a high-quality result always becomes the final buffer; a
     * preview result is kept only while the slider is still being dragged, so
     * a late preview never replaces a final render.
     */
    method ImageResized(b: Bytes, highQuality: bool) returns (t: Task)
      requires Valid()
      modifies this
      ensures Valid()
      ensures finalScaledBytes == if highQuality then b else old(finalScaledBytes)
      ensures previewScaledBytes == if !highQuality && isDragging then b else old(previewScaledBytes)
      ensures scaledBytes == if highQuality || isDragging then b else old(scaledBytes)
      ensures unchanged(this`currentImage, this`roots, this`imageCollection, this`currentImageIndex,
        this`resamplingBarOpened, this`sliderValue, this`resamplingType, this`original, this`thumbnailCache,
        this`isDragging, this`lastResizeTime, this`isResamplingMode, this`handToolActive, this`isPanning,
        this`panStartPosition, this`panOffset, this`isFullscreen)
      ensures highQuality && b != Empty && (isResamplingMode || handToolActive) && !isDragging && !isPanning ==>
        Shown() == FinalBuffer(b)
      ensures t == NoTask
    {
      if highQuality {
        finalScaledBytes := b;
        scaledBytes := finalScaledBytes;
      } else if isDragging {
        previewScaledBytes := b;
        scaledBytes := previewScaledBytes;
      }
      t := NoTask;
    }

    /** LoadScaledBytes: re-render the shared buffer with the selected kernel, if it holds anything. */
    method LoadScaledBytes() returns (t: Task)
      requires Valid()
      modifies this
      ensures Valid()
      ensures scaledBytes == if old(scaledBytes) == Empty then Empty
        else ScaleImage(original, sliderValue, resamplingType)
      ensures unchanged(this`currentImage, this`roots, this`imageCollection, this`currentImageIndex,
        this`resamplingBarOpened, this`sliderValue, this`resamplingType, this`original, this`thumbnailCache,
        this`isDragging, this`lastResizeTime, this`previewScaledBytes, this`finalScaledBytes,
        this`isResamplingMode, this`handToolActive, this`isPanning, this`panStartPosition, this`panOffset,
        this`isFullscreen)
      ensures t == NoTask
    {
      if scaledBytes != Empty {
        scaledBytes := ScaleImage(original, sliderValue, resamplingType);
      }
      t := NoTask;
    }

    /**
     * LoadImage: record the view in the recency list, reset zoom and pan, and
     * keep the decoded image (`decoded` is the decoder's result, none on a
     * decoding error), asking for the cloud upload.
     */
    method LoadImage(p: Path, decoded: Option<Image>) returns (t: Task)
      requires Valid()
      requires decoded.Some? ==> ValidImage(decoded.value)
      modifies this, recentManager
      ensures Valid()
      ensures recentManager.maxItems == old(recentManager.maxItems)
      ensures recentManager.recentItems == Added(old(recentManager.recentItems), recentManager.maxItems, p)
      ensures !isDragging && sliderValue == SLIDER_MIN && !isResamplingMode
      ensures previewScaledBytes == Empty && finalScaledBytes == Empty
      ensures panOffset == Vec2(0.0, 0.0) && !isPanning && panStartPosition == None
      ensures original == if decoded.Some? then decoded else old(original)
      ensures unchanged(this`currentImage, this`roots, this`imageCollection, this`currentImageIndex,
        this`resamplingBarOpened, this`resamplingType, this`scaledBytes, this`thumbnailCache,
        this`lastResizeTime, this`handToolActive, this`isFullscreen)
      ensures t == if decoded.Some? then Perform(Message.UploadToCloud(p)) else NoTask
      ensures handToolActive && scaledBytes != Empty ==> Shown() == FinalBuffer(Empty)
    {
      recentManager.AddItem(p);
      ResetZoom();
      ResetPan();
      if decoded.Some? {
        original := decoded;
        t := Perform(Message.UploadToCloud(p));
      } else {
        t := NoTask;
      }
    }

    /** LoadImage's reset of the zoom state: no drag, slider at 50, both buffers cleared. */
    method ResetZoom()
      requires Valid()
      modifies this
      ensures Valid()
      ensures !isDragging && sliderValue == SLIDER_MIN && !isResamplingMode
      ensures previewScaledBytes == Empty && finalScaledBytes == Empty
      ensures unchanged(this`currentImage, this`roots, this`imageCollection, this`currentImageIndex,
        this`resamplingBarOpened, this`resamplingType, this`original, this`scaledBytes, this`thumbnailCache,
        this`lastResizeTime, this`handToolActive, this`isPanning, this`panStartPosition, this`panOffset,
        this`isFullscreen)
    {
      isDragging := false;
      sliderValue := SLIDER_MIN;
      isResamplingMode := false;
      previewScaledBytes := Empty;
      finalScaledBytes := Empty;
    }

    /** LoadImage's reset of the pan state: no pan, no anchor, offset zero. */
    method ResetPan()
      requires Valid()
      modifies this
      ensures Valid()
      ensures panOffset == Vec2(0.0, 0.0) && !isPanning && panStartPosition == None
      ensures unchanged(this`currentImage, this`roots, this`imageCollection, this`currentImageIndex,
        this`resamplingBarOpened, this`sliderValue, this`resamplingType, this`original, this`scaledBytes,
        this`thumbnailCache, this`isDragging, this`lastResizeTime, this`previewScaledBytes,
        this`finalScaledBytes, this`isResamplingMode, this`handToolActive, this`isFullscreen)
    {
      panOffset := Vec2(0.0, 0.0);
      isPanning := false;
      panStartPosition := None;
    }

    /** LoadThumbnail: the thumbnail for a file, as `isFile` (exists and is a regular file) and the decoder decide. */
    method LoadThumbnail(p: Path, isFile: bool, decoded: Option<Image>) returns (t: Task)
      ensures t == Perform(Message.ThumbnailLoaded(p, ThumbnailFor(p, isFile, decoded)))
    {
      t := Perform(Message.ThumbnailLoaded(p, ThumbnailFor(p, isFile, decoded)));
    }

    /** ThumbnailLoaded: cache the thumbnail and ask for the next one missing. */
    method ThumbnailLoaded(p: Path, th: Thumb) returns (t: Task)
      requires Valid()
      modifies this
      ensures Valid()
      ensures thumbnailCache == old(thumbnailCache)[p := th]
      ensures unchanged(this`currentImage, this`roots, this`imageCollection, this`currentImageIndex,
        this`resamplingBarOpened, this`sliderValue, this`resamplingType, this`original, this`scaledBytes,
        this`isDragging, this`lastResizeTime, this`previewScaledBytes, this`finalScaledBytes,
        this`isResamplingMode, this`handToolActive, this`isPanning, this`panStartPosition, this`panOffset,
        this`isFullscreen)
      ensures t == ThumbnailRequest(imageCollection, thumbnailCache)
      ensures t != Perform(Message.LoadThumbnail(p))
    {
      thumbnailCache := thumbnailCache[p := th];
      var next := FirstUncached(imageCollection, thumbnailCache);
      t := if next.Some? then Perform(Message.LoadThumbnail(next.value)) else NoTask;
    }

    method ToggleHandTool() returns (t: Task)
      requires Valid()
      modifies this
      ensures Valid()
      ensures handToolActive == !old(handToolActive)
      ensures unchanged(this`currentImage, this`roots, this`imageCollection, this`currentImageIndex,
        this`resamplingBarOpened, this`sliderValue, this`resamplingType, this`original, this`scaledBytes,
        this`thumbnailCache, this`isDragging, this`lastResizeTime, this`previewScaledBytes,
        this`finalScaledBytes, this`isResamplingMode, this`isPanning, this`panStartPosition, this`panOffset,
        this`isFullscreen)
      ensures t == NoTask
    {
      handToolActive := !handToolActive;
      t := NoTask;
    }

    /** MousePressed: a left press with the hand tool starts a pan; its first move will set the anchor. */
    method MousePressed(event: MouseEvent) returns (t: Task)
      requires Valid()
      modifies this
      ensures Valid()
      ensures var starts := handToolActive && event == ButtonPressed(Left);
        && isPanning == (starts || old(isPanning))
        && panStartPosition == if starts then None else old(panStartPosition)
      ensures unchanged(this`currentImage, this`roots, this`imageCollection, this`currentImageIndex,
        this`resamplingBarOpened, this`sliderValue, this`resamplingType, this`original, this`scaledBytes,
        this`thumbnailCache, this`isDragging, this`lastResizeTime, this`previewScaledBytes,
        this`finalScaledBytes, this`isResamplingMode, this`handToolActive, this`panOffset, this`isFullscreen)
      ensures t == NoTask
    {
      if handToolActive && event == ButtonPressed(Left) {
        isPanning := true;
        panStartPosition := None;
      }
      t := NoTask;
    }

    /**
     * MouseReleased: a left release with the hand tool ends the pan and, with
     * an image loaded, renders the panned crop with the selected kernel into
     * the final buffer.
     */
    method MouseReleased(event: MouseEvent) returns (t: Task)
      requires Valid()
      modifies this
      ensures Valid()
      ensures unchanged(this`currentImage, this`roots, this`imageCollection, this`currentImageIndex,
        this`resamplingBarOpened, this`sliderValue, this`resamplingType, this`original, this`thumbnailCache,
        this`isDragging, this`lastResizeTime, this`previewScaledBytes, this`isResamplingMode,
        this`handToolActive, this`panOffset, this`isFullscreen)
      ensures !(handToolActive && event == ButtonReleased(Left)) ==>
        && isPanning == old(isPanning) && panStartPosition == old(panStartPosition)
        && scaledBytes == old(scaledBytes) && finalScaledBytes == old(finalScaledBytes)
      ensures handToolActive && event == ButtonReleased(Left) ==>
        && !isPanning && panStartPosition == None
        && (original.None? ==> scaledBytes == old(scaledBytes) && finalScaledBytes == old(finalScaledBytes))
        && (original.Some? ==>
             var b := CropAndScale(original.value, Zoom(sliderValue), panOffset, resamplingType);
             && scaledBytes == b && finalScaledBytes == b
             && (!isDragging ==> Shown() == FinalBuffer(b)))
      ensures t == NoTask
    {
      if handToolActive && event == ButtonReleased(Left) {
        isPanning := false;
        panStartPosition := None;
        if original.Some? {
          var b := CropAndScale(original.value, Zoom(sliderValue), panOffset, resamplingType);
          scaledBytes := b;
          finalScaledBytes := b;
        }
      }
      t := NoTask;
    }

    /**
     * MouseMoved: while panning, the first move anchors the pointer and later
     * ones move the offset by the pointer's displacement, re-rendering a
     * Point-kernel preview of the panned crop, which the view then shows.
     */
    method MouseMoved(pos: Vec2) returns (t: Task)
      requires Valid()
      modifies this
      ensures Valid()
      ensures unchanged(this`currentImage, this`roots, this`imageCollection, this`currentImageIndex,
        this`resamplingBarOpened, this`sliderValue, this`resamplingType, this`original, this`thumbnailCache,
        this`isDragging, this`lastResizeTime, this`finalScaledBytes, this`isResamplingMode,
        this`handToolActive, this`isPanning, this`isFullscreen)
      ensures !(handToolActive && isPanning) ==>
        && panStartPosition == old(panStartPosition) && panOffset == old(panOffset)
        && scaledBytes == old(scaledBytes) && previewScaledBytes == old(previewScaledBytes)
      ensures handToolActive && isPanning ==>
        && Pan(panStartPosition, panOffset) == Moved(Pan(old(panStartPosition), old(panOffset)), pos)
        && if old(panStartPosition).Some? && original.Some? then
             var b := CropAndScale(original.value, Zoom(sliderValue), panOffset, Point);
             && scaledBytes == b && previewScaledBytes == b
             && Shown() == PreviewBuffer(b)
           else
             scaledBytes == old(scaledBytes) && previewScaledBytes == old(previewScaledBytes)
      ensures t == NoTask
    {
      if handToolActive && isPanning {
        if panStartPosition.Some? {
          PanBy(pos);
        } else {
          panStartPosition := Some(pos);
        }
      }
      t := NoTask;
    }

    /**
     * MouseMoved after the anchor is set: the offset moves by the pointer's
     * displacement, the pointer becomes the anchor, and the panned crop is
     * re-rendered with the Point kernel into the preview.
     */
    method PanBy(pos: Vec2)
      requires Valid() && panStartPosition.Some?
      modifies this
      ensures Valid()
      ensures Pan(panStartPosition, panOffset) == Moved(Pan(old(panStartPosition), old(panOffset)), pos)
      ensures original.Some? ==>
        var b := CropAndScale(original.value, Zoom(sliderValue), panOffset, Point);
        scaledBytes == b && previewScaledBytes == b
      ensures original.None? ==> scaledBytes == old(scaledBytes) && previewScaledBytes == old(previewScaledBytes)
      ensures unchanged(this`currentImage, this`roots, this`imageCollection, this`currentImageIndex,
        this`resamplingBarOpened, this`sliderValue, this`resamplingType, this`original, this`thumbnailCache,
        this`isDragging, this`lastResizeTime, this`finalScaledBytes, this`isResamplingMode,
        this`handToolActive, this`isPanning, this`isFullscreen)
    {
      var last := panStartPosition.value;
      var delta := Vec2(pos.x - last.x, pos.y - last.y);
      panOffset := panOffset.Plus(delta);
      panStartPosition := Some(pos);
      if original.Some? {
        var preview := CropAndScale(original.value, Zoom(sliderValue), panOffset, Point);
        scaledBytes := preview;
        previewScaledBytes := preview;
      }
    }

    method ToggleFullscreen() returns (t: Task)
      requires Valid()
      modifies this
      ensures Valid()
      ensures isFullscreen == !old(isFullscreen)
      ensures unchanged(this`currentImage, this`roots, this`imageCollection, this`currentImageIndex,
        this`resamplingBarOpened, this`sliderValue, this`resamplingType, this`original, this`scaledBytes,
        this`thumbnailCache, this`isDragging, this`lastResizeTime, this`previewScaledBytes,
        this`finalScaledBytes, this`isResamplingMode, this`handToolActive, this`isPanning,
        this`panStartPosition, this`panOffset)
      ensures t == NoTask
    {
      isFullscreen := !isFullscreen;
      t := NoTask;
    }

    /** EscPressed leaves fullscreen, and does nothing otherwise. */
    method EscPressed() returns (t: Task)
      requires Valid()
      modifies this
      ensures Valid()
      ensures !isFullscreen
      ensures unchanged(this`currentImage, this`roots, this`imageCollection, this`currentImageIndex,
        this`resamplingBarOpened, this`sliderValue, this`resamplingType, this`original, this`scaledBytes,
        this`thumbnailCache, this`isDragging, this`lastResizeTime, this`previewScaledBytes,
        this`finalScaledBytes, this`isResamplingMode, this`handToolActive, this`isPanning,
        this`panStartPosition, this`panOffset)
      ensures t == NoTask
    {
      if isFullscreen {
        isFullscreen := false;
      }
      t := NoTask;
    }

    /** UploadToCloud: the handler does nothing. */
    method UploadToCloud(p: Path) returns (t: Task)
      ensures t == NoTask
    {
      t := NoTask;
    }
  }
}
