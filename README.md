# image-browser: the viewer core, modelled in Dafny

image-browser is an iced desktop image viewer written in Rust. This project
models its core:

- the viewer state and `State::update` (src/main.rs), as the class
  `Viewer.State` with one method per `Message`;
- the rule by which `view` picks the main image's buffer (`State.Shown`);
- the two renderers `scale_image_async` and `crop_and_scale`, with their crop
  geometry (`Geometry`);
- the file tree: `FileTreeEntry`, `find_entry_by_path`,
  `load_directory_children` and the expand/collapse toggle of
  ExpandDirectory (`FileTree`);
- the gallery and thumbnail filters (`ImageFormats`), over the parts of
  Rust's `Path` they use (`Paths`);
- the recency list of src/smart_directory.rs (`SmartDirectory`);
- the 300 ms slider throttle and the pan accumulation over whole event
  streams (`Interaction`).

How the model represents the program:

- Every `Task::perform(async { .. })` becomes the `Task` value the method
  returns. Its message is computed at once, since the renderers are pure.
  The sleep before FinalizeDragging becomes `PerformAfter(300, ..)`.
- Pixels are opaque. The resampling kernel yields a raster of the requested
  size that records its source, crop and kernel. An encoded buffer is
  `Empty` or the PNG of such a raster.
- `f32` values are exact reals, and `as u32` is a saturating truncation.
  Slider crop sizes are the exact integer quotient `W*50/slider`.
- The clock is a millisecond count passed as `now`. File dialogs,
  directory listings (`Listed` entries with a kind), `is_file` checks and
  image decoding are parameters. A decoded image is `Some(Image)`, and a
  decoding error is `None`.
- A `&mut` into the tree that `find_entry_by_path` returns becomes an
  address: a list of child indices, read with `At` and written with
  `Replace`.

The model follows the code as written, except for the two corrections listed
under "## Findings". It includes these behaviours:

- Both delays are 300 ms (main.rs:450, main.rs:479), although the comments
  say 500 ms and 800 ms.
- A pending FinalizeDragging is not cancelled by a later slider move. It
  fires whenever `is_dragging` is still set.
- ResamplingTypeChanged re-renders whenever an image is loaded, even during
  a drag.
- Pointer panning is not throttled. Every MouseMoved renders a preview, and
  MouseReleased renders the final image at once.
- LoadImage builds a LoadScaledBytes task and drops it (main.rs:565).
- LoadImage does not clear `scaled_bytes`. With the hand tool active after
  an earlier pan, the view shows the cleared final buffer
  (`State.LoadImage`, last ensures).
- `load_directory_children` never sets `children_loaded`. Only the Recents
  root is ever marked loaded.

## Model

| member | source | states |
|---|---|---|
| Paths.FileName | src/smart_directory.rs:29-32 | `Path::file_name`: when present, it is a non-empty component other than `.` and `..`, without '/' |
| Paths.Extension | src/main.rs:349-350 | `Path::extension`: when present, it holds no '.' and no '/' |
| Paths.Join | src/main.rs:1396-1398 | `PathBuf::join` of a listed name (`DirEntry::path`): the result ends with the name and, unless `dir` is empty, starts with `dir`; no second separator after a `dir` that already ends in '/' |
| Paths.JoinAddsComponent | src/main.rs:1396-1398 | joining a plain name adds exactly that one component to the directory's components, for an empty directory, the root `/` and any other |
| Paths.JoinOntoRoot | src/main.rs:192-196 | joining a name onto the fallback home directory `/` gives `/name`, not `//name` |
| Paths.FileNameOfChild | src/main.rs:1396-1398 | the file name of `dir.join(name)` is `name` for every directory path |
| Paths.ExtensionOfChild | src/main.rs:346-350 | the extension of `dir.join(stem.ext)` is `ext` for every directory path |
| ImageFormats.IsGalleryImage | src/main.rs:349-356 | the gallery keeps a path whose lower-cased extension is png, jpg, jpeg, gif or svg; a path it keeps always has an extension |
| ImageFormats.IsThumbnailFormat | src/main.rs:590-598 | LoadThumbnail decodes a path whose lower-cased extension is png, jpg, jpeg, gif, bmp, tiff or webp; a path it accepts always has an extension |
| ImageFormats.IsTreeImageName | src/main.rs:1400-1408 | the tree keeps a name ending with one of five case-sensitive suffixes; such a name is at least four characters long |
| ImageFormats.HasImageSuffix | src/main.rs:1400-1408 | the `image_flag` loop is true exactly when the name ends with one of the five case-sensitive suffixes |
| ImageFormats.SvgListedButNotThumbnailed | src/main.rs:590-603 | an `.svg` file passes ExpandDirectory's filter but fails LoadThumbnail's format list |
| ImageFormats.BmpThumbnailedButNotListed | src/main.rs:349-356 | a `.bmp` file fails the gallery filter but passes LoadThumbnail's format list |
| ImageFormats.UpperCaseListedButNotInTree | src/main.rs:1400-1408 | a `.PNG` file is listed in the gallery (the extension is lower-cased) but is dropped from the tree (the suffix test is case-sensitive) |
| ImageFormats.DotFileInTreeButNotListed | src/main.rs:1400-1408 | a file named `.png` passes the tree's suffix test but has no extension for the gallery |
| Geometry.AsU32 | src/main.rs:1336-1344 | `as u32` on a float: 0 at or below zero, at most `u32::MAX`, and the floor of any value in range |
| Geometry.Resample | src/main.rs:1290-1299 | the kernel yields exactly the requested size with three samples per pixel, from a non-empty crop inside the source |
| Geometry.CenterCropAsWritten | src/main.rs:1278-1289 | the crop as written: each side is the largest whole size whose zoomed size fits the source (`floor(W*50/slider)`), and a crop that fits is centred, the left margin equal to the right one or one pixel less |
| Geometry.CenterCrop | src/main.rs:1278-1289 | the corrected crop is at least one pixel each way, and it equals the as-written crop exactly when neither as-written side is zero |
| Geometry.CenterCropAsWrittenInside | src/main.rs:1282-1286 | for slider values 50..150 the as-written crop is `W*50/slider` by `H*50/slider`, centred, and inside the source |
| Geometry.CenterCropExample | src/main.rs:1276-1286 | zoom 2.0 on 200x100 crops the central 100x50 window at (50, 25) |
| Geometry.ThinSourceCropsToNothing | src/main.rs:1282-1299 | as written, a source with `W*50 < slider` gets a zero-width crop, which `resize::new` refuses |
| Geometry.ThinSourceExample | src/main.rs:1282-1299 | a 1x1 image at slider 51 gets the crop (0, 0, 0, 0) |
| Geometry.CenterCropInside | src/main.rs:1282-1286 | the corrected crop is non-empty and inside the source, and equals the as-written crop whenever that one is non-empty |
| Geometry.ScaleImage | src/main.rs:1270-1318 | no image gives an empty buffer; otherwise a PNG of the source's full size, made with the given kernel from the centred crop |
| Geometry.PanAxisInside | src/main.rs:1336-1344 | on one axis the clamped, truncated corner plus the cut window size stays inside the source, the window is at least one pixel, and its size is the truncated view when the view fits |
| Geometry.PanCrop | src/main.rs:1330-1346 | the crop of `crop_and_scale`: corner and size are `u32` values (PanCropInside, PanCropNeutral, PanCropAntitone and PanCropMatchesCenterCrop state its behaviour) |
| Geometry.PanCropInside | src/main.rs:1330-1344 | for any zoom and any pan offset the crop of `crop_and_scale` is non-empty and inside the source |
| Geometry.PanCropNeutral | src/main.rs:1330-1344 | at zoom 1.0 the crop is the whole source, whatever the offset |
| Geometry.PanCropAntitone | src/main.rs:1336-1341 | a larger pan offset never moves the crop's corner right or down |
| Geometry.CropAndScale | src/main.rs:1321-1368 | a PNG of the source's full size, made with the given kernel from the pan crop, which is non-empty and inside the source |
| Geometry.RenderersAgreeAtNeutralZoom | src/main.rs:1276-1286 | at slider 50 both renderers produce the same buffer, of the whole source, whatever the offset |
| Geometry.PanCropMatchesCenterCrop | src/main.rs:1330-1344 | with no pan, the pan crop has the slider crop's size and a corner at most one pixel above or left of it |
| Geometry.PanAxisMatches | src/main.rs:1330-1344 | the one-axis form of PanCropMatchesCenterCrop |
| SmartDirectory.RecentItem.Name | src/smart_directory.rs:28-34 | the path's file name, or "Unknown" when it has none; never empty, never holding '/' |
| SmartDirectory.PathsOf | src/main.rs:375-378 | the recent paths, one per item, in list order |
| SmartDirectory.IndexOf | src/smart_directory.rs:56 | `position`: the first index holding the path, or the length when no item does |
| SmartDirectory.Position | src/smart_directory.rs:56 | the search loop finds a path exactly when it is listed, at its first index |
| SmartDirectory.Added | src/smart_directory.rs:55-66 | `add_item`'s list: at most one item longer, and, with a bound of at least one, it holds the added path (AddedRevisit, AddedNew and AddedKeepsInvariant give its full behaviour) |
| SmartDirectory.AddedRevisit | src/smart_directory.rs:56-59 | re-adding a listed path raises its count by one and changes no other item, order or path |
| SmartDirectory.AddedNew | src/smart_directory.rs:60-64 | a new path is appended with one view, and on overflow exactly the item at index 0 is dropped |
| SmartDirectory.AddedKeepsInvariant | src/smart_directory.rs:55-66 | `add_item` keeps the list within `max_items` and its paths distinct |
| SmartDirectory.RevisitDoesNotProtect | src/smart_directory.rs:55-66 | eviction follows first addition: re-viewing the oldest item of a full list does not save it from the next new path |
| SmartDirectory.RecentManager.constructor | src/smart_directory.rs:48-53 | an empty list with the given bound |
| SmartDirectory.RecentManager.AddItem | src/smart_directory.rs:55-66 | the new list is `Added(old list, max, p)`, with the bound and distinctness kept |
| SmartDirectory.RecentManager.GetRecentItems | src/smart_directory.rs:68-70 | returns the list unchanged |
| Interaction.ElapsedMs | src/main.rs:447-448 | `duration_since` in milliseconds: the time from `last` to `now`, and 0 for a clock that went back |
| Interaction.Admits | src/main.rs:447-455 | a SliderChanged renders a preview exactly when it comes at least 300 ms after the last render |
| Interaction.PreviewRenders | src/main.rs:447-455 | the number of previews a stream of slider moves starts, at most one per move |
| Interaction.PreviewRendersBounded | src/main.rs:447-455 | over any ascending stream of slider moves, the previews started times 300 ms is at most the span since the last render |
| Interaction.QuickStreamRendersNothing | src/main.rs:447-455 | a stream that ends within 300 ms of the last render starts no preview |
| Interaction.Moved | src/main.rs:685-688 | a move records the pointer; the first move after a press leaves the offset alone, and a later one adds exactly the pointer's displacement since the recorded position |
| Interaction.MovedAll | src/main.rs:683-704 | after a stream of moves the recorded position is the last one, and no moves change nothing |
| Interaction.PanFrom | src/main.rs:685-688 | from a recorded position, the offset grows by the displacement from it to the last pointer position |
| Interaction.PanFollowsPointer | src/main.rs:683-704 | after a press, the first move only anchors, and the offset ends moved by exactly the pointer's displacement from the first move to the last |
| FileTree.Replace | src/main.rs:1371-1388 | writing below a node keeps that node's path, its kind and its number of children |
| FileTree.Find | src/main.rs:1371-1388 | finds a node exactly when the tree holds the path; the address leads to a node with that path; a match below the root means the root does not match and no earlier child holds the path (pre-order) |
| FileTree.FindFrom | src/main.rs:1379-1385 | the children loop: the first child holding the path, the address `find` returns inside it, and no earlier child holding it |
| FileTree.AtReplace | src/main.rs:1371-1388 | reading back through the reference gives the node just written |
| FileTree.ReplaceTwice | src/main.rs:1371-1388 | a second write through the same reference overrides the first |
| FileTree.FindAfterReplace | src/main.rs:1371-1388 | after writing a node with the same path at the found address, `find` returns the same address |
| FileTree.FindFromSkips | src/main.rs:1379-1385 | children that do not hold the path are skipped, so the search lands in the first child that does |
| FileTree.Toggled | src/main.rs:298-326 | a directory flips `expanded` and keeps its path and name; a load is needed exactly for a collapsed, unloaded directory other than Recents; a file is left alone |
| FileTree.CollapseThenExpandReloads | src/main.rs:309-321 | collapsing a directory other than Recents drops its children, so opening it again asks for a load |
| FileTree.RecentsKeepsChildren | src/main.rs:309-321 | toggling Recents never drops its children and never asks for a load |
| FileTree.DefaultEntry | src/main.rs:145-160 | a directory gives a collapsed, unloaded, childless directory node; anything else gives a file node; the path is `dir.join(name)` as `Paths.Join` models it, with no doubled separator after `/` |
| FileTree.TreeChildren | src/main.rs:1394-1416 | the children kept are exactly the default entries of the listed items that pass the filter: directories not starting with '.', files with an image suffix |
| FileTree.LoadChildren | src/main.rs:1395-1416 | the listing loop builds `TreeChildren` |
| FileTree.ReplaceFrame | src/main.rs:1371-1388 | writing through one reference leaves every node on a diverging reference reachable and unchanged |
| FileTree.LoadedChildren | src/main.rs:1390-1419 | `load_directory_children`'s tree: the root keeps its path and kind (LoadedChildrenLands states where the listing lands and what stays) |
| FileTree.LoadedChildrenLands | src/main.rs:1390-1419 | the listing replaces the children of the node `find` returns, `find` still returns it, and every node whose reference leaves the path to it reads as before |
| FileTree.FirstRoot | src/main.rs:297-329 | the first root holding the path, with no earlier root holding it |
| FileTree.FindRoot | src/main.rs:297-299 | the loop over the roots returns `FirstRoot` |
| FileTree.LoadDirectoryChildren | src/main.rs:1390-1419 | returns the tree `LoadedChildren` describes |
| FileTree.ToggledRoots | src/main.rs:293-331 | the toggle pass keeps the number of roots, and changes nothing and asks for no load when no root holds the path |
| FileTree.LoadedRoots | src/main.rs:333-341 | the load pass keeps the number of roots and each root's path |
| FileTree.ExpandedTree | src/main.rs:293-339 | the tree ExpandDirectory leaves has as many roots, and is unchanged when no root holds the path |
| FileTree.ExpandInTree | src/main.rs:293-339 | the toggle pass and the conditional load pass together give `ExpandedTree` |
| FileTree.ExpandOpensAndLoads | src/main.rs:293-339 | opening a collapsed, unloaded directory other than Recents expands it and gives it the listing's children, and leaves every other root untouched |
| FileTree.FirstRootSkips | src/main.rs:297-329 | roots that do not hold the path are skipped |
| FileTree.GalleryImages | src/main.rs:343-358 | the collection is exactly the listed regular files whose lower-cased extension is png, jpg, jpeg, gif or svg |
| FileTree.ListImages | src/main.rs:343-358 | the listing loop builds `GalleryImages` |
| Viewer.ThumbnailFor | src/main.rs:576-629 | a missing or non-regular file gets the first placeholder; an unsupported extension gets the second; a regular file of a thumbnail format that does not decode gets the error placeholder; a real thumbnail comes exactly from a regular file of a thumbnail format that decodes |
| Viewer.SvgThumbnailIsPlaceholder | src/main.rs:590-603 | an svg that the gallery lists always gets the unsupported-format placeholder |
| Viewer.FirstUncachedOf | src/main.rs:362-371 | none exactly when every path is cached; otherwise the first uncached path in collection order |
| Viewer.FirstUncached | src/main.rs:638-647 | the loop returns `FirstUncachedOf` |
| Viewer.ThumbnailRequest | src/main.rs:363-371 | no task exactly when every path of the collection has a thumbnail; otherwise LoadThumbnail for a listed path that has none |
| Viewer.Uncached | src/main.rs:638-648 | the set of paths that are in the collection and not in the cache, both directions |
| Viewer.ThumbnailChainShrinks | src/main.rs:635-650 | caching the requested thumbnail strictly shrinks the set of uncached paths, so the LoadThumbnail/ThumbnailLoaded chain ends |
| Viewer.PositionOf | src/main.rs:396-400 | none exactly when the path is not listed; otherwise its first index |
| Viewer.NextIndex | src/main.rs:410-411 | the wrapped next index is inside the collection |
| Viewer.PreviousIndex | src/main.rs:423-427 | the wrapped previous index is inside the collection |
| Viewer.NextPreviousInverse | src/main.rs:408-431 | within the collection, next and previous stay inside and undo each other |
| Viewer.RelistAsWritten | src/main.rs:342-343 | ExpandDirectory as written replaces the collection and keeps the old index |
| Viewer.StaleIndexAfterRelist | src/main.rs:421-431 | five images at index 4, relisted to two: the index is out of range and PickPreviousImage reads index 3 |
| Viewer.Relist | src/main.rs:342-343 | the corrected relist keeps the index inside the new collection |
| Viewer.Walk | src/main.rs:408-436 | a walk of next/previous steps never changes the collection |
| Viewer.WalkKeeps | src/main.rs:408-436 | any sequence of next/previous steps keeps an in-range index in range |
| Viewer.WalkStaysInRange | src/main.rs:408-436 | after the corrected relist, any walk reads inside the new collection |
| Viewer.RecentEntries | src/main.rs:213-221 | the Recents root gets one file node per recent item, named by `RecentItem::name` |
| Viewer.Relisted | src/main.rs:342-388 | ExpandDirectory relists nothing exactly when the path is not Recents and cannot be read |
| Viewer.State.Shown | src/main.rs:854-877 | a buffer is shown exactly in zoom or hand-tool mode with a non-empty shared buffer: the preview during a drag or pan, the final render otherwise; else the current file, else a blank tile |
| Viewer.State.constructor | src/main.rs:191-261 | Recents and the home directory as roots, the home directory loaded from its listing, an empty recency list bounded by 20, slider 50, Lanczos3, nothing loaded |
| Viewer.State.SelectImage | src/main.rs:265-279 | the picked file becomes current, the collection empties, and LoadImage is asked for the file (the empty path when cancelled) |
| Viewer.State.ChangeDirectory | src/main.rs:280-287 | no task |
| Viewer.State.NoOp | src/main.rs:288 | no task |
| Viewer.State.SelectFolder | src/main.rs:407 | no task |
| Viewer.State.ExpandDirectory | src/main.rs:289-392 | the tree becomes `ExpandedTree`; a readable directory or Recents replaces the collection, starting at index 0, and asks for the first missing thumbnail; an unreadable directory changes only the tree |
| Viewer.State.ShowCollection | src/main.rs:342-371 | the relisted collection from its first image, and the thumbnail request for it |
| Viewer.State.PickImage | src/main.rs:393-406 | the file becomes current at its index in the collection (0 if unlisted), and LoadImage is asked for it |
| Viewer.State.PickNextImage | src/main.rs:408-420 | one on with wrap-around and that image current; an empty collection changes nothing; LoadImage for the current file |
| Viewer.State.PickPreviousImage | src/main.rs:421-436 | one back with wrap-around and that image current; an empty collection changes nothing; LoadImage for the current file |
| Viewer.State.OpenResamplingBar | src/main.rs:437-441 | the bar flips |
| Viewer.State.SliderChanged | src/main.rs:442-469 | value, drag and zoom mode are set at once; a Point preview of the new value is started, and becomes the last render time, only when 300 ms have passed |
| Viewer.State.SliderReleased | src/main.rs:471-484 | FinalizeDragging after 300 ms |
| Viewer.State.FinalizeDragging | src/main.rs:486-505 | ends a drag in progress and renders with the selected kernel; otherwise no task |
| Viewer.State.ResamplingTypeChanged | src/main.rs:506-521 | the kernel is selected, and a loaded image is re-rendered with it at once |
| Viewer.State.ImageResized | src/main.rs:523-534 | a final result always lands in the final and shared buffers; a preview result lands only during a drag; a non-empty final result, in zoom or hand-tool mode and outside a drag or pan, is what the view shows (outside those modes the view shows the file) |
| Viewer.State.LoadScaledBytes | src/main.rs:535-545 | a non-empty shared buffer is re-rendered with the current slider and kernel |
| Viewer.State.LoadImage | src/main.rs:546-570 | the path is recorded in the recency list; zoom and pan are reset and both buffers cleared; a decoded image replaces the original and asks for the upload; the stale shared buffer makes the view show an empty final buffer in hand-tool mode |
| Viewer.State.ResetZoom | src/main.rs:552-556 | no drag, slider 50, zoom mode off, both buffers cleared, nothing else changed |
| Viewer.State.ResetPan | src/main.rs:557-559 | no pan, no anchor, zero offset, nothing else changed |
| Viewer.State.LoadThumbnail | src/main.rs:572-633 | ThumbnailLoaded with `ThumbnailFor` the file |
| Viewer.State.ThumbnailLoaded | src/main.rs:635-651 | the thumbnail is cached, the next missing one is asked for, and never the one just cached |
| Viewer.State.ToggleHandTool | src/main.rs:652-655 | the hand tool flips |
| Viewer.State.MousePressed | src/main.rs:656-664 | a left press with the hand tool starts a pan with no anchor; anything else changes nothing |
| Viewer.State.MouseReleased | src/main.rs:665-682 | a left release with the hand tool ends the pan and renders the pan crop with the selected kernel into the shared and final buffers, which the view then shows outside a slider drag |
| Viewer.State.MouseMoved | src/main.rs:683-706 | while panning, the pan fields follow `Moved`, and after the anchor the Point preview of the new crop is what the view shows; otherwise nothing changes |
| Viewer.State.PanBy | src/main.rs:685-700 | the offset moves by the pointer's displacement, the pointer becomes the anchor, and a loaded image is re-rendered with the Point kernel into the preview |
| Viewer.State.ToggleFullscreen | src/main.rs:708-711 | fullscreen flips |
| Viewer.State.EscPressed | src/main.rs:712-717 | fullscreen is off afterwards |
| Viewer.State.UploadToCloud | src/main.rs:718-720 | no task and no change |

## Left out

- `current_path` is left out. SelectImage, ChangeDirectory and PickImage set it, and no modelled code reads it.
- ChangeDirectory's `is_dir` check and error message are left out, because the only field it writes is `current_path`.
- `ImageReader::open(..).expect(..)` in LoadImage (main.rs:561) and LoadThumbnail (main.rs:606) panics when a file cannot be opened. One such case is the empty path after a cancelled dialog. The model receives the decoder's result as a parameter and does not model the panic.
- Persistence of the recency list is left out: `load_from_file`, `save_to_file`, and `dirs::data_dir().unwrap()` in LoadImage. The constructor starts from an empty list, the case with no saved file.
- RecentItem's timestamps and file size are left out, because nothing in the core reads them.
- Paths are compared as strings. `PathBuf`'s `==` and `Hash` compare components, so Rust treats `/a//x.png`, `/a/./x.png` and `/a/x.png` as one path, and the model treats them as three. This matters for `position` in `add_item`, `find_entry_by_path`, the thumbnail cache and the Recents test. `Paths.Join` adds no doubled separator of its own, but a path from the file dialog or the home directory can hold one.
- `view_count` is an unbounded count. `u32` overflow after 2^32 views is not modelled.
- ExpandDirectory reads the directory twice, once in `load_directory_children` and once for the gallery. The model gives both reads the same listing.
- `dirs::home_dir()` is a constructor parameter.
- Renderer sizes: `display_width * display_height * 3` is a `u32` product, and its overflow for images above about 1.4 gigapixels is not modelled.
- Geometry.ScaleImage: renders from the corrected crop `CenterCrop`, which is at least one pixel wide and high. For a thin image the source's crop is zero-wide and `resize::new(..).unwrap()` panics (main.rs:1296-1304). Only Geometry.CenterCropAsWritten, Geometry.ThinSourceCropsToNothing and Geometry.ThinSourceExample model that case. SliderChanged, FinalizeDragging, ResamplingTypeChanged and LoadScaledBytes inherit the correction.
- Viewer.State.LoadImage: requires a decoded image to be at least 1x1, with sides that fit `u32` (`ValidImage`). The source accepts a zero-sided image and then panics in both renderers. The model does not cover that case.
- Geometry.ScaleImage and Geometry.CropAndScale use exact real arithmetic for `f32`. Rounding at the last bit of the crop size or corner is not modelled.
- Pixel values, the resampling kernels' coefficients, PNG encoding and the 80x80 thumbnail resize are left out. Rasters record only their size, source, crop and kernel.
- Thumbnail pixels are left out. A thumbnail is the decoded image's identity.
- The `view` layout, `view_file_tree`, `subscription`, button styles (src/button_style.rs) and the cloud client (src/cos_client.rs) are GUI or network code outside the core.
- Concurrency of `Task::perform` is left out. A returned task stands for a message that is delivered later, and the order of delivery is the caller's concern.

## Findings

| source | as written | input that shows it | evidently intended | confidence | as-written member | corrected member |
|---|---|---|---|---|---|---|
| src/main.rs:1282-1299 | `scale_image_async` truncates `W / scale` to `u32` with no lower bound, so a thin image gets a zero-width crop and `resize::new(..).unwrap()` panics | a 1x1 image with the slider at 51 gives the crop (0, 0, 0, 0) | keep the crop at least one pixel, as `crop_and_scale` does with `max(1.0)` | high, not executed | Geometry.ThinSourceExample | Geometry.CenterCropInside |
| src/main.rs:342-343 | ExpandDirectory replaces `image_collection` and keeps `current_image_index`, so a shorter new collection leaves the index out of range | five images at index 4, then a folder of two, then PickPreviousImage indexes element 3 | reset the index to 0, as SelectImage does | high, not executed | Viewer.StaleIndexAfterRelist | Viewer.WalkStaysInRange |

The rest of the model uses both corrections. `Geometry.ScaleImage` renders from
`CenterCrop`, which is never empty. `Viewer.State` uses the corrected relist, and
its invariant `Valid` keeps the index inside the collection.
