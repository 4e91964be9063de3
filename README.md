# Image browser: viewport transform and folder scan, in Dafny

This project models the two pieces of logic of a small desktop image
browser.

- **The preview viewer** (`ImagePreviewModal`). It holds a zoom level from
  the table `[1, 1.5, 2, 2.5, 3]`, a rotation in quarter turns and a pan
  offset. It changes them through a closed set of commands:
  - the mouse wheel (clamped zoom steps);
  - a middle click (a wrapping zoom step);
  - rotate, reset, and a new image;
  - the primary-button drag, with its move and release;
  - the Escape key and a click on the backdrop, which request closing.

  A zoom moves the offset so that an anchor point keeps its place on
  screen. The viewer's title is the image title, else the last piece of
  its path.
- **The folder scan** of the desktop back end (`is_image` and
  `load_images_from_dir`). It walks a chosen folder and keeps the files
  with an image extension. It buckets them by parent directory in an
  ordered map, with a group for the chosen folder created up front. It
  sorts each group's paths, then orders the groups with the chosen folder
  first and the rest by lower-cased name.

Modules:

- `Wrappers`: `Option` and `Result`.
- `Paths`: the last separator of a string and the piece after it.
- `Strings`: Rust's `String` order, ASCII lower-casing, and `Vec<String>::sort`.
- `Viewer`: the zoom table and `getNextZoom`, quarter-turn rotation, the
  anchor-preserving offset update, the display name, and the component
  state as the class `PreviewModal` with one method per handler or effect.
- `Folders`: `Path::file_name`, `Path::extension`, `Path::parent`,
  `is_image`, the ordered map as a key-sorted list of slots, the walk loop
  as a method, and the two sorts.

Zoom, offset and anchors are exact reals. `Math.cos`/`Math.sin` at quarter
turns are the exact quarter-turn map. The directory walk is an input
sequence of entries. Whether the root exists and is a directory is an
input flag.

Points where the code's behaviour is easy to mistake:
- The accepted extensions include `jpeg` (`src-tauri/src/lib.rs:21`).
- The pre-rotated anchor does not keep the pointed-at content fixed under
  rotation or at zoom levels other than 1 (see Findings).
- Unmounting removes the window listeners but leaves `isPanning` as it
  was. The model's `Unmount` does the same.

## Model

| member | source | states |
|---|---|---|
| Viewer.FindIndex | src/components/ImagePreviewModal.tsx:72 | `findIndex` with `===`: -1 exactly when the zoom is absent, otherwise the first index holding it |
| Viewer.NextZoom | src/components/ImagePreviewModal.tsx:70-80 | the next zoom is always a table entry; a zoom outside the table gives the first entry, 1 |
| Viewer.ZoomStepsIncreasing | src/components/ImagePreviewModal.tsx:16 | the zoom table is strictly increasing |
| Viewer.StepIndex | src/components/ImagePreviewModal.tsx:72 | for a table entry, `findIndex` returns the index of that entry |
| Viewer.NextZoomAt | src/components/ImagePreviewModal.tsx:70-80 | from the entry at index i, `getNextZoom` gives the entry at the neighbouring index, clamped or wrapped at the ends |
| Viewer.NextIndex | src/components/ImagePreviewModal.tsx:74-76 | the next index stays inside the table; `NextIndexIsStepTarget` pins it to the neighbouring index, clamped or wrapped |
| Viewer.NextIndexIsStepTarget | src/components/ImagePreviewModal.tsx:74-76 | the `%` rule (wrap) and the `min`/`max` rule (clamp) each pick the neighbouring index, or the far end or the same end past an end |
| Viewer.WrappedIndex | src/components/ImagePreviewModal.tsx:75 | `(index + direction + 5) % 5` is the wrapping neighbour: 0 after 4 and 4 before 0 |
| Viewer.NextZoomIsAdjacentStep | src/components/ImagePreviewModal.tsx:74-77 | without wrap, a step up gives the next larger entry with no entry in between and stays put only at 3; a step down likewise, staying put only at 1 |
| Viewer.NoStepBetween | src/components/ImagePreviewModal.tsx:16 | no table entry lies strictly between two neighbouring entries |
| Viewer.NextZoomClampsAtEnds | src/components/ImagePreviewModal.tsx:76 | without wrap: 3 stepped up is 3 and 1 stepped down is 1 |
| Viewer.NextZoomWrapsAtEnds | src/components/ImagePreviewModal.tsx:75 | with wrap: 3 stepped up is 1 and 1 stepped down is 3 |
| Viewer.NextZoomWrapInside | src/components/ImagePreviewModal.tsx:74-76 | away from the end it moves towards, wrap and clamp give the same step |
| Viewer.NextZoomUndo | src/components/ImagePreviewModal.tsx:70-80 | a step and a step back restore the zoom: always with wrap, and without wrap unless the first step was clamped |
| Viewer.StepBack | src/components/ImagePreviewModal.tsx:74-76 | on indices, stepping back undoes any step that was not clamped |
| Viewer.CycleZoom | src/components/ImagePreviewModal.tsx:110 | after one or more middle clicks the zoom is a table entry |
| Viewer.CycleStep | src/components/ImagePreviewModal.tsx:110 | each middle click moves to the wrapping neighbour above |
| Viewer.FiveClicksCycle | src/components/ImagePreviewModal.tsx:98-115 | five middle clicks bring any table zoom back to itself |
| Viewer.FiveStepsUp | src/components/ImagePreviewModal.tsx:75 | five wrapping index steps go once round the table |
| Viewer.Rotate | src/components/ImagePreviewModal.tsx:136 | `(r + 90) % 360` stays in {0, 90, 180, 270} (by its type) and always changes the rotation |
| Viewer.FourRotations | src/components/ImagePreviewModal.tsx:135-138 | four quarter turns give back the starting rotation |
| Viewer.RotatePoint | src/components/ImagePreviewModal.tsx:56-68 | the result is (x cos θ - y sin θ, x sin θ + y cos θ), with cos and sin exact at the quarter turns (1, 0, -1, 0 and 0, 1, 0, -1); rotation 0 returns the point unchanged |
| Viewer.RotatePointComposes | src/components/ImagePreviewModal.tsx:56-68 | turning by a, then by b, is turning by (a + b) mod 360; a further quarter turn matches the rotate command |
| Viewer.RotatePointScales | src/components/ImagePreviewModal.tsx:56-68 | turning a point commutes with scaling it |
| Viewer.RotatePointInverse | src/components/ImagePreviewModal.tsx:56-68 | the opposite rotation undoes a turn, in either order |
| Viewer.ScreenPos | src/components/ImagePreviewModal.tsx:239-240 | where `translate(offset) scale(zoom) rotate(rotation)` about the image centre draws an image-local point: the centre is drawn at the offset, and unrotated a point moves out from it by the zoom factor |
| Viewer.ZoomOffset | src/components/ImagePreviewModal.tsx:84-92 | when the zoom does not change, the offset does not change |
| Viewer.ZoomOffsetKeepsAnchor | src/components/ImagePreviewModal.tsx:84-92 | after the update, the image-local point equal to the anchor is drawn where it was drawn before, for every rotation |
| Viewer.ZoomRoundTrip | src/components/ImagePreviewModal.tsx:84-92 | zooming a to b and back to a at one anchor and rotation restores the offset exactly |
| Viewer.ZoomScenarios | src/components/ImagePreviewModal.tsx:84-92 | zoom 1 to 1.5 at anchor (100, 50) gives offset (-50, -25) unrotated and (25, -50) at a quarter turn |
| Viewer.PointerAnchor | src/components/ImagePreviewModal.tsx:122-128 | the anchor is the pointer minus the rectangle's centre, or (0, 0) without a rectangle |
| Viewer.PointerAnchorDriftsWhenTurned | src/components/ImagePreviewModal.tsx:117-133 | at a quarter turn, one wheel tick moves the content under the pointer from (100, 50) to (175, 25) |
| Viewer.PointerAnchorDriftsWhenZoomed | src/components/ImagePreviewModal.tsx:117-133 | unrotated at zoom 2, one wheel tick moves the content under the pointer from (100, 50) to (75, 37.5) |
| Viewer.ContentAnchor | src/components/ImagePreviewModal.tsx:103-109 | corrected anchor: (0, 0) without a rectangle, otherwise the image-local point under the pointer |
| Viewer.ContentAnchorUnderPointer | src/components/ImagePreviewModal.tsx:122-128 | the corrected anchor, drawn at the current zoom and rotation, lands exactly on the pointer |
| Viewer.ContentAnchorKeepsPointerFixed | src/components/ImagePreviewModal.tsx:82-96 | with the corrected anchor, the content under the pointer stays under it across any zoom change, rotation and offset |
| Viewer.DisplayName | src/components/ImagePreviewModal.tsx:27-30 | a non-empty title wins. Without a title, a non-empty path not ending in '/' or '\\' gives its last piece (the separator-free suffix after the last '/' or '\\', the whole path when there is none); a path that is empty or ends in a separator gives the whole path. The name is empty only when title and path are both empty |
| Viewer.PreviewModal.constructor | src/components/ImagePreviewModal.tsx:19-25 | the initial state: zoom 1, rotation 0, offset (0, 0), not panning, both pan refs at (0, 0) |
| Viewer.PreviewModal.ImageChanged | src/components/ImagePreviewModal.tsx:32-36 | a new image resets zoom, rotation and offset and leaves the pan state alone |
| Viewer.PreviewModal.ApplyZoomAtPoint | src/components/ImagePreviewModal.tsx:82-96 | commits the zoom and the offset given by `ZoomOffset`; rotation and pan state unchanged |
| Viewer.PreviewModal.HandleAuxClick | src/components/ImagePreviewModal.tsx:98-115 | only button 1 zooms: one wrapping step up at the pointer anchor; any other button changes nothing; the zoom stays a table entry |
| Viewer.PreviewModal.HandleWheel | src/components/ImagePreviewModal.tsx:117-133 | `deltaY < 0` steps up and anything else (0 included) steps down, clamped, at the pointer anchor; the zoom stays a table entry |
| Viewer.PreviewModal.HandleRotate | src/components/ImagePreviewModal.tsx:135-138 | rotation becomes `Rotate(rotation)`; zoom and offset unchanged |
| Viewer.PreviewModal.HandleReset | src/components/ImagePreviewModal.tsx:140-144 | zoom 1, rotation 0, offset (0, 0); the pan state unchanged |
| Viewer.PreviewModal.HandleBackdropClick | src/components/ImagePreviewModal.tsx:146-153 | closing is requested exactly when the click's target is the backdrop itself |
| Viewer.PreviewModal.HandleKeyDown | src/components/ImagePreviewModal.tsx:46-54 | closing is requested exactly for Escape while the listener is attached |
| Viewer.PreviewModal.HandleMouseDown | src/components/ImagePreviewModal.tsx:155-164 | button 0 starts a pan and records the pointer and the current offset; other buttons change nothing |
| Viewer.PreviewModal.HandleMouseMove | src/components/ImagePreviewModal.tsx:168-175 | while panning, the offset becomes the start offset plus the pointer's displacement; otherwise nothing changes |
| Viewer.PreviewModal.HandleMouseUp | src/components/ImagePreviewModal.tsx:176 | releasing ends the pan while the listener is attached |
| Viewer.PreviewModal.Unmount | src/components/ImagePreviewModal.tsx:177-182 | the listeners are gone; the state is unchanged |
| Viewer.RotateFourTimes | src/components/ImagePreviewModal.tsx:135-138 | four presses of rotate leave rotation, zoom and offset as they were |
| Viewer.Drag | src/components/ImagePreviewModal.tsx:155-183 | a drag from P0 to P1 moves the offset by exactly P1 - P0, whatever the zoom and rotation, and ends the pan |
| Viewer.WheelDuringDrag | src/components/ImagePreviewModal.tsx:166-175 | a wheel tick during a drag changes the zoom, but the next move resets the offset to start offset plus displacement, discarding the zoom's adjustment |
| Viewer.WheelUpThenDown | src/components/ImagePreviewModal.tsx:117-133 | a tick up and a tick down at the same anchor (both ticks see the same pointer and the same rectangle) restore zoom and offset, unless the zoom was at 3 |
| Viewer.WheelUpThenDownAtFixedPointer | src/components/ImagePreviewModal.tsx:117-133 | when the rectangle follows the offset, the second tick's anchor differs: from zoom 1 and offset (0, 0) with the pointer at (100, 50) from the centre, up then down goes (0, 0) to (-50, -25) to (25, 12.5) |
| Paths.LastSepSpec | src/components/ImagePreviewModal.tsx:28 | the last separator found has no separator after it; -1 means there is none |
| Paths.LastSepIs | src-tauri/src/lib.rs:17 | a separator (or -1) with no separator after it is the last one |
| Paths.LastSegment | src/components/ImagePreviewModal.tsx:28 | `split(/[/\\]/).pop()`: the piece after the last separator, the whole string without one; `LastSegmentSpec` states what it is |
| Paths.LastSegmentSpec | src/components/ImagePreviewModal.tsx:28 | the last piece is a separator-free suffix, preceded by a separator unless it is the whole string |
| Strings.Less | src-tauri/src/lib.rs:81 | `String`'s `Ord`: lexicographic by character, a proper prefix first; `LessIrreflexive`, `LessTransitive`, `LessTotal` and `LessAsymmetric` make it a strict total order |
| Strings.LessIrreflexive | src-tauri/src/lib.rs:81 | no string sorts before itself |
| Strings.LessTransitive | src-tauri/src/lib.rs:81 | the string order is transitive |
| Strings.LessTotal | src-tauri/src/lib.rs:81 | any two strings are equal or ordered one way |
| Strings.LessAsymmetric | src-tauri/src/lib.rs:81 | two strings are never ordered both ways |
| Strings.LowerChar | src-tauri/src/lib.rs:19 | A-Z map to a-z (code point + 32); every other character is kept |
| Strings.AsciiLower | src-tauri/src/lib.rs:19 | same length, each character lower-cased on its own |
| Strings.AsciiLowerIdempotent | src-tauri/src/lib.rs:19 | lower-casing twice is lower-casing once |
| Strings.InsertSorted | src-tauri/src/lib.rs:81 | inserting into a sorted list gives a sorted list holding one more copy of the element |
| Strings.SortStrings | src-tauri/src/lib.rs:81 | `sort()` gives a sorted permutation of its input |
| Folders.IsImageExtension | src-tauri/src/lib.rs:19-21 | the extension, ASCII lower-cased, is one of the eight accepted ones; an accepted extension has 3 or 4 characters |
| Folders.IsImage | src-tauri/src/lib.rs:15-23 | `is_image`: a file name with an accepted extension; `IsImageIff` states it character by character |
| Folders.FileName | src-tauri/src/lib.rs:17 | `Path::file_name`: the last component unless it is empty or ".."; `FileNameIs` states it |
| Folders.Extension | src-tauri/src/lib.rs:17 | `Path::extension`: what follows the last '.' of a name that does not start with that '.'; `ExtensionIs` states it |
| Folders.IsImageIff | src-tauri/src/lib.rs:15-23 | `is_image` holds exactly when some '.' that does not start the file name is followed by neither '.' nor '/', and what follows it is jpg, jpeg, png, gif, bmp, webp, tiff or svg in any ASCII case |
| Folders.ImageHasExtension | src-tauri/src/lib.rs:15-23 | `is_image` implies the character-level statement |
| Folders.ExtensionMakesImage | src-tauri/src/lib.rs:15-23 | the character-level statement implies `is_image` |
| Folders.FileNameIs | src-tauri/src/lib.rs:17 | the file name is what follows the last '/', unless it is ".." |
| Folders.ExtensionIs | src-tauri/src/lib.rs:17 | the extension is what follows the last '.', when that '.' does not start the name |
| Folders.UpperCaseAccepted | src-tauri/src/lib.rs:19-21 | "JPG" and "WebP" are accepted |
| Folders.ShortFormsRejected | src-tauri/src/lib.rs:21 | "tif" and "JPE" are rejected |
| Folders.LastDotCounts | src-tauri/src/lib.rs:17 | "a.png.txt" has extension "txt" and "archive.tar.gz" has "gz" |
| Folders.NoExtension | src-tauri/src/lib.rs:17 | "readme", ".png" and ".." have no extension |
| Folders.FileNamesFound | src-tauri/src/lib.rs:40-44 | "/photos/trip/b.webp" and "b.webp" both have the file name "b.webp" |
| Folders.FileNamesMissing | src-tauri/src/lib.rs:40-44 | "/photos/.." and "/" have no file name, so a root like these is named by the fallback |
| Folders.Parent | src-tauri/src/lib.rs:65 | `path.parent()`: a prefix of the path, with no '/' after the character that follows it |
| Folders.DirName | src-tauri/src/lib.rs:66 | `dir.file_name()`: a '/'-free suffix of the directory path |
| Folders.RootName | src-tauri/src/lib.rs:40-44 | the root's file name, or "根目录" without one; never empty |
| Folders.ParentOfJoin | src-tauri/src/lib.rs:65-66 | a file `name` directly in `dir` has parent `dir`, and the joined path's last component is `name` |
| Folders.IsImageFile | src-tauri/src/lib.rs:56-62 | the walk's filter: an entry read without error (`filter_map(Result::ok)`), a regular file (`is_file()`), and `is_image`; `WalkedStep` and `WalkedAreImages` state what passes it |
| Folders.WalkedImages | src-tauri/src/lib.rs:55-63 | the paths the loop body sees, in walk order: at most one per walk entry |
| Folders.WalkedAreImages | src-tauri/src/lib.rs:55-63 | only image files come out of the walk: errors, directories and other files are skipped |
| Folders.WalkedStep | src-tauri/src/lib.rs:55-63 | one more walk entry adds its path exactly when it is an image file |
| Folders.InDirMembers | src-tauri/src/lib.rs:65-75 | the images gathered for a directory are exactly those whose parent is that directory |
| Folders.LowerName | src-tauri/src/lib.rs:94 | the group name lower-cased for the comparator: same length, each character lower-cased on its own (ASCII only, see Left out) |
| Folders.ComesFirst | src-tauri/src/lib.rs:88-96 | the comparator answering `Less`: `a` at the root path, or neither at it and `a`'s lower-cased name first; `InOrder`, `ComparatorNotAntisymmetric` and `SortFolders` state what follows from it |
| Folders.ComparatorNotAntisymmetric | src-tauri/src/lib.rs:88-96 | two groups at the root path each sort before the other, so the comparator is no total order |
| Folders.InOrderTransitive | src-tauri/src/lib.rs:88-96 | the order the sort establishes is transitive |
| Folders.InsertFolder | src-tauri/src/lib.rs:88-96 | one insertion step keeps the groups ordered and adds exactly the new group |
| Folders.InsertFolderKeepsImages | src-tauri/src/lib.rs:88-96 | an insertion step adds exactly the new group's images |
| Folders.SortFolders | src-tauri/src/lib.rs:86-96 | `sort_by` gives a permutation in which root-path groups come first and the others ascend by lower-cased name |
| Folders.SortFoldersKeepsImages | src-tauri/src/lib.rs:86-96 | ordering the groups neither loses nor duplicates an image |
| Folders.SortFoldersKeepsTies | src-tauri/src/lib.rs:86-96 | the sort is stable: from an input whose non-root groups ascend by path, non-root groups with equal lower-cased names come out in path order |
| Folders.InsertFolderKeepsTies | src-tauri/src/lib.rs:88-96 | an insertion step keeps tied names in path order when the new group's path is above the others |
| Folders.TiesBeforeLast | src-tauri/src/lib.rs:88-96 | a group that the inserted one `ComesFirst` against may stay last without breaking path order among ties |
| Folders.KeysDistinct | src-tauri/src/lib.rs:46 | the map holds each key once |
| Folders.OrInsert | src-tauri/src/lib.rs:69-73 | `entry(key).or_insert(default)`: an existing key leaves the map unchanged; otherwise `default` is inserted in key order; the returned slot has the key |
| Folders.InsertedKeysIncreasing | src-tauri/src/lib.rs:69 | inserting a key at its place keeps the keys increasing |
| Folders.PushImage | src-tauri/src/lib.rs:65-75 | `entry(parent).or_insert(..).images.push(path)` keeps the map in step with the images seen: every group holds exactly its images, in walk order |
| Folders.StartTracks | src-tauri/src/lib.rs:46-53 | before the walk the map holds only the empty root group, and the loop invariant holds |
| Folders.PushKeepsTrack | src-tauri/src/lib.rs:65-75 | one image pushed onto its parent's group keeps the loop invariant: every group holds exactly its images in walk order, and no image is lost or duplicated |
| Folders.PushExisting | src-tauri/src/lib.rs:75 | the push onto a group already in the map keeps the invariant |
| Folders.PushNew | src-tauri/src/lib.rs:69-75 | a first image of a directory creates its group and keeps the invariant |
| Folders.SortedGroups | src-tauri/src/lib.rs:78-84 | `into_values()` with each group's images sorted; `SlotGroup` states each entry's group and `SortedGroupsKeepImages` that no image is lost |
| Folders.SortedGroupsKeepImages | src-tauri/src/lib.rs:78-84 | sorting each group's images keeps every image once |
| Folders.SlotGroup | src-tauri/src/lib.rs:78-84 | each map entry becomes the root group or a non-empty directory group with sorted images |
| Folders.SlotPathsAscending | src-tauri/src/lib.rs:78-84 | `into_values()` yields the non-root groups in ascending path order, a group's path being its key |
| Folders.SlotGroupsDistinct | src-tauri/src/lib.rs:46-84 | no two map entries become the same group: keys differ, and a group at the root path holds an image the root group lacks |
| Folders.RootGroupNotDirGroup | src-tauri/src/lib.rs:48-75 | the root group differs from any non-empty group under another key |
| Folders.DistinctOnce | src-tauri/src/lib.rs:78-84 | pairwise different groups each occur once |
| Folders.TrackedGroups | src-tauri/src/lib.rs:78-96 | the final map, made into a vector and ordered, gives the groups the scan promises (as for `GroupImages`) |
| Folders.GroupImages | src-tauri/src/lib.rs:46-96 | the root group (root name, root path, its key's images sorted) is present even when empty; every other group is the non-empty group of one parent directory, named after its last component, with that directory's images sorted; every image's directory has its group; no image is lost or duplicated; no group is listed twice; root-path groups come first, the others ascend by lower-cased name, and those whose names tie ascend by path |
| Folders.LoadImagesFromDir | src-tauri/src/lib.rs:34-98 | `Err("选择的路径不可用")` exactly when the root is not a usable directory; otherwise the groups `GroupImages` promises, with the root group keyed by the root's file name |
| Folders.GroupedImagesAreWalkedImages | src-tauri/src/lib.rs:55-84 | every listed path is a walked image file, each group's list ascends, and the group sizes add up to the number of walked images |
| Folders.GroupsSorted | src-tauri/src/lib.rs:81 | every group's images are in ascending order |
| Folders.InFlatten | src-tauri/src/lib.rs:75 | an image of one group is among all listed images |
| Folders.SortedInDir | src-tauri/src/lib.rs:81 | a group's sorted list holds exactly the images with that parent |
| Folders.RootImagesFormSecondGroup | src-tauri/src/lib.rs:48-73 | an image directly under an absolute root lands in a second group with the root's path, not in the root group |
| Folders.LoadImagesFromDirKeyedByPath | src-tauri/src/lib.rs:48-53 | corrected scan: as `LoadImagesFromDir`, but a group at the root path is the root group, and it holds exactly the images directly under the root |
| Folders.OneRootPathGroup | src-tauri/src/lib.rs:46-96 | keyed by the root path, only one group has the root path, so the order of all groups is determined |
| Folders.OnceApart | src-tauri/src/lib.rs:78-96 | a group listed once sits at no second position |
| Folders.RootGroupHoldsRootImages | src-tauri/src/lib.rs:48 | keyed by the root path, the root group holds exactly the images directly under the root and carries the root's name |

## Left out

- The directory walk, the folder dialog and the Tauri command plumbing are I/O. The walk is an input sequence of entries (path, whether a regular file, or an error). Whether the root exists and is a directory is an input flag.
- Paths are in normal form with '/' separators. `Path`'s normalisation of repeated or trailing separators and of "." components is not modelled, nor are '\' separators on Windows. Walked paths of a normal root have none of these.
- The `unwrap` panics on lines 65-66 of `src-tauri/src/lib.rs` are not modelled. They happen for a parent without a file name, such as "/" when images lie directly in the file-system root. The model gives the group name "" there.
- Paths are strings of characters. Non-UTF-8 names and the lossy conversion of `to_string_lossy` are not modelled.
- Folders.LowerName: ASCII lower-casing stands in for Unicode `to_lowercase` in the group comparator. Names with non-ASCII letters may order differently.
- Folders.SortFolders: the model is the insertion sort that Rust's stable sort runs on vectors of at most 20 elements. With more than 20 groups Rust uses another algorithm, and two root-path groups make the comparator inconsistent. Since Rust 1.81 `sort_by` may then panic; otherwise the order of the whole vector is unspecified. Neither is modelled.
- Folders.SortFolders: states the order relation, the permutation and (in `SortFoldersKeepsTies`) the stable order of tied names, not which of two root-path groups comes first.
- Folders.GroupImages: states the full order except which of two root-path groups (the root group and a group keyed by the root path) comes first.
- Folders.TrackedGroups: as for `GroupImages`, the order of two root-path groups is not stated.
- Folders.LoadImagesFromDir: as for `GroupImages`, the order of two root-path groups is not stated.
- `Vec::sort` on the image lists needs no such caveat. Any sort gives the same list of strings, so `Strings.SortStrings` is exact. Sorting in place is modelled as a function on the sequence.
- The presentation layer is not modelled: rendering, CSS classes, the transition and the `alt` text. The transform string itself is not built; its geometry is modelled as `Viewer.ScreenPos`.
- The `document.body.style.overflow` save and restore is not modelled. Attaching and detaching the window listeners appears only as the `mounted` flag.
- Numbers are exact reals. JavaScript floating-point rounding is not modelled, and `rotatePoint` uses the exact quarter-turn values in place of `Math.cos`/`Math.sin`.
- `getBoundingClientRect` is an input `Option<Rect>`. During the CSS transition the rectangle is interpolated, which is not modelled.
- React's scheduling is not modelled. Each handler is applied to the current state. Handlers that read a stale closure, and batched updates within one render, are not.
- `onClose` is not called. The close handlers return whether a close is requested.
- The application shell, the folder-loading hook with its local storage, and the UI components that only render are not part of this model.

## Findings

| source | as written | input that shows it | evidently intended | confidence | as-written member | corrected member |
|---|---|---|---|---|---|---|
| src/components/ImagePreviewModal.tsx:82-133 | The wheel and middle-click handlers pass the pointer's screen displacement from the image centre as the anchor. `applyZoomAtPoint` treats that anchor as an image-local point (it rotates it and scales it by the zoom difference). | Zoom 1, rotation 90, offset (0, 0), pointer 100 px right of and 50 px below the centre, one wheel tick up: the content under the pointer moves from (100, 50) to (175, 25). Unrotated at zoom 2, it moves from (100, 50) to (75, 37.5). | The content under the pointer stays under the pointer, for every rotation and zoom. The anchor should be the displacement turned back by the rotation and divided by the zoom. | not executed; high for the arithmetic, given CSS `translate scale rotate` about the centre | Viewer.PointerAnchorDriftsWhenTurned | Viewer.ContentAnchorKeepsPointerFixed |
| src-tauri/src/lib.rs:48-73 | The root group is created under the key `root_name`, the root's last component. Images are pushed under the key of their parent's full path string. | Root "/photos" with walked file "/photos/a.png": the result holds an empty group ("photos", "/photos") and a second group ("photos", "/photos", ["/photos/a.png"]). | The comment on line 48: the root entry shows the images placed directly under the chosen folder. Its key should be the root path. | not executed; high | Folders.RootImagesFormSecondGroup | Folders.LoadImagesFromDirKeyedByPath |
