/** The image-preview transform controller of src/components/ImagePreviewModal.tsx:
    a zoom level taken from a fixed table, a quarter-turn rotation and a pan
    offset, changed by wheel ticks, middle clicks, the rotate and reset
    buttons, a primary-button drag and a change of the shown image. */
module Viewer {
  import opened Wrappers
  import Paths

  /** A point or displacement in viewport pixels (y grows downwards). */
  datatype Point = Point(x: real, y: real) {
    function Plus(q: Point): Point { Point(x + q.x, y + q.y) }
    function Minus(q: Point): Point { Point(x - q.x, y - q.y) }
    function Scale(k: real): Point { Point(k * x, k * y) }
  }

  const Origin := Point(0.0, 0.0)

  /** A bounding client rectangle. */
  datatype Rect = Rect(left: real, top: real, width: real, height: real) {
    function Centre(): Point { Point(left + width / 2.0, top + height / 2.0) }
  }

  /** The `image` prop of the modal. */
  datatype Image = Image(src: string, title: string, filePath: string)

  /** The rotations the viewer can be in: it starts at 0 and only ever adds 90 modulo 360. */
  type Degrees = d: int | d == 0 || d == 90 || d == 180 || d == 270

  /** The zoom table: strictly increasing, first entry 1. */
  const ZoomSteps: seq<real> := [1.0, 1.5, 2.0, 2.5, 3.0]

  // ---------------------------------------------------------------------------
  // Zoom step sequencer

  /** `Array.prototype.findIndex` with an exact-equality test: the first index
      holding `z`, or -1. */
  function FindIndex(steps: seq<real>, z: real): (i: int)
    ensures -1 <= i < |steps|
    ensures i == -1 <==> z !in steps
    ensures i >= 0 ==> steps[i] == z && forall j :: 0 <= j < i ==> steps[j] != z
  {
    if steps == [] then -1
    else if steps[0] == z then 0
    else
      var j := FindIndex(steps[1..], z);
      if j == -1 then -1 else j + 1
  }

  function Min(a: int, b: int): int { if a <= b then a else b }
  function Max(a: int, b: int): int { if a >= b then a else b }

  /** `getNextZoom`: one step up (direction 1) or down (direction -1) in the
      table, clamped at its ends or, with `wrap`, cycling round.  A zoom that is
      not in the table falls back to the first entry.  The operand of `%` is
      never negative here, so JavaScript's truncating remainder and Dafny's
      Euclidean one agree. */
  function NextZoom(current: real, direction: int, wrap: bool): (next: real)
    requires direction == 1 || direction == -1
    ensures next in ZoomSteps
    ensures current !in ZoomSteps ==> next == ZoomSteps[0]
  {
    var index := FindIndex(ZoomSteps, current);
    if index == -1 then ZoomSteps[0]
    else ZoomSteps[NextIndex(index, direction, wrap)]
  }

  /** The index arithmetic of `getNextZoom`. */
  function NextIndex(index: nat, direction: int, wrap: bool): (next: nat)
    requires index < |ZoomSteps|
    requires direction == 1 || direction == -1
    ensures next < |ZoomSteps|
  {
    if wrap then (index + direction + |ZoomSteps|) % |ZoomSteps|
    else Min(Max(index + direction, 0), |ZoomSteps| - 1)
  }

  /** The table is strictly increasing, so each entry occurs once. */
  lemma ZoomStepsIncreasing(i: nat, j: nat)
    requires i < j < |ZoomSteps|
    ensures ZoomSteps[i] < ZoomSteps[j]
  {
  }

  /** The index `findIndex` finds for a table entry. */
  lemma StepIndex(z: real) returns (i: nat)
    requires z in ZoomSteps
    ensures i < |ZoomSteps| && ZoomSteps[i] == z && FindIndex(ZoomSteps, z) == i
  {
    i := FindIndex(ZoomSteps, z);
  }

  /** The index one step from `i`: the neighbour inside the table; past an
      end, the other end with `wrap` and the same end without. */
  function StepTarget(i: nat, direction: int, wrap: bool): (j: nat)
    requires i < |ZoomSteps|
    requires direction == 1 || direction == -1
    ensures j < |ZoomSteps|
  {
    var k := i + direction;
    if 0 <= k < |ZoomSteps| then k
    else if k < 0 then (if wrap then |ZoomSteps| - 1 else 0)
    else (if wrap then 0 else |ZoomSteps| - 1)
  }

  /** The step `getNextZoom` takes from the entry at index `i`. */
  lemma NextZoomAt(i: nat, direction: int, wrap: bool)
    requires i < |ZoomSteps|
    requires direction == 1 || direction == -1
    ensures NextZoom(ZoomSteps[i], direction, wrap) == ZoomSteps[StepTarget(i, direction, wrap)]
  {
    var k := StepIndex(ZoomSteps[i]);
    SameEntrySameIndex(k, i);
    NextIndexIsStepTarget(i, direction, wrap);
  }

  /** Both index rules of `getNextZoom` agree with `StepTarget`. */
  lemma NextIndexIsStepTarget(i: nat, direction: int, wrap: bool)
    requires i < |ZoomSteps|
    requires direction == 1 || direction == -1
    ensures NextIndex(i, direction, wrap) == StepTarget(i, direction, wrap)
  {
    if wrap {
      WrappedIndex(i, direction);
    }
  }

  lemma SameEntrySameIndex(k: nat, i: nat)
    requires k < |ZoomSteps| && i < |ZoomSteps| && ZoomSteps[k] == ZoomSteps[i]
    ensures k == i
  {
    if k < i { ZoomStepsIncreasing(k, i); }
    if i < k { ZoomStepsIncreasing(i, k); }
  }

  /** The remainder `getNextZoom` takes with `wrap` is the wrapping step. */
  lemma WrappedIndex(i: nat, direction: int)
    requires i < |ZoomSteps|
    requires direction == 1 || direction == -1
    ensures (i + direction + |ZoomSteps|) % |ZoomSteps| == StepTarget(i, direction, true)
  {
    var m := i + direction + |ZoomSteps|;
    if m < 5 { assert m % 5 == m; }
    else if m < 10 { assert m % 5 == m - 5; }
    else { assert m % 5 == 0; }
  }

  /** Without wrap, a step up reaches the next larger table entry, and stays
      put only at the top; a step down reaches the next smaller entry and stays
      put only at the bottom. */
  lemma {:induction false} NextZoomIsAdjacentStep(z: real)
    requires z in ZoomSteps
    ensures var up := NextZoom(z, 1, false);
      && (z == 3.0 ==> up == z)
      && (z < 3.0 ==> z < up && forall s :: s in ZoomSteps ==> !(z < s < up))
    ensures var down := NextZoom(z, -1, false);
      && (z == 1.0 ==> down == z)
      && (z > 1.0 ==> down < z && forall s :: s in ZoomSteps ==> !(down < s < z))
  {
    var i := StepIndex(z);
    NextZoomAt(i, 1, false);
    NextZoomAt(i, -1, false);
    if i + 1 < |ZoomSteps| {
      ZoomStepsIncreasing(i, i + 1);
      NoStepBetween(i);
    }
    if i > 0 {
      ZoomStepsIncreasing(i - 1, i);
      NoStepBetween(i - 1);
    }
  }

  /** No table entry lies strictly between two neighbours. */
  lemma NoStepBetween(i: nat)
    requires i + 1 < |ZoomSteps|
    ensures forall s :: s in ZoomSteps ==> !(ZoomSteps[i] < s < ZoomSteps[i + 1])
  {
    forall s | s in ZoomSteps
      ensures !(ZoomSteps[i] < s < ZoomSteps[i + 1])
    {
      var k :| 0 <= k < |ZoomSteps| && ZoomSteps[k] == s;
      if k < i { ZoomStepsIncreasing(k, i); }
      if k > i + 1 { ZoomStepsIncreasing(i + 1, k); }
    }
  }

  /** Clamping at the ends of the table. */
  lemma NextZoomClampsAtEnds()
    ensures NextZoom(3.0, 1, false) == 3.0
    ensures NextZoom(1.0, -1, false) == 1.0
  {
    NextZoomAt(4, 1, false);
    NextZoomAt(0, -1, false);
  }

  /** Wrapping at the ends of the table. */
  lemma NextZoomWrapsAtEnds()
    ensures NextZoom(3.0, 1, true) == 1.0
    ensures NextZoom(1.0, -1, true) == 3.0
  {
    NextZoomAt(4, 1, true);
    NextZoomAt(0, -1, true);
  }

  /** Away from the end it moves towards, wrap changes nothing. */
  lemma NextZoomWrapInside(z: real, direction: int)
    requires z in ZoomSteps
    requires direction == 1 || direction == -1
    requires (direction == 1 && z != 3.0) || (direction == -1 && z != 1.0)
    ensures NextZoom(z, direction, true) == NextZoom(z, direction, false)
  {
    var i := StepIndex(z);
    NextZoomAt(i, direction, true);
    NextZoomAt(i, direction, false);
  }

  /** A step in one direction followed by a step in the other restores the
      zoom: always with wrap, and without wrap unless the first step was
      clamped at an end. */
  lemma {:induction false} NextZoomUndo(z: real, direction: int, wrap: bool)
    requires z in ZoomSteps
    requires direction == 1 || direction == -1
    requires !wrap ==> (direction == 1 ==> z != 3.0) && (direction == -1 ==> z != 1.0)
    ensures NextZoom(NextZoom(z, direction, wrap), -direction, wrap) == z
  {
    var i := StepIndex(z);
    StepBack(i, direction, wrap);
    NextZoomAt(i, direction, wrap);
    NextZoomAt(StepTarget(i, direction, wrap), -direction, wrap);
  }

  /** On indices: stepping back undoes a step that was not clamped. */
  lemma StepBack(i: nat, direction: int, wrap: bool)
    requires i < |ZoomSteps|
    requires direction == 1 || direction == -1
    requires !wrap ==> (direction == 1 ==> i != 4) && (direction == -1 ==> i != 0)
    ensures StepTarget(StepTarget(i, direction, wrap), -direction, wrap) == i
  {
  }

  /** `n` middle clicks in a row, as zoom levels. */
  function CycleZoom(z: real, n: nat): (r: real)
    ensures n > 0 ==> r in ZoomSteps
  {
    if n == 0 then z else NextZoom(CycleZoom(z, n - 1), 1, true)
  }

  /** One more middle click moves to the wrapping step up. */
  lemma CycleStep(z: real, n: nat, j: nat)
    requires j < |ZoomSteps| && CycleZoom(z, n) == ZoomSteps[j]
    ensures CycleZoom(z, n + 1) == ZoomSteps[StepTarget(j, 1, true)]
  {
    NextZoomAt(j, 1, true);
  }

  /** Five middle clicks bring any table zoom back to where it was. */
  lemma {:induction false} FiveClicksCycle(z: real)
    requires z in ZoomSteps
    ensures CycleZoom(z, 5) == z
  {
    var i0 := StepIndex(z);
    var i1 := StepTarget(i0, 1, true);
    var i2 := StepTarget(i1, 1, true);
    var i3 := StepTarget(i2, 1, true);
    var i4 := StepTarget(i3, 1, true);
    CycleStep(z, 0, i0);
    CycleStep(z, 1, i1);
    CycleStep(z, 2, i2);
    CycleStep(z, 3, i3);
    CycleStep(z, 4, i4);
    FiveStepsUp(i0);
  }

  /** On indices: five wrapping steps up go once round the table. */
  lemma FiveStepsUp(i: nat)
    requires i < |ZoomSteps|
    ensures var j := StepTarget(StepTarget(i, 1, true), 1, true);
      StepTarget(StepTarget(StepTarget(j, 1, true), 1, true), 1, true) == i
  {
  }

  // ---------------------------------------------------------------------------
  // Rotation

  /** `handleRotate`'s update: a clockwise quarter turn. */
  function Rotate(d: Degrees): (r: Degrees)
    ensures r != d
  {
    (d + 90) % 360
  }

  /** Four quarter turns are the identity. */
  lemma FourRotations(d: Degrees)
    ensures Rotate(Rotate(Rotate(Rotate(d)))) == d
  {
  }

  /** The exact cosine of a quarter-turn angle. */
  function CosQ(d: Degrees): real
  {
    if d == 0 then 1.0 else if d == 180 then -1.0 else 0.0
  }

  /** The exact sine of a quarter-turn angle. */
  function SinQ(d: Degrees): real
  {
    if d == 90 then 1.0 else if d == 270 then -1.0 else 0.0
  }

  /** `rotatePoint` with the exact values of cosine and sine at quarter turns:
      (x, y) is turned clockwise on screen, as CSS `rotate()` turns it. */
  function RotatePoint(p: Point, rotation: Degrees): (q: Point)
    ensures rotation == 0 ==> q == p
    ensures q == Point(p.x * CosQ(rotation) - p.y * SinQ(rotation), p.x * SinQ(rotation) + p.y * CosQ(rotation))
  {
    if rotation == 0 then p
    else if rotation == 90 then Point(-p.y, p.x)
    else if rotation == 180 then Point(-p.x, -p.y)
    else Point(p.y, -p.x)
  }

  /** The rotation that undoes `d`. */
  function Unrotate(d: Degrees): (r: Degrees)
    ensures (d + r) % 360 == 0
  {
    (360 - d) % 360
  }

  /** Turning by `a` and then by `b` is turning by their sum; in particular a
      quarter turn of the point is the rotate command's quarter turn. */
  lemma RotatePointComposes(p: Point, a: Degrees, b: Degrees)
    ensures RotatePoint(RotatePoint(p, a), b) == RotatePoint(p, (a + b) % 360)
    ensures RotatePoint(RotatePoint(p, a), 90) == RotatePoint(p, Rotate(a))
  {
    if a == 0 {
    } else if a == 90 {
    } else if a == 180 {
    } else {
    }
  }

  /** Turning commutes with scaling. */
  lemma RotatePointScales(p: Point, k: real, d: Degrees)
    ensures RotatePoint(p.Scale(k), d) == RotatePoint(p, d).Scale(k)
  {
  }

  /** `Unrotate` undoes a rotation of the point. */
  lemma RotatePointInverse(p: Point, d: Degrees)
    ensures RotatePoint(RotatePoint(p, d), Unrotate(d)) == p
    ensures RotatePoint(RotatePoint(p, Unrotate(d)), d) == p
  {
    RotatePointComposes(p, d, Unrotate(d));
    RotatePointComposes(p, Unrotate(d), d);
  }

  // ---------------------------------------------------------------------------
  // Anchor-preserving zoom

  /** Where CSS `translate(offset) scale(zoom) rotate(rotation)`, about the
      image's centre, draws the image-local point `local`, relative to the
      untransformed centre of the image. */
  function ScreenPos(offset: Point, zoom: real, rotation: Degrees, local: Point): (pos: Point)
    ensures local == Origin ==> pos == offset
    ensures rotation == 0 ==> pos == Point(offset.x + local.x * zoom, offset.y + local.y * zoom)
  {
    offset.Plus(RotatePoint(local, rotation).Scale(zoom))
  }

  /** The offset `applyZoomAtPoint` commits when the zoom goes from `zoom` to
      `nextZoom` at `anchor`. */
  function ZoomOffset(offset: Point, zoom: real, nextZoom: real, rotation: Degrees, anchor: Point): (r: Point)
    ensures nextZoom == zoom ==> r == offset
  {
    if nextZoom == zoom then offset
    else offset.Plus(RotatePoint(anchor, rotation).Scale(zoom - nextZoom))
  }

  /** What the offset update achieves: the image-local point `anchor` is drawn
      at the same place before and after the zoom. */
  lemma ZoomOffsetKeepsAnchor(offset: Point, zoom: real, nextZoom: real, rotation: Degrees, anchor: Point)
    ensures ScreenPos(ZoomOffset(offset, zoom, nextZoom, rotation, anchor), nextZoom, rotation, anchor)
            == ScreenPos(offset, zoom, rotation, anchor)
  {
  }

  /** Zooming from `a` to `b` and back at the same anchor and rotation restores
      the offset exactly, whatever the rotation. */
  lemma ZoomRoundTrip(offset: Point, a: real, b: real, rotation: Degrees, anchor: Point)
    ensures ZoomOffset(ZoomOffset(offset, a, b, rotation, anchor), b, a, rotation, anchor) == offset
  {
  }

  /** Zoom 1 to 1.5 at anchor (100, 50): offset (-50, -25) unrotated and
      (25, -50) at a quarter turn. */
  lemma ZoomScenarios()
    ensures ZoomOffset(Origin, 1.0, 1.5, 0, Point(100.0, 50.0)) == Point(-50.0, -25.0)
    ensures ZoomOffset(Origin, 1.0, 1.5, 90, Point(100.0, 50.0)) == Point(25.0, -50.0)
  {
  }

  /** The anchor the wheel and middle-click handlers pass: the pointer relative
      to the centre of the image's bounding rectangle, or (0, 0) without one.
      This is a displacement on screen, not an image-local point. */
  function PointerAnchor(client: Point, rect: Option<Rect>): (a: Point)
    ensures rect.None? ==> a == Origin
    ensures rect.Some? ==> rect.value.Centre().Plus(a) == client
  {
    match rect
    case None => Origin
    case Some(r) => client.Minus(r.Centre())
  }

  /** As written, the anchor does not keep the content under the pointer in
      place once the image is turned.  At zoom 1, a quarter turn, offset (0, 0)
      (so the bounding rectangle is centred on the image's untransformed
      centre, here the origin) and the pointer 100 px right of and 50 px below
      that centre, the content point under the pointer is the image-local point
      (50, -100); one wheel tick up draws it at (175, 25) while the pointer
      stays at (100, 50). */
  lemma PointerAnchorDriftsWhenTurned(rc: Rect)
    requires rc.Centre() == Origin
    ensures NextZoom(1.0, 1, false) == 1.5
    ensures PointerAnchor(Point(100.0, 50.0), Some(rc)) == Point(100.0, 50.0)
    ensures ScreenPos(Origin, 1.0, 90, Point(50.0, -100.0)) == Point(100.0, 50.0)
    ensures ScreenPos(ZoomOffset(Origin, 1.0, 1.5, 90, Point(100.0, 50.0)), 1.5, 90, Point(50.0, -100.0))
            == Point(175.0, 25.0)
  {
    NextZoomAt(0, 1, false);
  }

  /** Nor once the image is zoomed: unrotated at zoom 2 and offset (0, 0),
      with the pointer at (100, 50) from the centre over the image-local point
      (50, 25), a tick up draws that point at (75, 37.5). */
  lemma PointerAnchorDriftsWhenZoomed(rc: Rect)
    requires rc.Centre() == Origin
    ensures NextZoom(2.0, 1, false) == 2.5
    ensures PointerAnchor(Point(100.0, 50.0), Some(rc)) == Point(100.0, 50.0)
    ensures ScreenPos(Origin, 2.0, 0, Point(50.0, 25.0)) == Point(100.0, 50.0)
    ensures ScreenPos(ZoomOffset(Origin, 2.0, 2.5, 0, Point(100.0, 50.0)), 2.5, 0, Point(50.0, 25.0))
            == Point(75.0, 37.5)
  {
    NextZoomAt(2, 1, false);
  }

  /** With the pointer held still, the second of two wheel ticks sees the
      rectangle moved by the first tick's offset, so its anchor differs and
      the offset is not restored: from zoom 1, rotation 0, offset (0, 0) and
      the pointer (100, 50) from the rectangle's centre, a tick up gives
      offset (-50, -25) and a tick down then gives (25, 12.5). */
  lemma WheelUpThenDownAtFixedPointer(rc: Rect)
    requires rc.Centre() == Origin
    ensures var client := Point(100.0, 50.0);
      var up := ZoomOffset(Origin, 1.0, NextZoom(1.0, 1, false), 0, PointerAnchor(client, Some(rc)));
      var moved := Rect(rc.left + up.x, rc.top + up.y, rc.width, rc.height);
      && up == Point(-50.0, -25.0)
      && ZoomOffset(up, 1.5, NextZoom(1.5, -1, false), 0, PointerAnchor(client, Some(moved))) == Point(25.0, 12.5)
  {
    NextZoomAt(0, 1, false);
    NextZoomAt(1, -1, false);
  }

  /** Scaling by `1 / zoom` and then by `zoom` changes nothing. */
  lemma ScaleCancels(p: Point, zoom: real)
    requires zoom > 0.0
    ensures p.Scale(1.0 / zoom).Scale(zoom) == p
  {
    var k := 1.0 / zoom;
    assert zoom * k == 1.0;
    assert zoom * (k * p.x) == (zoom * k) * p.x;
    assert zoom * (k * p.y) == (zoom * k) * p.y;
  }

  /** The corrected anchor: the image-local point under the pointer, found by
      undoing the rotation and the scale of the pointer's displacement from
      the image centre; (0, 0), the image centre, without a rectangle. */
  function ContentAnchor(client: Point, rect: Option<Rect>, zoom: real, rotation: Degrees): (a: Point)
    requires zoom > 0.0
    ensures rect.None? ==> a == Origin
  {
    match rect
    case None => Origin
    case Some(r) => RotatePoint(client.Minus(r.Centre()), Unrotate(rotation)).Scale(1.0 / zoom)
  }

  /** The corrected anchor is the content point under the pointer: drawn with
      the current zoom and rotation about the rectangle's centre, it lands on
      the pointer. */
  lemma {:induction false} ContentAnchorUnderPointer(client: Point, rc: Rect, zoom: real, rotation: Degrees)
    requires zoom > 0.0
    ensures rc.Centre().Plus(ScreenPos(Origin, zoom, rotation, ContentAnchor(client, Some(rc), zoom, rotation)))
            == client
  {
    var p := client.Minus(rc.Centre());
    var u := RotatePoint(p, Unrotate(rotation));
    RotatePointInverse(p, rotation);
    var k := 1.0 / zoom;
    RotatePointScales(u, k, rotation);
    ScaleCancels(p, zoom);
  }

  /** With the corrected anchor, the content point under the pointer before a
      zoom is under the pointer after it, for every rotation, zoom pair and
      offset.  The bounding rectangle's centre is the image's untransformed
      centre moved by the offset. */
  lemma ContentAnchorKeepsPointerFixed(layoutCentre: Point, offset: Point, zoom: real, nextZoom: real,
                                       rotation: Degrees, client: Point)
    requires zoom > 0.0
    ensures var rc := Rect(layoutCentre.x + offset.x - 1.0, layoutCentre.y + offset.y - 1.0, 2.0, 2.0);
      var a := ContentAnchor(client, Some(rc), zoom, rotation);
      && layoutCentre.Plus(ScreenPos(offset, zoom, rotation, a)) == client
      && layoutCentre.Plus(ScreenPos(ZoomOffset(offset, zoom, nextZoom, rotation, a), nextZoom, rotation, a)) == client
  {
    var rc := Rect(layoutCentre.x + offset.x - 1.0, layoutCentre.y + offset.y - 1.0, 2.0, 2.0);
    var a := ContentAnchor(client, Some(rc), zoom, rotation);
    assert rc.Centre() == layoutCentre.Plus(offset);
    ContentAnchorUnderPointer(client, rc, zoom, rotation);
    ZoomOffsetKeepsAnchor(offset, zoom, nextZoom, rotation, a);
  }

  // ---------------------------------------------------------------------------
  // Display name

  /** The modal's title line: the image title, else the last piece of the file
      path split at '/' or '\', else the whole path. */
  function DisplayName(image: Image): (name: string)
    ensures image.title != "" ==> name == image.title
    ensures image.title == "" && name != image.filePath ==>
              && name != ""
              && |name| < |image.filePath|
              && name == image.filePath[|image.filePath| - |name|..]
              && image.filePath[|image.filePath| - |name| - 1] in {'/', '\\'}
              && forall m :: 0 <= m < |name| ==> name[m] !in {'/', '\\'}
    ensures name == "" <==> image.title == "" && image.filePath == ""
    ensures image.title == "" && image.filePath != ""
            && image.filePath[|image.filePath| - 1] !in {'/', '\\'} ==>
              name == Paths.LastSegment(image.filePath, {'/', '\\'})
    ensures image.title == "" && (image.filePath == ""
            || image.filePath[|image.filePath| - 1] in {'/', '\\'}) ==>
              name == image.filePath
  {
    if image.title != "" then image.title
    else
      var last := Paths.LastSegment(image.filePath, {'/', '\\'});
      Paths.LastSegmentSpec(image.filePath, {'/', '\\'});
      if last != "" then last else image.filePath
  }

  // ---------------------------------------------------------------------------
  // The component's state and handlers

  class PreviewModal {
    var image: Image
    var zoom: real
    var rotation: Degrees
    var offset: Point
    var isPanning: bool
    /** The `panStart` and `panOffsetStart` refs. */
    var panStart: Point
    var panOffsetStart: Point
    /** False once the component has unmounted and its window listeners are gone. */
    var mounted: bool

    /** The zoom is always an entry of the zoom table. */
    ghost predicate Valid()
      reads this
    {
      zoom in ZoomSteps
    }

    /** Mounting with the initial state of every `useState` and `useRef`. */
    constructor (image: Image)
      ensures Valid() && mounted && !isPanning
      ensures this.image == image && zoom == 1.0 && rotation == 0 && offset == Origin
      ensures panStart == Origin && panOffsetStart == Origin
    {
      this.image := image;
      zoom, rotation, offset := 1.0, 0, Origin;
      isPanning := false;
      panStart, panOffsetStart := Origin, Origin;
      mounted := true;
    }

    /** The effect on `[image]`: a new image resets zoom, rotation and offset. */
    method ImageChanged(next: Image)
      modifies this
      ensures Valid()
      ensures image == next && zoom == 1.0 && rotation == 0 && offset == Origin
      ensures isPanning == old(isPanning) && mounted == old(mounted)
      ensures panStart == old(panStart) && panOffsetStart == old(panOffsetStart)
    {
      image := next;
      zoom, rotation, offset := 1.0, 0, Origin;
    }

    /** `applyZoomAtPoint`: commit `nextZoom`, moving the offset so that the
        image-local point `point` stays where it is drawn. */
    method ApplyZoomAtPoint(nextZoom: real, point: Point)
      modifies this
      ensures zoom == nextZoom
      ensures offset == ZoomOffset(old(offset), old(zoom), nextZoom, old(rotation), point)
      ensures image == old(image) && rotation == old(rotation) && isPanning == old(isPanning)
      ensures panStart == old(panStart) && panOffsetStart == old(panOffsetStart) && mounted == old(mounted)
    {
      offset := ZoomOffset(offset, zoom, nextZoom, rotation, point);
      zoom := nextZoom;
    }

    /** `handleAuxClick`: only the middle button zooms, one step up, wrapping
        from the top of the table to its bottom. */
    method HandleAuxClick(button: int, client: Point, rect: Option<Rect>)
      requires Valid()
      modifies this
      ensures Valid()
      ensures button == 1 ==>
                && zoom == NextZoom(old(zoom), 1, true)
                && offset == ZoomOffset(old(offset), old(zoom), zoom, rotation, PointerAnchor(client, rect))
      ensures button != 1 ==> zoom == old(zoom) && offset == old(offset)
      ensures image == old(image) && rotation == old(rotation) && isPanning == old(isPanning)
      ensures panStart == old(panStart) && panOffsetStart == old(panOffsetStart) && mounted == old(mounted)
    {
      if button == 1 {
        var point := PointerAnchor(client, rect);
        var nextZoom := NextZoom(zoom, 1, true);
        ApplyZoomAtPoint(nextZoom, point);
      }
    }

    /** `handleWheel`: scrolling up (negative `deltaY`) zooms in, anything
        else zooms out, clamped at the ends of the table. */
    method HandleWheel(deltaY: real, client: Point, rect: Option<Rect>)
      requires Valid()
      modifies this
      ensures Valid()
      ensures zoom == NextZoom(old(zoom), if deltaY < 0.0 then 1 else -1, false)
      ensures offset == ZoomOffset(old(offset), old(zoom), zoom, rotation, PointerAnchor(client, rect))
      ensures image == old(image) && rotation == old(rotation) && isPanning == old(isPanning)
      ensures panStart == old(panStart) && panOffsetStart == old(panOffsetStart) && mounted == old(mounted)
    {
      var direction := if deltaY < 0.0 then 1 else -1;
      var point := PointerAnchor(client, rect);
      var nextZoom := NextZoom(zoom, direction, false);
      ApplyZoomAtPoint(nextZoom, point);
    }

    /** `handleRotate`: a quarter turn clockwise; zoom and offset stay. */
    method HandleRotate()
      requires Valid()
      modifies this
      ensures Valid()
      ensures rotation == Rotate(old(rotation))
      ensures image == old(image) && zoom == old(zoom) && offset == old(offset) && isPanning == old(isPanning)
      ensures panStart == old(panStart) && panOffsetStart == old(panOffsetStart) && mounted == old(mounted)
    {
      rotation := (rotation + 90) % 360;
    }

    /** `handleReset`: zoom 1, no rotation, no offset; the viewer stays open. */
    method HandleReset()
      modifies this
      ensures Valid()
      ensures zoom == 1.0 && rotation == 0 && offset == Origin
      ensures image == old(image) && isPanning == old(isPanning) && mounted == old(mounted)
      ensures panStart == old(panStart) && panOffsetStart == old(panOffsetStart)
    {
      zoom, rotation, offset := 1.0, 0, Origin;
    }

    /** `handleBackdropClick`: a close request exactly when the click's target
        is the backdrop element itself, not content inside it. */
    method HandleBackdropClick(targetIsBackdrop: bool) returns (close: bool)
      ensures close <==> targetIsBackdrop
    {
      close := targetIsBackdrop;
    }

    /** The window `keydown` listener: Escape asks to close, while mounted. */
    method HandleKeyDown(key: string) returns (close: bool)
      ensures close <==> mounted && key == "Escape"
    {
      close := mounted && key == "Escape";
    }

    /** `handleMouseDown`: the primary button starts a pan and records the
        pointer and the offset it starts from; other buttons do nothing. */
    method HandleMouseDown(button: int, client: Point)
      requires Valid()
      modifies this
      ensures Valid()
      ensures button == 0 ==> isPanning && panStart == client && panOffsetStart == offset
      ensures button != 0 ==> isPanning == old(isPanning) && panStart == old(panStart)
                              && panOffsetStart == old(panOffsetStart)
      ensures image == old(image) && zoom == old(zoom) && rotation == old(rotation)
      ensures offset == old(offset) && mounted == old(mounted)
    {
      if button != 0 {
        return;
      }
      isPanning := true;
      panStart := client;
      panOffsetStart := offset;
    }

    /** The window `mousemove` listener, present only while panning: the
        offset becomes the start offset moved by the pointer's displacement
        since the pan began, whatever the zoom and rotation. */
    method HandleMouseMove(client: Point)
      requires Valid()
      modifies this
      ensures Valid()
      ensures mounted && isPanning ==> offset == panOffsetStart.Plus(client.Minus(panStart))
      ensures !(mounted && isPanning) ==> offset == old(offset)
      ensures image == old(image) && zoom == old(zoom) && rotation == old(rotation) && isPanning == old(isPanning)
      ensures panStart == old(panStart) && panOffsetStart == old(panOffsetStart) && mounted == old(mounted)
    {
      if mounted && isPanning {
        var dx := client.x - panStart.x;
        var dy := client.y - panStart.y;
        offset := Point(panOffsetStart.x + dx, panOffsetStart.y + dy);
      }
    }

    /** The window `mouseup` listener: the pan ends. */
    method HandleMouseUp()
      requires Valid()
      modifies this
      ensures Valid()
      ensures mounted ==> !isPanning
      ensures !mounted ==> isPanning == old(isPanning)
      ensures image == old(image) && zoom == old(zoom) && rotation == old(rotation) && offset == old(offset)
      ensures panStart == old(panStart) && panOffsetStart == old(panOffsetStart) && mounted == old(mounted)
    {
      if mounted && isPanning {
        isPanning := false;
      }
    }

    /** Unmounting: the effects' clean-ups remove the window listeners. */
    method Unmount()
      modifies this
      ensures !mounted
      ensures image == old(image) && zoom == old(zoom) && rotation == old(rotation) && offset == old(offset)
      ensures isPanning == old(isPanning) && panStart == old(panStart) && panOffsetStart == old(panOffsetStart)
    {
      mounted := false;
    }
  }

  // ---------------------------------------------------------------------------
  // Command sequences

  /** Four presses of the rotate button leave rotation, zoom and offset as they were. */
  method RotateFourTimes(m: PreviewModal)
    requires m.Valid()
    modifies m
    ensures m.Valid()
    ensures m.rotation == old(m.rotation) && m.zoom == old(m.zoom) && m.offset == old(m.offset)
  {
    m.HandleRotate();
    m.HandleRotate();
    m.HandleRotate();
    m.HandleRotate();
    FourRotations(old(m.rotation));
  }

  /** A primary-button drag from `from` to `to` moves the offset by exactly
      `to - from`, independent of zoom and rotation, and ends the pan. */
  method Drag(m: PreviewModal, from: Point, to: Point)
    requires m.Valid() && m.mounted
    modifies m
    ensures m.Valid() && !m.isPanning
    ensures m.offset == old(m.offset).Plus(to.Minus(from))
    ensures m.zoom == old(m.zoom) && m.rotation == old(m.rotation)
  {
    m.HandleMouseDown(0, from);
    m.HandleMouseMove(to);
    m.HandleMouseUp();
  }

  /** A wheel tick in the middle of a drag changes the zoom, but the next
      pointer move sets the offset from the pan's start offset again, so the
      zoom's offset adjustment is discarded. */
  method WheelDuringDrag(m: PreviewModal, from: Point, deltaY: real, client: Point, rect: Option<Rect>, to: Point)
    requires m.Valid() && m.mounted
    modifies m
    ensures m.Valid() && m.isPanning
    ensures m.zoom == NextZoom(old(m.zoom), if deltaY < 0.0 then 1 else -1, false)
    ensures m.offset == old(m.offset).Plus(to.Minus(from))
  {
    m.HandleMouseDown(0, from);
    m.HandleWheel(deltaY, client, rect);
    m.HandleMouseMove(to);
  }

  /** A wheel tick up followed by a tick down at the same anchor (both ticks
      see the same pointer and the same rectangle) restores zoom and offset,
      unless the zoom was already at the top of the table. */
  method WheelUpThenDown(m: PreviewModal, client: Point, rect: Option<Rect>)
    requires m.Valid() && m.zoom != 3.0
    modifies m
    ensures m.Valid()
    ensures m.zoom == old(m.zoom) && m.offset == old(m.offset) && m.rotation == old(m.rotation)
  {
    m.HandleWheel(-1.0, client, rect);
    m.HandleWheel(1.0, client, rect);
    NextZoomUndo(old(m.zoom), 1, false);
    ZoomRoundTrip(old(m.offset), old(m.zoom), NextZoom(old(m.zoom), 1, false), m.rotation,
                  PointerAnchor(client, rect));
  }
}
