/**
  The view state of the DICOM viewer (src/components/DicomViewer.tsx) as
  a value, and every user event as a transition on it: zoom, rotation,
  image navigation, reset, the two window sliders, clearing the
  annotation overlay, and the freehand-drawing gesture on the overlay
  canvas. Canvas strokes are modelled as a list of segments.

  After every event React re-runs the component's effect exactly when one
  of its dependencies (study, image index, zoom, rotation, window level,
  window width) changed value; that effect clears the overlay. A handler
  that sets a state to the value it already has changes nothing.
 */
module ViewerModel {
  import opened StudyTypes

  /** A point in canvas pixels. */
  datatype Point = Point(x: real, y: real)

  /** The overlay canvas's bounding box on screen, as `getBoundingClientRect` reports it. */
  datatype Rect = Rect(left: real, top: real, width: real, height: real)

  /** A box the browser can dispatch mouse events to has an area. */
  predicate IsLaidOut(r: Rect) {
    r.width > 0.0 && r.height > 0.0
  }

  /** The intrinsic size of both canvases. */
  const CanvasWidth: real := 800.0
  const CanvasHeight: real := 800.0

  /**
    A pointer position in page pixels turned into overlay-canvas pixels:
    the canvas point that is displayed at that position.
   */
  function MapToCanvas(clientX: real, clientY: real, rect: Rect): (p: Point)
    requires IsLaidOut(rect)
    ensures ClientOf(p, rect) == (clientX, clientY)
  {
    var p := Point((clientX - rect.left) * (CanvasWidth / rect.width),
                   (clientY - rect.top) * (CanvasHeight / rect.height));
    ScaleRoundTrip(clientX, rect.left, rect.width, p.x);
    ScaleRoundTrip(clientY, rect.top, rect.height, p.y);
    assert ClientOf(p, rect).0 == clientX && ClientOf(p, rect).1 == clientY;
    p
  }

  /** The page position that a canvas point is displayed at: the inverse scaling. */
  function ClientOf(p: Point, rect: Rect): (real, real)
    requires IsLaidOut(rect)
  {
    (rect.left + p.x * rect.width / CanvasWidth, rect.top + p.y * rect.height / CanvasHeight)
  }

  /** An edge-to-edge product identity: `(c - l) * (800 / w) == x` iff `c == l + x * w / 800`. */
  lemma ScaleRoundTrip(c: real, l: real, w: real, x: real)
    requires w > 0.0
    ensures (c - l) * (800.0 / w) == x <==> c == l + x * w / 800.0
  {
    var k := 800.0 / w;
    assert k * w == 800.0;
    if (c - l) * k == x {
      assert x * w == (c - l) * 800.0 by {
        assert x * w == (c - l) * (k * w);
      }
    }
    if c == l + x * w / 800.0 {
      assert (c - l) * k == x * (w * k) / 800.0;
    }
  }

  /** The top-left corner maps to canvas (0, 0) and the bottom-right corner to (800, 800). */
  lemma MapCorners(rect: Rect)
    requires IsLaidOut(rect)
    ensures MapToCanvas(rect.left, rect.top, rect) == Point(0.0, 0.0)
    ensures MapToCanvas(rect.left + rect.width, rect.top + rect.height, rect) == Point(CanvasWidth, CanvasHeight)
  {
    ScaleRoundTrip(rect.left + rect.width, rect.left, rect.width, CanvasWidth);
    ScaleRoundTrip(rect.top + rect.height, rect.top, rect.height, CanvasHeight);
  }

  /** Mapping to the canvas and back gives the pointer position again, and the other way round. */
  lemma MapRoundTrip(clientX: real, clientY: real, p: Point, rect: Rect)
    requires IsLaidOut(rect)
    ensures MapToCanvas(clientX, clientY, rect) == p <==> ClientOf(p, rect) == (clientX, clientY)
  {
    ScaleRoundTrip(clientX, rect.left, rect.width, p.x);
    ScaleRoundTrip(clientY, rect.top, rect.height, p.y);
  }

  /** A pointer inside the box lands inside the 800 by 800 canvas. */
  lemma MapInsideRect(clientX: real, clientY: real, rect: Rect)
    requires IsLaidOut(rect)
    requires rect.left <= clientX <= rect.left + rect.width
    requires rect.top <= clientY <= rect.top + rect.height
    ensures 0.0 <= MapToCanvas(clientX, clientY, rect).x <= CanvasWidth
    ensures 0.0 <= MapToCanvas(clientX, clientY, rect).y <= CanvasHeight
  {
    ScaleRoundTrip(rect.left + rect.width, rect.left, rect.width, CanvasWidth);
    ScaleRoundTrip(rect.top + rect.height, rect.top, rect.height, CanvasHeight);
    ScaleMonotone(clientX - rect.left, rect.width, 800.0 / rect.width);
    ScaleMonotone(clientY - rect.top, rect.height, 800.0 / rect.height);
  }

  /** Scaling by a positive factor keeps `0 <= a <= b`. */
  lemma ScaleMonotone(a: real, b: real, k: real)
    requires 0.0 <= a <= b && k > 0.0
    ensures 0.0 <= a * k <= b * k
  {
  }

  /** One red, 2-pixel wide stroke on the overlay. */
  datatype Segment = Segment(from: Point, to: Point, color: string, lineWidth: int)

  const StrokeColor: string := "#FF0000"
  const StrokeWidth: int := 2

  /** The stroke `draw` puts on the overlay from the last position to the new one. */
  function Stroke(from: Point, to: Point): Segment {
    Segment(from, to, StrokeColor, StrokeWidth)
  }

  /** The component's state. `overlay` stands for what the annotation canvas shows. */
  datatype ViewState = ViewState(
    study: Study,
    imageIndex: int,
    isDrawing: bool,
    lastPosition: Point,
    zoom: int,
    rotation: int,
    windowLevel: int,
    windowWidth: int,
    overlay: seq<Segment>)

  /** The state after mounting with a study: the `useState` initialisers. */
  function Initial(study: Study): ViewState {
    ViewState(study, 0, false, Point(0.0, 0.0), 100, 0, 50, 50, [])
  }

  /** The values the effect depends on, in the order of its dependency list. */
  datatype Deps = Deps(study: Study, imageIndex: int, zoom: int, rotation: int, windowLevel: int, windowWidth: int)

  function DepsOf(s: ViewState): Deps {
    Deps(s.study, s.imageIndex, s.zoom, s.rotation, s.windowLevel, s.windowWidth)
  }

  /**
    After the render of `after`, the effect runs, and clears the overlay,
    iff a dependency changed. It touches nothing but the overlay.
   */
  function Commit(before: ViewState, after: ViewState): (r: ViewState)
    ensures r.(overlay := after.overlay) == after
    ensures r.overlay == after.overlay || r.overlay == []
    ensures DepsOf(after) == DepsOf(before) ==> r == after
  {
    if DepsOf(after) != DepsOf(before) then after.(overlay := []) else after
  }

  /** `Math.min(prev + 10, 200)`: the smaller of the two. */
  function ZoomedIn(zoom: int): (r: int)
    ensures r <= zoom + 10 && r <= 200
    ensures r == zoom + 10 || r == 200
  {
    if zoom + 10 < 200 then zoom + 10 else 200
  }

  /** `Math.max(prev - 10, 50)`: the larger of the two. */
  function ZoomedOut(zoom: int): (r: int)
    ensures r >= zoom - 10 && r >= 50
    ensures r == zoom - 10 || r == 50
  {
    if zoom - 10 > 50 then zoom - 10 else 50
  }

  /** Next moves on by one exactly while the index is below `images.length - 1`, and otherwise stays. */
  function NextIndex(index: int, count: int): (r: int)
    ensures r == index + 1 <==> index < count - 1
    ensures r == index || r == index + 1
  {
    if index < count - 1 then index + 1 else index
  }

  /** Previous moves back by one exactly while the index is above 0, and otherwise stays. */
  function PrevIndex(index: int): (r: int)
    ensures r == index - 1 <==> index > 0
    ensures r == index || r == index - 1
  {
    if index > 0 then index - 1 else index
  }

  /** Everything the user can do to the viewer. */
  datatype UiEvent =
    | ZoomIn
    | ZoomOut
    | RotateClockwise
    | RotateCounterClockwise
    | NextImage
    | PrevImage
    | ResetView
    | SetWindowLevel(level: int)
    | SetWindowWidth(width: int)
    | ClearAnnotations
    | MouseDown(downX: real, downY: real, downRect: Rect)
    | MouseMove(moveX: real, moveY: real, moveRect: Rect)
    | MouseUp
    | MouseLeave
    | StudyChanged(newStudy: Study)

  /**
    What the browser and the slider component can deliver: slider values
    are integers from 0 to 100, and mouse events come from a box with an
    area.
   */
  predicate IsDispatchable(e: UiEvent) {
    match e
    case SetWindowLevel(v) => 0 <= v <= 100
    case SetWindowWidth(v) => 0 <= v <= 100
    case MouseDown(_, _, r) => IsLaidOut(r)
    case MouseMove(_, _, r) => IsLaidOut(r)
    case _ => true
  }

  /**
    A new `study` prop, as the component is written: React keeps the
    component's state, so the image index of the previous study stays.
   */
  function StudyChangeAsWritten(s: ViewState, study: Study): ViewState {
    s.(study := study)
  }

  /** A new `study` prop with the image index starting again at the first image. */
  function StudyChangeStep(s: ViewState, study: Study): ViewState {
    s.(study := study, imageIndex := 0)
  }

  /**
    The state the handler of `e` sets, before the effect runs. Only a new
    prop changes the study; the overlay changes only by drawing, which
    appends to it, or by clearing; the gesture changes only on mouse
    events.
   */
  function Update(s: ViewState, e: UiEvent): (r: ViewState)
    requires IsDispatchable(e)
    ensures r.study == if e.StudyChanged? then e.newStudy else s.study
    ensures !e.MouseMove? && !e.ClearAnnotations? ==> r.overlay == s.overlay
    ensures e.MouseMove? ==> s.overlay <= r.overlay
    ensures !(e.MouseDown? || e.MouseMove? || e.MouseUp? || e.MouseLeave?) ==>
              r.isDrawing == s.isDrawing && r.lastPosition == s.lastPosition
  {
    match e
    case ZoomIn => s.(zoom := ZoomedIn(s.zoom))
    case ZoomOut => s.(zoom := ZoomedOut(s.zoom))
    case RotateClockwise => s.(rotation := s.rotation + 90)
    case RotateCounterClockwise => s.(rotation := s.rotation - 90)
    case NextImage => s.(imageIndex := NextIndex(s.imageIndex, |s.study.images|))
    case PrevImage => s.(imageIndex := PrevIndex(s.imageIndex))
    case ResetView => s.(zoom := 100, rotation := 0, windowLevel := 50, windowWidth := 50)
    case SetWindowLevel(v) => s.(windowLevel := v)
    case SetWindowWidth(v) => s.(windowWidth := v)
    case ClearAnnotations => s.(overlay := [])
    case MouseDown(cx, cy, r) => s.(isDrawing := true, lastPosition := MapToCanvas(cx, cy, r))
    case MouseMove(cx, cy, r) =>
      if !s.isDrawing then s
      else
        var p := MapToCanvas(cx, cy, r);
        s.(overlay := s.overlay + [Stroke(s.lastPosition, p)], lastPosition := p)
    case MouseUp => s.(isDrawing := false)
    case MouseLeave => s.(isDrawing := false)
    case StudyChanged(st) => StudyChangeStep(s, st)
  }

  /** One event: the handler's update, then the effect if a dependency changed. */
  function Step(s: ViewState, e: UiEvent): ViewState
    requires IsDispatchable(e)
  {
    Commit(s, Update(s, e))
  }

  predicate AllDispatchable(es: seq<UiEvent>) {
    forall i :: 0 <= i < |es| ==> IsDispatchable(es[i])
  }

  /** A sequence of events, one after the other. */
  function Run(s: ViewState, es: seq<UiEvent>): ViewState
    requires AllDispatchable(es)
    decreases |es|
  {
    if es == [] then s else Run(Step(s, es[0]), es[1..])
  }

  /**
    The invariant of the view state: zoom a multiple of 10 within 50..200,
    rotation a multiple of 90, the image index on an image of the study
    (or 0 when it has none), slider values within 0..100, and every stroke
    red and 2 pixels wide.
   */
  predicate Valid(s: ViewState) {
    50 <= s.zoom <= 200 && s.zoom % 10 == 0 &&
    s.rotation % 90 == 0 &&
    0 <= s.imageIndex && (s.imageIndex == 0 || s.imageIndex < |s.study.images|) &&
    0 <= s.windowLevel <= 100 && 0 <= s.windowWidth <= 100 &&
    forall i :: 0 <= i < |s.overlay| ==> s.overlay[i].color == StrokeColor && s.overlay[i].lineWidth == StrokeWidth
  }

  /** A freshly mounted viewer is valid, whatever the study. */
  lemma InitialValid(study: Study)
    ensures Valid(Initial(study))
  {
  }

  /** Every event keeps the invariant. */
  lemma StepPreservesValid(s: ViewState, e: UiEvent)
    requires Valid(s) && IsDispatchable(e)
    ensures Valid(Step(s, e))
  {
    var u := Update(s, e);
    if e.MouseMove? && s.isDrawing {
      forall i | 0 <= i < |u.overlay| ensures u.overlay[i].color == StrokeColor && u.overlay[i].lineWidth == StrokeWidth {
        if i < |s.overlay| {
          assert u.overlay[i] == s.overlay[i];
        }
      }
    }
  }

  /** Any sequence of events keeps the invariant; in particular zoom never leaves 50..200. */
  lemma {:induction false} RunPreservesValid(s: ViewState, es: seq<UiEvent>)
    requires Valid(s) && AllDispatchable(es)
    ensures Valid(Run(s, es))
    decreases |es|
  {
    if es != [] {
      StepPreservesValid(s, es[0]);
      RunPreservesValid(Step(s, es[0]), es[1..]);
    }
  }

  /** Zooming in at 200 or out at 50 sets the same value, so nothing at all changes, not even the overlay. */
  lemma ZoomAtLimitIsNoOp(s: ViewState)
    ensures s.zoom == 200 ==> Step(s, ZoomIn) == s
    ensures s.zoom == 50 ==> Step(s, ZoomOut) == s
  {
  }

  /** Inside the limits a zoom click moves by exactly 10 and clears the overlay. */
  lemma ZoomStep(s: ViewState)
    requires Valid(s)
    ensures s.zoom < 200 ==> Step(s, ZoomIn) == s.(zoom := s.zoom + 10, overlay := [])
    ensures s.zoom > 50 ==> Step(s, ZoomOut) == s.(zoom := s.zoom - 10, overlay := [])
  {
  }

  /** Clockwise then counter-clockwise gives the rotation back; the overlay has been cleared. */
  lemma RotateRoundTrip(s: ViewState)
    ensures Step(Step(s, RotateClockwise), RotateCounterClockwise) == s.(overlay := [])
  {
  }

  /** The number of clockwise clicks in `es`. */
  function CountClockwise(es: seq<UiEvent>): nat {
    if es == [] then 0 else (if es[0].RotateClockwise? then 1 else 0) + CountClockwise(es[1..])
  }

  /** The number of counter-clockwise clicks in `es`. */
  function CountCounterClockwise(es: seq<UiEvent>): nat {
    if es == [] then 0 else (if es[0].RotateCounterClockwise? then 1 else 0) + CountCounterClockwise(es[1..])
  }

  /** Without a reset, the rotation moves by 90 degrees per clockwise click and back by 90 per counter-clockwise one. */
  lemma {:induction false} RotationCounts(s: ViewState, es: seq<UiEvent>)
    requires AllDispatchable(es)
    requires forall i :: 0 <= i < |es| ==> !es[i].ResetView?
    ensures Run(s, es).rotation == s.rotation + 90 * (CountClockwise(es) - CountCounterClockwise(es))
    decreases |es|
  {
    if es != [] {
      RotationCounts(Step(s, es[0]), es[1..]);
    }
  }

  /** Next on the last image and previous on the first change nothing; otherwise they move by one image. */
  lemma NavigationAtEnds(s: ViewState)
    requires Valid(s)
    ensures s.imageIndex >= |s.study.images| - 1 ==> Step(s, NextImage) == s
    ensures s.imageIndex == 0 ==> Step(s, PrevImage) == s
    ensures s.imageIndex < |s.study.images| - 1 ==>
              Step(s, NextImage) == s.(imageIndex := s.imageIndex + 1, overlay := [])
    ensures s.imageIndex > 0 ==> Step(s, PrevImage) == s.(imageIndex := s.imageIndex - 1, overlay := [])
  {
  }

  /** Reset restores the view parameters and keeps the image index and the gesture. */
  lemma ResetRestoresDefaults(s: ViewState)
    ensures Step(s, ResetView).zoom == 100 && Step(s, ResetView).rotation == 0
    ensures Step(s, ResetView).windowLevel == 50 && Step(s, ResetView).windowWidth == 50
    ensures Step(s, ResetView).imageIndex == s.imageIndex && Step(s, ResetView).study == s.study
    ensures Step(s, ResetView).isDrawing == s.isDrawing && Step(s, ResetView).lastPosition == s.lastPosition
    ensures Step(s, ResetView).overlay == s.overlay <==>
              (s.zoom == 100 && s.rotation == 0 && s.windowLevel == 50 && s.windowWidth == 50) || s.overlay == []
  {
  }

  /** Resetting twice is resetting once. */
  lemma ResetIdempotent(s: ViewState)
    ensures Step(Step(s, ResetView), ResetView) == Step(s, ResetView)
  {
  }

  /**
    For every event other than drawing and clearing, the overlay survives
    exactly when no dependency of the effect changed.
   */
  lemma OverlayKeptIffDepsUnchanged(s: ViewState, e: UiEvent)
    requires IsDispatchable(e) && !e.MouseMove? && !e.ClearAnnotations?
    ensures Step(s, e).overlay == (if DepsOf(Step(s, e)) == DepsOf(s) then s.overlay else [])
  {
  }

  /** Clearing empties the overlay and keeps the rest; a second clear changes nothing. */
  lemma ClearIdempotent(s: ViewState)
    ensures Step(s, ClearAnnotations) == s.(overlay := [])
    ensures Step(Step(s, ClearAnnotations), ClearAnnotations) == Step(s, ClearAnnotations)
  {
  }

  /** A mouse move while not drawing changes nothing. */
  lemma MoveWhileNotDrawing(s: ViewState, cx: real, cy: real, r: Rect)
    requires IsLaidOut(r) && !s.isDrawing
    ensures Step(s, MouseMove(cx, cy, r)) == s
  {
  }

  /** While drawing, a move adds exactly one stroke from the last position to the mapped point, which becomes the last position. */
  lemma MoveWhileDrawing(s: ViewState, cx: real, cy: real, r: Rect)
    requires IsLaidOut(r) && s.isDrawing
    ensures Step(s, MouseMove(cx, cy, r)) ==
            s.(overlay := s.overlay + [Stroke(s.lastPosition, MapToCanvas(cx, cy, r))],
               lastPosition := MapToCanvas(cx, cy, r))
  {
  }

  /** Pressing starts a gesture at the mapped point without drawing; releasing or leaving ends it and keeps the strokes. */
  lemma GestureBoundaries(s: ViewState, cx: real, cy: real, r: Rect)
    requires IsLaidOut(r)
    ensures Step(s, MouseDown(cx, cy, r)) == s.(isDrawing := true, lastPosition := MapToCanvas(cx, cy, r))
    ensures Step(s, MouseUp) == s.(isDrawing := false)
    ensures Step(s, MouseLeave) == s.(isDrawing := false)
  {
  }

  /** The events of `es` are all mouse moves over a laid-out box. */
  predicate AllMoves(es: seq<UiEvent>) {
    forall i :: 0 <= i < |es| ==> es[i].MouseMove? && IsLaidOut(es[i].moveRect)
  }

  /** The canvas points of a run of mouse moves. */
  function MovePoints(es: seq<UiEvent>): (pts: seq<Point>)
    requires AllMoves(es)
    ensures |pts| == |es|
    decreases |es|
  {
    if es == [] then [] else [MapToCanvas(es[0].moveX, es[0].moveY, es[0].moveRect)] + MovePoints(es[1..])
  }

  /** The strokes of a polyline starting at `from` through `pts`. */
  function Polyline(from: Point, pts: seq<Point>): (r: seq<Segment>)
    ensures |r| == |pts|
    decreases |pts|
  {
    if pts == [] then [] else [Stroke(from, pts[0])] + Polyline(pts[0], pts[1..])
  }

  /** The last of the points, or `p` when there are none. */
  function LastOr(p: Point, pts: seq<Point>): Point {
    if pts == [] then p else pts[|pts| - 1]
  }

  /** Consecutive strokes of a polyline join up: each starts where the previous one ended. */
  lemma {:induction false} PolylineConnected(from: Point, pts: seq<Point>, i: int)
    requires 0 <= i < |pts|
    ensures Polyline(from, pts)[i].to == pts[i]
    ensures Polyline(from, pts)[i].from == if i == 0 then from else pts[i - 1]
    decreases |pts|
  {
    if i > 0 {
      PolylineConnected(pts[0], pts[1..], i - 1);
    }
  }

  /**
    A drag: while drawing, a run of mouse moves appends one connected
    polyline from the last position through the mapped points, and ends
    at the last of them.
   */
  lemma {:induction false} DragDrawsPolyline(s: ViewState, es: seq<UiEvent>)
    requires s.isDrawing && AllMoves(es)
    ensures AllDispatchable(es)
    ensures Run(s, es) == s.(overlay := s.overlay + Polyline(s.lastPosition, MovePoints(es)),
                             lastPosition := LastOr(s.lastPosition, MovePoints(es)))
    decreases |es|
  {
    if es != [] {
      var p := MapToCanvas(es[0].moveX, es[0].moveY, es[0].moveRect);
      var t := Step(s, es[0]);
      assert t == s.(overlay := s.overlay + [Stroke(s.lastPosition, p)], lastPosition := p);
      assert AllMoves(es[1..]);
      DragDrawsPolyline(t, es[1..]);
      var rest := MovePoints(es[1..]);
      assert MovePoints(es) == [p] + rest;
      assert s.overlay + [Stroke(s.lastPosition, p)] + Polyline(p, rest) == s.overlay + Polyline(s.lastPosition, [p] + rest) by {
        assert ([p] + rest)[1..] == rest;
      }
      if rest != [] {
        assert LastOr(p, rest) == ([p] + rest)[|[p] + rest| - 1];
      }
    } else {
      assert s.overlay + [] == s.overlay;
    }
  }

  /** A study with the given number of images, for the example below. */
  function ExampleStudy(images: seq<string>): Study {
    Study("1", "Juan Pérez", "P12345", "Tomografía de tórax", "CT", "2023-10-15", images)
  }

  /**
    As written, a new study keeps the old index: on the second image of a
    two-image study, switching to a one-image study leaves index 1, which
    names no image (the counter reads "2 / 1").
   */
  lemma StudyChangeKeepsStaleIndex()
    ensures var s := Initial(ExampleStudy(["/a.dcm", "/b.dcm"])).(imageIndex := 1);
            Valid(s) && !Valid(StudyChangeAsWritten(s, ExampleStudy(["/c.dcm"])))
  {
  }

  /** With the index restarting at the first image, a study change keeps the invariant and the view settings. */
  lemma StudyChangePreservesValid(s: ViewState, study: Study)
    requires Valid(s)
    ensures Valid(Step(s, StudyChanged(study)))
    ensures Step(s, StudyChanged(study)).imageIndex == 0 && Step(s, StudyChanged(study)).study == study
    ensures Step(s, StudyChanged(study)).zoom == s.zoom && Step(s, StudyChanged(study)).rotation == s.rotation
  {
    StepPreservesValid(s, StudyChanged(study));
  }
}
