/**
  The viewer component (src/components/DicomViewer.tsx) as an object:
  its `useState` cells are fields, each handler is a method that updates
  them, and `RunEffect` is the effect that clears the annotation overlay
  after a render in which one of its dependencies changed. Every method
  is specified by the matching transition of `ViewerModel.Step`.
 */
module DicomViewer {
  import opened StudyTypes
  import opened ViewerModel

  class Viewer {
    var study: Study
    var currentImageIndex: int
    var isDrawing: bool
    var lastPosition: Point
    var zoom: int
    var rotation: int
    var windowLevel: int
    var windowWidth: int
    var overlay: seq<Segment>

    /** The fields as a view state. */
    function View(): ViewState
      reads this
    {
      ViewState(study, currentImageIndex, isDrawing, lastPosition, zoom, rotation, windowLevel, windowWidth, overlay)
    }

    ghost predicate Valid()
      reads this
    {
      ViewerModel.Valid(View())
    }

    /** The current values of the effect's dependency list. */
    function EffectDeps(): Deps
      reads this
    {
      DepsOf(View())
    }

    /** Mounting with a study: every `useState` initialiser. */
    constructor (study: Study)
      ensures View() == Initial(study)
      ensures Valid()
    {
      this.study := study;
      currentImageIndex := 0;
      isDrawing := false;
      lastPosition := Point(0.0, 0.0);
      zoom := 100;
      rotation := 0;
      windowLevel := 50;
      windowWidth := 50;
      overlay := [];
    }

    /** The effect after a render: it runs, and clears the overlay, iff a dependency differs from `before`. */
    method RunEffect(before: Deps)
      modifies this
      ensures View() == if DepsOf(old(View())) != before then old(View()).(overlay := []) else old(View())
    {
      if EffectDeps() != before {
        overlay := [];
      }
    }

    method HandleZoomIn()
      requires Valid()
      modifies this
      ensures Valid() && View() == Step(old(View()), ZoomIn)
    {
      ghost var s := View();
      var before := EffectDeps();
      zoom := ZoomedIn(zoom);
      RunEffect(before);
      StepPreservesValid(s, ZoomIn);
    }

    method HandleZoomOut()
      requires Valid()
      modifies this
      ensures Valid() && View() == Step(old(View()), ZoomOut)
    {
      ghost var s := View();
      var before := EffectDeps();
      zoom := ZoomedOut(zoom);
      RunEffect(before);
      StepPreservesValid(s, ZoomOut);
    }

    method HandleRotateClockwise()
      requires Valid()
      modifies this
      ensures Valid() && View() == Step(old(View()), RotateClockwise)
    {
      ghost var s := View();
      var before := EffectDeps();
      rotation := rotation + 90;
      RunEffect(before);
      StepPreservesValid(s, RotateClockwise);
    }

    method HandleRotateCounterClockwise()
      requires Valid()
      modifies this
      ensures Valid() && View() == Step(old(View()), RotateCounterClockwise)
    {
      ghost var s := View();
      var before := EffectDeps();
      rotation := rotation - 90;
      RunEffect(before);
      StepPreservesValid(s, RotateCounterClockwise);
    }

    method HandleNextImage()
      requires Valid()
      modifies this
      ensures Valid() && View() == Step(old(View()), NextImage)
    {
      ghost var s := View();
      var before := EffectDeps();
      if currentImageIndex < |study.images| - 1 {
        currentImageIndex := currentImageIndex + 1;
      }
      RunEffect(before);
      StepPreservesValid(s, NextImage);
    }

    method HandlePrevImage()
      requires Valid()
      modifies this
      ensures Valid() && View() == Step(old(View()), PrevImage)
    {
      ghost var s := View();
      var before := EffectDeps();
      if currentImageIndex > 0 {
        currentImageIndex := currentImageIndex - 1;
      }
      RunEffect(before);
      StepPreservesValid(s, PrevImage);
    }

    method HandleResetView()
      requires Valid()
      modifies this
      ensures Valid() && View() == Step(old(View()), ResetView)
    {
      ghost var s := View();
      var before := EffectDeps();
      zoom := 100;
      rotation := 0;
      windowLevel := 50;
      windowWidth := 50;
      RunEffect(before);
      StepPreservesValid(s, ResetView);
    }

    /** The window-level slider's `onValueChange`. */
    method SetWindowLevel(value: int)
      requires Valid() && 0 <= value <= 100
      modifies this
      ensures Valid() && View() == Step(old(View()), UiEvent.SetWindowLevel(value))
    {
      ghost var s := View();
      var before := EffectDeps();
      windowLevel := value;
      RunEffect(before);
      StepPreservesValid(s, UiEvent.SetWindowLevel(value));
    }

    /** The window-width slider's `onValueChange`. */
    method SetWindowWidth(value: int)
      requires Valid() && 0 <= value <= 100
      modifies this
      ensures Valid() && View() == Step(old(View()), UiEvent.SetWindowWidth(value))
    {
      ghost var s := View();
      var before := EffectDeps();
      windowWidth := value;
      RunEffect(before);
      StepPreservesValid(s, UiEvent.SetWindowWidth(value));
    }

    method HandleClearAnnotations()
      requires Valid()
      modifies this
      ensures Valid() && View() == Step(old(View()), ClearAnnotations)
    {
      ghost var s := View();
      overlay := [];
      StepPreservesValid(s, ClearAnnotations);
    }

    /** `onMouseDown`: the gesture starts at the mapped point; nothing is drawn yet. */
    method StartDrawing(clientX: real, clientY: real, rect: Rect)
      requires Valid() && IsLaidOut(rect)
      modifies this
      ensures Valid() && View() == Step(old(View()), MouseDown(clientX, clientY, rect))
    {
      ghost var s := View();
      isDrawing := true;
      lastPosition := MapToCanvas(clientX, clientY, rect);
      StepPreservesValid(s, MouseDown(clientX, clientY, rect));
    }

    /** `onMouseMove`: while drawing, one stroke from the last position to the mapped point. */
    method Draw(clientX: real, clientY: real, rect: Rect)
      requires Valid() && IsLaidOut(rect)
      modifies this
      ensures Valid() && View() == Step(old(View()), MouseMove(clientX, clientY, rect))
    {
      ghost var s := View();
      StepPreservesValid(s, MouseMove(clientX, clientY, rect));
      if !isDrawing {
        return;
      }
      var p := MapToCanvas(clientX, clientY, rect);
      overlay := overlay + [Stroke(lastPosition, p)];
      lastPosition := p;
    }

    /** `onMouseUp` and `onMouseLeave`. */
    method StopDrawing()
      requires Valid()
      modifies this
      ensures Valid() && View() == Step(old(View()), MouseUp) && View() == Step(old(View()), MouseLeave)
    {
      ghost var s := View();
      isDrawing := false;
      StepPreservesValid(s, MouseUp);
    }

    /** A new `study` prop, with the image index restarting at the first image (the corrected step; as written the index stays). */
    method ChangeStudy(newStudy: Study)
      requires Valid()
      modifies this
      ensures Valid() && View() == Step(old(View()), StudyChanged(newStudy))
    {
      ghost var s := View();
      var before := EffectDeps();
      study := newStudy;
      currentImageIndex := 0;
      RunEffect(before);
      StepPreservesValid(s, StudyChanged(newStudy));
    }
  }
}
