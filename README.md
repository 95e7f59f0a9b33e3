# NeoRadia viewer core in Dafny

A Dafny model of the behavioural core of the NeoRadia DICOM viewer (a
React/TypeScript web front end), with proofs about it:

- **The viewer** (`src/components/DicomViewer.tsx`). Its view state is zoom,
  rotation, image index, window level and width, and the freehand-drawing
  gesture. Every button, slider and mouse handler is a transition on that
  state (`viewer_model.dfy`). The same handlers appear as methods of a
  `Viewer` class whose fields are the component's `useState` cells
  (`dicom_viewer.dfy`). The annotation canvas is a list of red 2-pixel
  segments. The effect that clears it after a render in which a
  dependency changed is modelled explicitly.
- **The window/level pass** `applyWindowLevelEffect`. It is an in-place loop
  over the RGBA bytes of the canvas (`window_level.dfy`), proved to turn the
  buffer into `WindowLevelPass` of its old contents. Each store goes through
  a `Uint8ClampedArray`, which is ECMA-262's ToUint8Clamp (section 7.1.12):
  clamp to 0..255, round half to even. The contrast store is computed
  exactly in integer fiftieths and proved equal to ToUint8Clamp of the
  source's real-valued formula.
- **The sidebar's study search** (`src/components/Sidebar.tsx`). This is a
  case-insensitive substring filter on patient name, patient id and
  description, plus the empty-list placeholder and the highlighted row
  (`sidebar.dfy`, using `js_string.dfy` for `trim`, `toLowerCase` and
  `includes`).
- **The reply editor** of the doctor's comment thread
  (`src/components/DoctorComments.tsx`). It has a draft text and the index
  of the comment being answered, as a transition function and as a class
  (`doctor_comments.dfy`). The `onReply` calls and toasts are outputs.
- **The two login pages** (`src/pages/UserLogin.tsx`,
  `src/pages/DoctorLogin.tsx`). A blank-id guard chooses between the "invalid
  id" toast and a navigation (`login_form.dfy`, `user_login.dfy`,
  `doctor_login.dfy`).

Two facts about the code shape the model:

- `MapToCanvas` divides by the box size and has no guard for a box of zero
  width or height. The model maps only points from a box with an area
  (`ViewerModel.IsLaidOut`), which is the only kind of box the browser
  sends mouse events for (see Left out).
- Drawing is one freehand gesture straight onto the overlay canvas. There
  are no drawing tools, measurements, text labels or pixel spacing.

The model follows the code everywhere except in one place. On a change of
the `study` prop, `ViewerModel.Update` uses the corrected study change of
the Findings row below (see Left out).

## Model

| member | source | states |
|---|---|---|
| JsString.TrimStart | src/components/DoctorComments.tsx:60 | the result is a suffix of the input; everything stripped is ECMA-262 white space or a line terminator; the result does not start with one |
| JsString.TrimEnd | src/components/DoctorComments.tsx:60 | the result is a prefix of the input; everything stripped is white space; the result does not end with white space |
| JsString.BlankIffAllWhiteSpace | src/pages/UserLogin.tsx:15 | `!s.trim()` holds exactly when every character of `s` is white space or a line terminator |
| JsString.TrimIsInfix | src/pages/UserLogin.tsx:15 | the trimmed string is a contiguous piece of the input, with only white space before and after it |
| JsString.Trim | src/pages/UserLogin.tsx:15 | `s.trim()` is no longer than `s` and neither starts nor ends with white space |
| JsString.TrimOfTrimmed | src/pages/DoctorLogin.tsx:15 | a string with no white space at either end is its own trim |
| JsString.LowerChar | src/components/Sidebar.tsx:28 | a lowered character is a lower-case Basic Latin or Latin-1 letter, or the character itself |
| JsString.LowerCharEqIff | src/components/Sidebar.tsx:28-30 | two characters lower to the same one iff they are equal, or one is a modelled capital and the other its small letter 0x20 above it |
| JsString.LowerCase | src/components/Sidebar.tsx:28-30 | `toLowerCase` keeps the length and changes exactly the characters that are modelled capitals |
| JsString.LowerCaseEqIff | src/components/Sidebar.tsx:28-30 | two strings lower to the same string iff they have the same length and agree position by position up to case |
| JsString.LowerCharIdempotent | src/components/Sidebar.tsx:28 | lowering a character twice equals lowering it once |
| JsString.LowerCaseIdempotent | src/components/Sidebar.tsx:28-30 | `toLowerCase` applied twice equals applying it once |
| JsString.Includes | src/components/Sidebar.tsx:28-30 | `includes` holds for the empty needle, and only for a needle no longer than the string |
| JsString.IncludesIff | src/components/Sidebar.tsx:28-30 | `hay.includes(needle)` holds iff `needle` occurs at some position of `hay` |
| JsString.IncludesEmpty | src/components/Sidebar.tsx:28-30 | every string includes the empty string |
| Sidebar.MatchesSearch | src/components/Sidebar.tsx:27-30 | the filter's test: the lowered term occurs in the lowered name, patient id or description; the empty term matches every study, a term longer than all three fields none |
| Sidebar.FilteredStudies | src/components/Sidebar.tsx:25-32 | the filter never lengthens the list |
| Sidebar.FilteredIsSubsequence | src/components/Sidebar.tsx:25-32 | the filtered list is an order-preserving subsequence of the study list |
| Sidebar.FilteredMultiplicity | src/components/Sidebar.tsx:26-31 | a study is listed as often as it occurs if it matches the lowered term in name, patient id or description, never if it does not; it is listed iff it is a study and matches |
| Sidebar.ShowsNoResults | src/components/Sidebar.tsx:54-55 | the placeholder shows when the filtered list is empty: always for an empty study list, and with the empty term only then |
| Sidebar.NoResultsIff | src/components/Sidebar.tsx:54-55 | the "No se encontraron estudios" placeholder shows iff no study matches |
| Sidebar.EmptySearchKeepsAll | src/components/Sidebar.tsx:23-32 | with the initial empty term every study is listed, in order |
| Sidebar.SearchIsCaseInsensitive | src/components/Sidebar.tsx:28-30 | two terms with the same lowered form give the same list |
| Sidebar.SearchIgnoresCase | src/components/Sidebar.tsx:28-30 | terms that are the same letters up to case ("JUAN", "juan") give the same list |
| Sidebar.SearchByLoweredTerm | src/components/Sidebar.tsx:28-30 | searching for a term or for its lowered form gives the same list |
| Sidebar.UnsearchedFieldsIgnored | src/components/Sidebar.tsx:27-31 | changing id, modality, study date or images never changes whether a study matches |
| Sidebar.UnsearchedFieldsKeepSelection | src/components/Sidebar.tsx:25-32 | lists that agree on name, patient id and description give filtered lists that agree on them too, position by position |
| Sidebar.IsHighlighted | src/components/Sidebar.tsx:63 | a row is highlighted iff its id is the current study's; without a current study none is, and the current study's own row is |
| Sidebar.AtMostOneHighlighted | src/components/Sidebar.tsx:63 | with distinct ids at most one row is highlighted, and none without a current study |
| WindowLevel.ToUint8Clamp | src/components/DicomViewer.tsx:110 | a stored value is a byte: 0 at or below 0, 255 at or above 255, otherwise within 0.5 of the value, and even on a tie |
| WindowLevel.ToUint8ClampOfByte | src/components/DicomViewer.tsx:115 | a byte value is stored unchanged |
| WindowLevel.ToUint8ClampMonotone | src/components/DicomViewer.tsx:110 | a larger value never stores a smaller byte |
| WindowLevel.ToUint8ClampFiftieths | src/components/DicomViewer.tsx:110 | the integer computation of a store yields a byte |
| WindowLevel.FiftiethsAgree | src/components/DicomViewer.tsx:110 | the integer computation on `num` equals ToUint8Clamp of `num / 50` |
| WindowLevel.ClampByte | src/components/DicomViewer.tsx:115 | the brightness store yields a byte |
| WindowLevel.ClampByteAgrees | src/components/DicomViewer.tsx:115 | clamping an integer equals ToUint8Clamp of it |
| WindowLevel.ContrastChannel | src/components/DicomViewer.tsx:102-110 | the contrast store of one colour byte yields a byte, and at width 50 keeps every byte |
| WindowLevel.BrightnessChannel | src/components/DicomViewer.tsx:105-115 | the brightness store yields a byte, is the plain sum `d + (level - 50) * 2` when that is a byte, and at level 50 keeps every byte |
| WindowLevel.ContrastChannelMatchesFormula | src/components/DicomViewer.tsx:101-110 | the contrast store in fiftieths equals ToUint8Clamp of `(d - 128) * (1 + (width / 50 - 1)) + 128` |
| WindowLevel.ContrastNumerator | src/components/DicomViewer.tsx:102-110 | the numerator in fiftieths divided by 50 is the source's real-valued contrast formula |
| WindowLevel.FiftiethsOfByte | src/components/DicomViewer.tsx:110 | a byte written in fiftieths is stored as that byte |
| WindowLevel.WindowLevelPass | src/components/DicomViewer.tsx:107-117 | the buffer after the pass has the same length, and each of its bytes is a byte value or an untouched alpha byte |
| WindowLevel.PassShape | src/components/DicomViewer.tsx:107-117 | the pass keeps the length and every alpha byte, and leaves only byte values |
| WindowLevel.DefaultsAreIdentity | src/components/DicomViewer.tsx:38-39 | at level 50 and width 50 the pass leaves the buffer unchanged |
| WindowLevel.ContrastPivot | src/components/DicomViewer.tsx:110 | mid grey 128 survives the contrast store, whatever the width |
| WindowLevel.AdjustChannelMonotone | src/components/DicomViewer.tsx:107-117 | for every slider width, the pass keeps the order of intensities of a channel |
| WindowLevel.FiftiethsMonotone | src/components/DicomViewer.tsx:110 | a larger numerator never stores a smaller byte |
| WindowLevel.StretchPixel | src/components/DicomViewer.tsx:109-111 | the first inner loop applies the contrast store to the three colour bytes of the pixel and changes nothing else |
| WindowLevel.ShiftPixel | src/components/DicomViewer.tsx:114-116 | the second inner loop applies the brightness store to the three colour bytes of the pixel and changes nothing else |
| WindowLevel.AdjustPixel | src/components/DicomViewer.tsx:108-116 | one turn of the outer loop leaves the pixel's colour bytes adjusted and every other byte as it was |
| WindowLevel.PassStart | src/components/DicomViewer.tsx:107 | before the first pixel the buffer is unchanged |
| WindowLevel.PassStep | src/components/DicomViewer.tsx:107-117 | adjusting the pixel at a multiple of 4 completes the pass up to the next pixel |
| WindowLevel.PassDone | src/components/DicomViewer.tsx:107 | once every pixel is handled the buffer is the whole pass |
| WindowLevel.ApplyWindowLevelEffect | src/components/DicomViewer.tsx:94-120 | the buffer ends as `WindowLevelPass` of its old contents: colour bytes adjusted, alpha bytes kept |
| ViewerModel.MapToCanvas | src/components/DicomViewer.tsx:127-129 | the mapped point is the canvas point displayed at the pointer position: scaling it back gives the pointer position |
| ViewerModel.MapCorners | src/components/DicomViewer.tsx:127-129 | the box's top-left corner maps to canvas (0, 0) and its bottom-right corner to (800, 800) |
| ViewerModel.MapRoundTrip | src/components/DicomViewer.tsx:144-146 | mapping to the canvas and the inverse scaling undo each other, in both directions |
| ViewerModel.MapInsideRect | src/components/DicomViewer.tsx:127-129 | a pointer inside the box lands inside the 800 by 800 canvas |
| ViewerModel.Commit | src/components/DicomViewer.tsx:84-91 | the effect changes nothing but the overlay, either keeps or empties it, and changes nothing when no dependency changed |
| ViewerModel.ZoomedIn | src/components/DicomViewer.tsx:162-164 | `Math.min(prev + 10, 200)`: at most both, and equal to one of them |
| ViewerModel.ZoomedOut | src/components/DicomViewer.tsx:166-168 | `Math.max(prev - 10, 50)`: at least both, and equal to one of them |
| ViewerModel.NextIndex | src/components/DicomViewer.tsx:178-182 | next moves on by one iff the index is below `images.length - 1`, and otherwise stays |
| ViewerModel.PrevIndex | src/components/DicomViewer.tsx:184-188 | previous moves back by one iff the index is above 0, and otherwise stays |
| ViewerModel.Update | src/components/DicomViewer.tsx:123-195 | only a new prop changes the study; the overlay changes only by drawing, which appends to it, or by clearing; the gesture changes only on mouse events |
| ViewerModel.InitialValid | src/components/DicomViewer.tsx:33-39 | the initial state (index 0, zoom 100, rotation 0, level and width 50) satisfies the invariant |
| ViewerModel.StepPreservesValid | src/components/DicomViewer.tsx:162-205 | every event keeps zoom in 50..200 on multiples of 10, rotation a multiple of 90, the index on an image, slider values in 0..100, strokes red and 2 pixels wide |
| ViewerModel.RunPreservesValid | src/components/DicomViewer.tsx:123-195 | any sequence of events keeps the invariant, where a study change restarts at the first image (the corrected step); runs without a study change are exactly the code's |
| ViewerModel.ZoomAtLimitIsNoOp | src/components/DicomViewer.tsx:162-168 | zoom in at 200 and zoom out at 50 change nothing, the overlay included |
| ViewerModel.ZoomStep | src/components/DicomViewer.tsx:162-168 | inside the limits a zoom click moves by exactly 10 and clears the overlay |
| ViewerModel.RotateRoundTrip | src/components/DicomViewer.tsx:170-176 | clockwise then counter-clockwise restores the rotation, with the overlay cleared |
| ViewerModel.RotationCounts | src/components/DicomViewer.tsx:170-176 | without a reset, the rotation is the start plus 90 times (clockwise clicks minus counter-clockwise clicks) |
| ViewerModel.NavigationAtEnds | src/components/DicomViewer.tsx:178-188 | next on the last image and previous on the first change nothing; otherwise the index moves by one and the overlay is cleared |
| ViewerModel.ResetRestoresDefaults | src/components/DicomViewer.tsx:190-195 | reset sets zoom 100, rotation 0, level 50, width 50, keeps the index and the gesture, and keeps the overlay iff nothing changed |
| ViewerModel.ResetIdempotent | src/components/DicomViewer.tsx:190-195 | resetting twice equals resetting once |
| ViewerModel.OverlayKeptIffDepsUnchanged | src/components/DicomViewer.tsx:84-91 | for every event except drawing and clearing, the overlay survives iff study, index, zoom, rotation, level and width are all unchanged |
| ViewerModel.ClearIdempotent | src/components/DicomViewer.tsx:197-205 | clearing empties the overlay and keeps everything else; clearing again changes nothing |
| ViewerModel.MoveWhileNotDrawing | src/components/DicomViewer.tsx:135-136 | a mouse move while not drawing changes nothing |
| ViewerModel.MoveWhileDrawing | src/components/DicomViewer.tsx:144-155 | while drawing, a move appends one red 2-pixel stroke from the last position to the mapped point, which becomes the last position |
| ViewerModel.GestureBoundaries | src/components/DicomViewer.tsx:123-133 | mouse-down starts a gesture at the mapped point without drawing; mouse-up and mouse-leave both end it and keep the strokes |
| ViewerModel.MovePoints | src/components/DicomViewer.tsx:144-146 | there is one canvas point per mouse move |
| ViewerModel.Polyline | src/components/DicomViewer.tsx:148-155 | a polyline has one stroke per point |
| ViewerModel.PolylineConnected | src/components/DicomViewer.tsx:151-155 | each stroke of a polyline starts where the previous one ended |
| ViewerModel.DragDrawsPolyline | src/components/DicomViewer.tsx:135-156 | a run of moves while drawing appends one connected polyline through the mapped points and ends at the last of them |
| ViewerModel.StudyChangeKeepsStaleIndex | src/components/DicomViewer.tsx:30-33 | as written, switching from the second image of a two-image study to a one-image study leaves an index that names no image |
| ViewerModel.StudyChangePreservesValid | src/components/DicomViewer.tsx:30-33 | with the index restarting at 0 a study change keeps the invariant and the view settings |
| DicomViewer.Viewer.constructor | src/components/DicomViewer.tsx:33-40 | the fields start at the `useState` initial values, which satisfy the invariant |
| DicomViewer.Viewer.RunEffect | src/components/DicomViewer.tsx:84-91 | the overlay is cleared iff a dependency differs from its value before the handler |
| DicomViewer.Viewer.HandleZoomIn | src/components/DicomViewer.tsx:162-164 | the new state is the model's zoom-in step; the invariant is kept |
| DicomViewer.Viewer.HandleZoomOut | src/components/DicomViewer.tsx:166-168 | the new state is the model's zoom-out step; the invariant is kept |
| DicomViewer.Viewer.HandleRotateClockwise | src/components/DicomViewer.tsx:170-172 | the new state is the model's clockwise step; the invariant is kept |
| DicomViewer.Viewer.HandleRotateCounterClockwise | src/components/DicomViewer.tsx:174-176 | the new state is the model's counter-clockwise step; the invariant is kept |
| DicomViewer.Viewer.HandleNextImage | src/components/DicomViewer.tsx:178-182 | the new state is the model's next-image step; the invariant is kept |
| DicomViewer.Viewer.HandlePrevImage | src/components/DicomViewer.tsx:184-188 | the new state is the model's previous-image step; the invariant is kept |
| DicomViewer.Viewer.HandleResetView | src/components/DicomViewer.tsx:190-195 | the new state is the model's reset step; the invariant is kept |
| DicomViewer.Viewer.SetWindowLevel | src/components/DicomViewer.tsx:294-301 | the new state is the model's level-slider step; the invariant is kept |
| DicomViewer.Viewer.SetWindowWidth | src/components/DicomViewer.tsx:309-316 | the new state is the model's width-slider step; the invariant is kept |
| DicomViewer.Viewer.HandleClearAnnotations | src/components/DicomViewer.tsx:197-205 | the new state is the model's clear step; the invariant is kept |
| DicomViewer.Viewer.StartDrawing | src/components/DicomViewer.tsx:123-133 | the new state is the model's mouse-down step; the invariant is kept |
| DicomViewer.Viewer.Draw | src/components/DicomViewer.tsx:135-156 | the new state is the model's mouse-move step; the invariant is kept |
| DicomViewer.Viewer.StopDrawing | src/components/DicomViewer.tsx:158-160 | the new state is the model's mouse-up step, which is also its mouse-leave step; the invariant is kept |
| DicomViewer.Viewer.ChangeStudy | src/components/DicomViewer.tsx:30-33 | the new state is the model's corrected study-change step; the invariant is kept |
| DoctorComments.Handle | src/components/DoctorComments.tsx:52-88 | only a submit produces an output, at most one, and a reply it hands to `onReply` is for the comment being answered and has a non-blank text |
| DoctorComments.AtMostOneEditor | src/components/DoctorComments.tsx:14-15 | at most one comment shows the editor, the one whose index is `replyingIndex`, and on mount none does |
| DoctorComments.OpenDiscardsDraft | src/components/DoctorComments.tsx:85-88 | opening a reply selects that comment and empties the draft, also one begun on another comment |
| DoctorComments.EditChangesOnlyText | src/components/DoctorComments.tsx:52 | typing changes only the draft and produces no output |
| DoctorComments.CancelKeepsDraft | src/components/DoctorComments.tsx:75 | cancelling closes the editor and keeps the draft |
| DoctorComments.SubmitOutcome | src/components/DoctorComments.tsx:59-71 | a blank draft leaves both cells unchanged and raises the "Mensaje vacío" toast with no reply; otherwise exactly one `onReply(index, draft)` with the untrimmed draft, then an empty draft and no open editor |
| DoctorComments.SubmitSendsIffNotAllWhiteSpace | src/components/DoctorComments.tsx:60-68 | the reply is sent iff the draft has a character other than white space |
| DoctorComments.HandleOutputs | src/components/DoctorComments.tsx:59-71 | one event yields one output for a submit and none otherwise, every reply names a listed comment and is non-blank |
| DoctorComments.RunOutputs | src/components/DoctorComments.tsx:46-88 | over any run of events from controls on screen there is exactly one output per submit, every reply names a listed comment and carries a non-blank text |
| DoctorComments.ReplyEditor.constructor | src/components/DoctorComments.tsx:14-15 | an empty draft, no comment being answered, nothing emitted |
| DoctorComments.ReplyEditor.OpenReply | src/components/DoctorComments.tsx:85-88 | the new cells are the model's open step; nothing is emitted |
| DoctorComments.ReplyEditor.EditReply | src/components/DoctorComments.tsx:52 | the new cells are the model's edit step; nothing is emitted |
| DoctorComments.ReplyEditor.SubmitReply | src/components/DoctorComments.tsx:59-71 | the new cells are the model's submit step and its output is appended to what was emitted |
| DoctorComments.ReplyEditor.CancelReply | src/components/DoctorComments.tsx:75 | the new cells are the model's cancel step; nothing is emitted |
| LoginForm.Guard | src/pages/UserLogin.tsx:15-26 | the only toast is the "Error" / "Por favor ingrese un ID válido" one and the only destination is the target |
| LoginForm.PageStep | src/pages/UserLogin.tsx:13-45 | only typing changes the field, and only a submit yields an outcome, exactly one |
| LoginForm.GuardIff | src/pages/UserLogin.tsx:15-26 | the guard rejects with the "Error" toast exactly the ids made only of white space, and otherwise navigates to the target |
| LoginForm.PageRunFacts | src/pages/UserLogin.tsx:10-45 | over any events the field holds the last typed value, and there is exactly one outcome per submit |
| LoginForm.RunThenStep | src/pages/DoctorLogin.tsx:10-45 | running events and then one more is stepping the run's result |
| LoginForm.SubmitUsesLastTyped | src/pages/DoctorLogin.tsx:13-45 | a submit adds one outcome, computed from the last typed value, and leaves the field unchanged |
| LoginForm.TypeThenSubmit | src/pages/UserLogin.tsx:13-45 | typing a value and submitting yields the outcome for that value and keeps it in the field |
| UserLogin.HandleSubmit | src/pages/UserLogin.tsx:13-26 | a refused id raises the "invalid id" toast; an accepted one navigates to "/user-view/" followed by the id |
| UserLogin.SubmitOutcome | src/pages/UserLogin.tsx:15-26 | an id with any non-white-space character navigates to exactly "/user-view/" followed by the id as typed; otherwise the toast |
| UserLogin.PathDeterminesId | src/pages/UserLogin.tsx:26 | two accepted ids reach the same path iff they are the same string: nothing is trimmed from it |
| DoctorLogin.HandleSubmit | src/pages/DoctorLogin.tsx:13-26 | a refused id raises the "invalid id" toast; an accepted one navigates to "/admin" |
| DoctorLogin.SubmitOutcome | src/pages/DoctorLogin.tsx:15-26 | an id with any non-white-space character navigates to "/admin"; otherwise the toast |
| DoctorLogin.DestinationIgnoresId | src/pages/DoctorLogin.tsx:26 | every accepted id leads to the same destination |

## Left out

- Image loading is not modelled: the placeholder URL, `Image.onload`, `drawImage` and the rotate/scale canvas transform are browser I/O and floating-point rendering. So is the `getImageData`/`putImageData` round trip. The pass works on the byte buffer directly.
- The `ctx.stroke` drawing itself is not modelled; a stroke is recorded as a segment of the overlay.
- WindowLevel.ContrastChannel: the store is the rounding of the exact value `(d - 128) * width / 50 + 128`. The browser computes it in IEEE doubles, where `width / 50` is inexact. For a value that lies exactly on a half, the double result may fall just off it and round the other way.
- JsString.LowerChar: `toLowerCase` is modelled for the Basic Latin and Latin-1 capitals only (`IsModelledCapital`). Other Unicode case mappings, including ones that change a string's length, are not modelled.
- JsString.IsJsWhiteSpace: strings are sequences of Unicode scalar values, not UTF-16 code units. Surrogate pairs and lone surrogates are not modelled; every character of the white-space set is a single code unit.
- ViewerModel.MapToCanvas: requires a box with an area. On a zero-size box the source divides by zero and gets an infinite or NaN coordinate, which is not modelled; the browser does not deliver mouse events to such a box.
- ViewerModel.MapToCanvas: coordinates are exact reals. The browser computes `(e.clientX - rect.left) * (canvas.width / rect.width)` in IEEE doubles, where `800 / width` and the product round. So ViewerModel.MapCorners, ViewerModel.MapRoundTrip and the `ClientOf` ensures of MapToCanvas hold exactly only in the model; in the browser they hold up to rounding.
- ViewerModel.Update: on a `StudyChanged` event it uses the corrected step `StudyChangeStep` of the Findings row, which restarts at image 0. So do ViewerModel.Step, ViewerModel.Run, ViewerModel.RunPreservesValid, ViewerModel.OverlayKeptIffDepsUnchanged and DicomViewer.Viewer.ChangeStudy. The code as written keeps the old index (`StudyChangeAsWritten`), and then the index bound of `Valid` can fail (`StudyChangeKeepsStaleIndex`). For runs without a study change the model and the code agree.
- The null guards on the canvas refs and 2D contexts are not modelled: both canvases are always mounted when the handlers run.
- React scheduling is not modelled in detail:
  - Each event is handled on the state left by the previous one, with the effect run synchronously after the event's render.
  - Effect dependencies are compared by value. React compares the `study` prop by reference, so a new study object with equal fields would also clear the overlay.
- The disabled state of the navigation buttons and the "n / m" image counter are not modelled separately. A disabled button's click is modelled as the handler's no-op.
- The settings tab selection (`activeTab`) and the handler-less "Guardar anotaciones" button are not modelled; neither has behaviour.
- The sidebar's row click (`setCurrentStudy`, the parent's setter) and its locale date formatting are not modelled.
- The comment thread's rendering of comments, replies and dates is not modelled. Adding the reply to the data is the parent's job behind `onReply`, which is modelled as an output.
- The toasts and `navigate` are modelled as outputs; `e.preventDefault()` is not modelled.
- src/pages/Index.tsx, src/pages/UserView.tsx, src/components/Header.tsx, src/components/StudyViewer.tsx, src/components/SharedHistory.tsx and src/lib/S3Uploader.ts are not part of this model. They hold mock data with timers, clipboard and share links, export toasts, the S3 client and presentational markup.

## Findings

| source | as written | input that shows it | evidently intended | confidence | as-written member | corrected member |
|---|---|---|---|---|---|---|
| src/components/DicomViewer.tsx:30-33 | the image index is component state that nothing relates to the `study` prop, and the component is mounted without a `key` (src/pages/Index.tsx:75), so a new study keeps the old index | on image 2 of a two-image study, pass a study with one image: the index stays 1, the counter reads "2 / 1" and the index names no image of the study | a new study starts at its first image | not executed; latent: src/pages/Index.tsx:20-36 sets the study once | ViewerModel.StudyChangeAsWritten (shown by ViewerModel.StudyChangeKeepsStaleIndex) | ViewerModel.StudyChangeStep (proved by ViewerModel.StudyChangePreservesValid) |
