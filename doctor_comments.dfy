/**
  The reply editor of the comment thread (src/components/DoctorComments.tsx):
  a draft text and the index of the comment being answered, changed by
  the "Responder" button of a comment, the text area, the editor's own
  "Responder" (submit) and "Cancelar" buttons. Submitting hands the reply
  to the parent's `onReply`; a blank draft raises a toast instead. Both
  are recorded as outputs.
 */
module DoctorComments {
  import opened Wrappers
  import opened Toasts
  import opened JsString
  import opened StudyTypes

  /** The two `useState` cells. */
  datatype Editor = Editor(replyText: string, replyingIndex: Option<nat>)

  /** What the component hands to the outside: an `onReply(index, text)` call or a toast. */
  datatype Output = Replied(index: nat, text: string) | Toasted(toast: Toast)

  /** The user's actions on the thread. */
  datatype EditorEvent =
    | OpenReply(index: nat)
    | EditReply(text: string)
    | SubmitReply
    | CancelReply

  /** The state on mount: an empty draft and no comment being answered. */
  const Closed: Editor := Editor("", None)

  /** The toast raised for a blank reply. */
  const EmptyReplyToast: Toast := Toast("Mensaje vacío", "No puedes enviar una respuesta vacía.", true)

  /** The comment at `index` renders the text area and the submit/cancel buttons. */
  predicate ShowsEditor(e: Editor, index: nat) {
    e.replyingIndex == Some(index)
  }

  /**
    The control the event comes from is on screen: the open button of one
    of the `count` comments whose editor is not shown, or the text area and
    buttons of the open editor.
   */
  predicate IsAvailable(e: Editor, ev: EditorEvent, count: nat) {
    match ev
    case OpenReply(i) => i < count && !ShowsEditor(e, i)
    case _ => e.replyingIndex.Some?
  }

  /**
    The editor's state after the event and the outputs it produced: only a
    submit produces anything, at most one output, and a reply it hands to
    `onReply` is for the comment being answered and has a non-blank text.
   */
  function Handle(e: Editor, ev: EditorEvent): (r: (Editor, seq<Output>))
    ensures |r.1| <= 1
    ensures !ev.SubmitReply? ==> r.1 == []
    ensures r.1 != [] && r.1[0].Replied? ==> e.replyingIndex == Some(r.1[0].index) && !IsBlank(r.1[0].text)
  {
    match ev
    case OpenReply(i) => (Editor("", Some(i)), [])
    case EditReply(t) => (e.(replyText := t), [])
    case SubmitReply =>
      if IsBlank(e.replyText) then (e, [Toasted(EmptyReplyToast)])
      else if e.replyingIndex.Some? then (Closed, [Replied(e.replyingIndex.value, e.replyText)])
      else (e, [])
    case CancelReply => (e.(replyingIndex := None), [])
  }

  /** Every event of `evs` comes from a control on screen when it happens. */
  predicate Feasible(e: Editor, evs: seq<EditorEvent>, count: nat)
    decreases |evs|
  {
    evs == [] || (IsAvailable(e, evs[0], count) && Feasible(Handle(e, evs[0]).0, evs[1..], count))
  }

  /** A run of events: the final state and all outputs, in order. */
  function Run(e: Editor, evs: seq<EditorEvent>): (Editor, seq<Output>)
    decreases |evs|
  {
    if evs == [] then (e, [])
    else
      var first := Handle(e, evs[0]);
      var rest := Run(first.0, evs[1..]);
      (rest.0, first.1 + rest.1)
  }

  /** Only one comment at a time shows the editor, and on mount none does. */
  lemma AtMostOneEditor(e: Editor, i: nat, j: nat)
    ensures ShowsEditor(e, i) && ShowsEditor(e, j) ==> i == j
    ensures !ShowsEditor(Closed, i)
  {
  }

  /** Opening a reply selects that comment and throws away any draft, also one begun on another comment. */
  lemma OpenDiscardsDraft(e: Editor, i: nat)
    ensures Handle(e, OpenReply(i)) == (Editor("", Some(i)), [])
    ensures ShowsEditor(Handle(e, OpenReply(i)).0, i)
  {
  }

  /** Typing changes only the draft. */
  lemma EditChangesOnlyText(e: Editor, t: string)
    ensures Handle(e, EditReply(t)) == (Editor(t, e.replyingIndex), [])
  {
  }

  /** Cancelling closes the editor and keeps the draft. */
  lemma CancelKeepsDraft(e: Editor)
    ensures Handle(e, CancelReply) == (Editor(e.replyText, None), [])
  {
  }

  /**
    Submitting from an open editor: a blank draft leaves both cells as
    they are and raises the toast, with no reply; otherwise exactly one
    reply with the untrimmed draft for that comment, and the editor is
    closed with an empty draft.
   */
  lemma SubmitOutcome(e: Editor)
    requires e.replyingIndex.Some?
    ensures IsBlank(e.replyText) ==> Handle(e, SubmitReply) == (e, [Toasted(EmptyReplyToast)])
    ensures !IsBlank(e.replyText) ==> Handle(e, SubmitReply) == (Closed, [Replied(e.replyingIndex.value, e.replyText)])
  {
  }

  /** A draft made only of white space is refused, and one with any other character is sent. */
  lemma SubmitSendsIffNotAllWhiteSpace(e: Editor)
    requires e.replyingIndex.Some?
    ensures Handle(e, SubmitReply).1[0].Replied? <==> exists i :: 0 <= i < |e.replyText| && !IsJsWhiteSpace(e.replyText[i])
  {
    BlankIffAllWhiteSpace(e.replyText);
  }

  /** The number of submit clicks in a run of events. */
  function Submits(evs: seq<EditorEvent>): nat {
    if evs == [] then 0 else (if evs[0].SubmitReply? then 1 else 0) + Submits(evs[1..])
  }

  /** The editor only ever answers one of the `count` comments. */
  predicate Inv(e: Editor, count: nat) {
    e.replyingIndex.Some? ==> e.replyingIndex.value < count
  }

  /** Every reply handed to `onReply` names a listed comment and carries a non-blank text. */
  predicate WellFormedOutputs(out: seq<Output>, count: nat) {
    forall k :: 0 <= k < |out| && out[k].Replied? ==> out[k].index < count && !IsBlank(out[k].text)
  }

  /** One event from a control on screen: one output for a submit click, none otherwise, each well formed. */
  lemma HandleOutputs(e: Editor, ev: EditorEvent, count: nat)
    requires Inv(e, count) && IsAvailable(e, ev, count)
    ensures |Handle(e, ev).1| == if ev.SubmitReply? then 1 else 0
    ensures WellFormedOutputs(Handle(e, ev).1, count)
    ensures Inv(Handle(e, ev).0, count)
  {
  }

  /** Joining two well-formed output lists gives a well-formed one. */
  lemma WellFormedConcat(a: seq<Output>, b: seq<Output>, count: nat)
    requires WellFormedOutputs(a, count) && WellFormedOutputs(b, count)
    ensures WellFormedOutputs(a + b, count)
  {
    forall k | 0 <= k < |a + b| && (a + b)[k].Replied?
      ensures (a + b)[k].index < count && !IsBlank((a + b)[k].text)
    {
      if k >= |a| {
        assert (a + b)[k] == b[k - |a|];
      }
    }
  }

  /**
    Over any run of events from controls on screen: every submit click
    produces exactly one output (a reply or the toast) and nothing else
    does, every reply is well formed, and the editor keeps answering a
    listed comment.
   */
  lemma {:induction false} RunOutputs(e: Editor, evs: seq<EditorEvent>, count: nat)
    requires Inv(e, count) && Feasible(e, evs, count)
    ensures |Run(e, evs).1| == Submits(evs)
    ensures WellFormedOutputs(Run(e, evs).1, count)
    ensures Inv(Run(e, evs).0, count)
    decreases |evs|
  {
    if evs != [] {
      var e1 := Handle(e, evs[0]).0;
      HandleOutputs(e, evs[0], count);
      RunOutputs(e1, evs[1..], count);
      WellFormedConcat(Handle(e, evs[0]).1, Run(e1, evs[1..]).1, count);
    }
  }

  /** The component itself, with the parent's `onReply` calls and the toasts collected in `emitted`. */
  class ReplyEditor {
    const comments: seq<DoctorComment>
    var replyText: string
    var replyingIndex: Option<nat>
    var emitted: seq<Output>

    function State(): Editor
      reads this
    {
      Editor(replyText, replyingIndex)
    }

    ghost predicate Valid()
      reads this
    {
      Inv(State(), |comments|) && WellFormedOutputs(emitted, |comments|)
    }

    constructor (comments: seq<DoctorComment>)
      ensures this.comments == comments
      ensures State() == Closed && emitted == []
      ensures Valid()
    {
      this.comments := comments;
      replyText := "";
      replyingIndex := None;
      emitted := [];
    }

    /** The "Responder" button of comment `index` (src/components/DoctorComments.tsx:85-88). */
    method OpenReply(index: nat)
      requires Valid() && IsAvailable(State(), EditorEvent.OpenReply(index), |comments|)
      modifies this
      ensures Valid()
      ensures (State(), emitted) == (Handle(old(State()), EditorEvent.OpenReply(index)).0, old(emitted))
    {
      replyingIndex := Some(index);
      replyText := "";
    }

    /** The text area's `onChange`. */
    method EditReply(text: string)
      requires Valid() && IsAvailable(State(), EditorEvent.EditReply(text), |comments|)
      modifies this
      ensures Valid()
      ensures (State(), emitted) == (Handle(old(State()), EditorEvent.EditReply(text)).0, old(emitted))
    {
      replyText := text;
    }

    /** The editor's "Responder" button: the blank check, then `onReply` and the reset of both cells. */
    method SubmitReply()
      requires Valid() && IsAvailable(State(), EditorEvent.SubmitReply, |comments|)
      modifies this
      ensures Valid()
      ensures State() == Handle(old(State()), EditorEvent.SubmitReply).0
      ensures emitted == old(emitted) + Handle(old(State()), EditorEvent.SubmitReply).1
    {
      if IsBlank(replyText) {
        WellFormedConcat(emitted, [Toasted(EmptyReplyToast)], |comments|);
        emitted := emitted + [Toasted(EmptyReplyToast)];
        return;
      }
      WellFormedConcat(emitted, [Replied(replyingIndex.value, replyText)], |comments|);
      emitted := emitted + [Replied(replyingIndex.value, replyText)];
      replyText := "";
      replyingIndex := None;
    }

    /** The "Cancelar" button. */
    method CancelReply()
      requires Valid() && IsAvailable(State(), EditorEvent.CancelReply, |comments|)
      modifies this
      ensures Valid()
      ensures (State(), emitted) == (Handle(old(State()), EditorEvent.CancelReply).0, old(emitted))
    {
      replyingIndex := None;
    }
  }
}
