/**
  What the two login pages (src/pages/UserLogin.tsx and
  src/pages/DoctorLogin.tsx) share: one text field, and a submit whose
  handler either raises the "invalid id" toast or navigates. Each page
  supplies its own submit handler.
 */
module LoginForm {
  import opened Toasts
  import opened JsString

  /** The result of a submit: a toast and no navigation, or a navigation and no toast. */
  datatype Outcome = Rejected(toast: Toast) | Navigated(path: string)

  /** The toast both pages raise for a blank id. */
  const InvalidIdToast: Toast := Toast("Error", "Por favor ingrese un ID válido", true)

  /** `if (!id.trim()) { toast(...); return; } navigate(target)`: the only toast is the "invalid id" one, the only destination `target`. */
  function Guard(id: string, target: string): (r: Outcome)
    ensures r.Rejected? ==> r.toast == InvalidIdToast
    ensures r.Navigated? ==> r.path == target
  {
    if IsBlank(id) then Rejected(InvalidIdToast) else Navigated(target)
  }

  /** The guard rejects exactly the ids made only of white space, and otherwise goes to `target`. */
  lemma GuardIff(id: string, target: string)
    ensures Guard(id, target).Rejected? <==> forall i :: 0 <= i < |id| ==> IsJsWhiteSpace(id[i])
    ensures Guard(id, target).Rejected? ==> Guard(id, target) == Rejected(InvalidIdToast)
    ensures Guard(id, target).Navigated? ==> Guard(id, target).path == target
  {
    BlankIffAllWhiteSpace(id);
  }

  /** The user's actions on the form: typing into the field and submitting it. */
  datatype FormEvent = Change(value: string) | Submit

  /** The field's content after the events, starting from `id`: the last typed value. */
  function FieldAfter(id: string, evs: seq<FormEvent>): string
    decreases |evs|
  {
    if evs == [] then id else FieldAfter(if evs[0].Change? then evs[0].value else id, evs[1..])
  }

  /** The number of submits among the events. */
  function Submits(evs: seq<FormEvent>): nat {
    if evs == [] then 0 else (if evs[0].Submit? then 1 else 0) + Submits(evs[1..])
  }

  /** One event on the page: only typing changes the field, and only a submit yields an outcome, exactly one. */
  function PageStep(id: string, ev: FormEvent, submit: string -> Outcome): (r: (string, seq<Outcome>))
    ensures |r.1| == if ev.Submit? then 1 else 0
    ensures ev.Submit? ==> r.0 == id
  {
    match ev
    case Change(v) => (v, [])
    case Submit => (id, [submit(id)])
  }

  /** A run of events on the page: the final field content and the outcomes, in order. */
  function PageRun(id: string, evs: seq<FormEvent>, submit: string -> Outcome): (string, seq<Outcome>)
    decreases |evs|
  {
    if evs == [] then (id, [])
    else
      var first := PageStep(id, evs[0], submit);
      var rest := PageRun(first.0, evs[1..], submit);
      (rest.0, first.1 + rest.1)
  }

  /**
    Over any events, the field holds what was typed last (submitting never
    changes it) and there is exactly one outcome per submit, each computed
    from the field's content at that moment.
   */
  lemma {:induction false} PageRunFacts(id: string, evs: seq<FormEvent>, submit: string -> Outcome)
    ensures PageRun(id, evs, submit).0 == FieldAfter(id, evs)
    ensures |PageRun(id, evs, submit).1| == Submits(evs)
    decreases |evs|
  {
    if evs != [] {
      PageRunFacts(PageStep(id, evs[0], submit).0, evs[1..], submit);
    }
  }

  /** Submitting right after typing a value submits that value, and leaves it in the field. */
  lemma TypeThenSubmit(id: string, v: string, submit: string -> Outcome)
    ensures PageRun(id, [Change(v), Submit], submit) == (v, [submit(v)])
  {
    assert [Submit][1..] == [];
    assert PageRun(v, [], submit) == (v, []);
    assert PageRun(v, [Submit], submit) == (v, [submit(v)] + []);
    assert [Change(v), Submit][1..] == [Submit];
    assert PageRun(id, [Change(v), Submit], submit) == (v, [] + ([submit(v)] + []));
    assert [] + ([submit(v)] + []) == [submit(v)];
  }

  /** Running the events and then one more is stepping the outcome of the run. */
  lemma {:induction false} RunThenStep(id: string, evs: seq<FormEvent>, ev: FormEvent, submit: string -> Outcome)
    ensures var run := PageRun(id, evs, submit);
            PageRun(id, evs + [ev], submit) == (PageStep(run.0, ev, submit).0, run.1 + PageStep(run.0, ev, submit).1)
    decreases |evs|
  {
    if evs == [] {
      var first := PageStep(id, ev, submit);
      assert evs + [ev] == [ev] && [ev][1..] == [];
      assert PageRun(first.0, [], submit) == (first.0, []);
      assert PageRun(id, [ev], submit) == (first.0, first.1 + []);
      assert PageRun(id, evs, submit) == (id, []);
      assert first.1 + [] == [] + first.1;
    } else {
      assert (evs + [ev])[0] == evs[0];
      assert (evs + [ev])[1..] == evs[1..] + [ev];
      var first := PageStep(id, evs[0], submit);
      RunThenStep(first.0, evs[1..], ev, submit);
      var rest := PageRun(first.0, evs[1..], submit);
      var last := PageStep(rest.0, ev, submit);
      assert first.1 + (rest.1 + last.1) == (first.1 + rest.1) + last.1;
    }
  }

  /** A submit after any events yields one more outcome, computed from the last typed value. */
  lemma SubmitUsesLastTyped(id: string, evs: seq<FormEvent>, submit: string -> Outcome)
    ensures PageRun(id, evs + [Submit], submit).1 == PageRun(id, evs, submit).1 + [submit(FieldAfter(id, evs))]
    ensures PageRun(id, evs + [Submit], submit).0 == FieldAfter(id, evs)
  {
    RunThenStep(id, evs, Submit, submit);
    PageRunFacts(id, evs, submit);
  }
}
