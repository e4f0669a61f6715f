/**
  The whole form session: the form's values and the submit status
  together, driven by what the user does, what the server answers and the
  reset timer. `handleSubmit` only calls `onSubmit` when every rule passes
  (src/App.jsx:109), and the button is disabled while submitting
  (src/App.jsx:290).
*/
module Session {
  import opened Wrappers
  import opened Entries
  import opened Validation
  import opened Payload
  import Submission

  datatype State = State(form: Form, status: Submission.Status)

  /** The page as it loads. */
  const Opened := State(DefaultValues, Submission.Idle)

  datatype UiEvent =
    | Edit(action: Action)
    | Submit(clock: nat -> string)
    | Respond(response: Submission.Response)
    | TimerFires

  /**
    One event of the session. Submitting needs a form that passes every rule
    and no request already awaited; it sends the rows built from the form.
    Only edits change the form: a failed submission leaves it as it was.
  */
  function Step(registry: seq<Coach>, s: State, e: UiEvent): (r: State)
    ensures !e.Edit? ==> r.form == s.form
    ensures e.Edit? ==> r.status == s.status && r.form == Apply(s.form, e.action)
    ensures e.Submit? && Submittable(s.form) && !s.status.isSubmitting ==>
      r.status == Submission.Step(s.status, Submission.Start(BuildPayload(s.form, registry, e.clock))).next
      && r.status.isSubmitting
    ensures e.Respond? ==> r.status == Submission.Step(s.status, Submission.Settle(e.response)).next
    ensures e.TimerFires? ==> r.status == Submission.Step(s.status, Submission.TimerExpired).next
    ensures e.Submit? && (!Submittable(s.form) || s.status.isSubmitting) ==> r == s
    ensures e.Submit? && Submittable(s.form) && !s.status.isSubmitting ==>
      r.status.inFlight == Some(BuildPayload(s.form, registry, e.clock))
  {
    match e
    case Edit(a) => s.(form := Apply(s.form, a))
    case Submit(clock) =>
      if Submittable(s.form) && !s.status.isSubmitting then
        var payload := BuildPayload(s.form, registry, clock);
        s.(status := Submission.Step(s.status, Submission.Start(payload)).next)
      else s
    case Respond(response) =>
      s.(status := Submission.Step(s.status, Submission.Settle(response)).next)
    case TimerFires =>
      s.(status := Submission.Step(s.status, Submission.TimerExpired).next)
  }

  function Run(registry: seq<Coach>, events: seq<UiEvent>): State {
    if |events| == 0 then Opened
    else Step(registry, Run(registry, events[..|events| - 1]), events[|events| - 1])
  }

  /**
    What holds throughout a session: the form has a card, the status is
    consistent, and every payload sent or shown as submitted is well formed.
  */
  predicate Invariant(s: State) {
    && |s.form.schedules| >= 1
    && Submission.Consistent(s.status)
    && (s.status.inFlight.Some? ==> WellFormedPayload(s.status.inFlight.value))
    && (s.status.submittedData.Some? ==> WellFormedPayload(s.status.submittedData.value))
  }

  lemma StepKeepsInvariant(registry: seq<Coach>, s: State, e: UiEvent)
    requires Invariant(s)
    ensures Invariant(Step(registry, s, e))
  {
    if e.Submit? && Submittable(s.form) && !s.status.isSubmitting {
      SubmittablePayloadIsWellFormed(s.form, registry, e.clock);
    }
  }

  /**
    Every session keeps the invariant: in particular whatever the preview
    card shows is a non-empty batch of rows for one coach and base whose date
    ranges are increasing and pairwise disjoint.
  */
  lemma {:induction false} RunKeepsInvariant(registry: seq<Coach>, events: seq<UiEvent>)
    ensures Invariant(Run(registry, events))
  {
    if |events| > 0 {
      RunKeepsInvariant(registry, events[..|events| - 1]);
      StepKeepsInvariant(registry, Run(registry, events[..|events| - 1]), events[|events| - 1]);
    }
  }
}
