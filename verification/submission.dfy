/**
  The submit button's status (src/App.jsx:40-42) and how `onSubmit`
  changes it (src/App.jsx:44-91). The request itself is an outcome handed
  to the machine, and the 3-second `setTimeout` is an explicit expiry event.
*/
module Submission {
  import opened Wrappers
  import opened Payload

  /** What `await fetch(...)` and `await response.json()` came to. */
  datatype Response =
    | NetworkError
    | NotJson
    | Reply(ok: bool, error: Option<string>)

  /** Only a parsed reply whose `ok` is set counts as success. */
  predicate Accepted(r: Response) {
    r.Reply? && r.ok
  }

  /** The blocking notice of every failure; the server's `error` text never reaches it. */
  const GenericAlert := "An error occurred while submitting. Please check your connection and try again."

  /**
    The three state hooks, plus what the model makes explicit: the payload
    of the request being awaited and the number of reset timers not yet fired.
  */
  datatype Status = Status(
    isSubmitting: bool,
    submitSuccess: bool,
    submittedData: Option<seq<Record>>,
    inFlight: Option<seq<Record>>,
    pendingTimers: nat)

  /** `useState(false)`, `useState(false)`, `useState(null)`. */
  const Idle := Status(false, false, None, None, 0)

  datatype Event =
    | Start(payload: seq<Record>)
    | Settle(response: Response)
    | TimerExpired

  /** The next status and the alert, if any, the event raised. */
  datatype Transition = Transition(next: Status, alert: Option<string>)

  /**
    One event. Start is ignored while a request is awaited (the button is
    disabled); Settle is ignored when nothing is awaited; TimerExpired is
    ignored when no reset timer is pending.
  */
  function Step(s: Status, e: Event): (t: Transition)
    ensures t.alert.Some? <==> e.Settle? && s.inFlight.Some? && !Accepted(e.response)
    ensures t.alert.Some? ==> t.alert.value == GenericAlert
    ensures e.Start? && s.isSubmitting ==> t.next == s
    ensures e.Start? && !s.isSubmitting ==>
      t.next == s.(isSubmitting := true, inFlight := Some(e.payload))
    ensures e.Settle? && s.inFlight.Some? ==> !t.next.isSubmitting && t.next.inFlight.None?
    ensures e.Settle? && s.inFlight.Some? && Accepted(e.response) ==>
      t.next.submitSuccess && t.next.submittedData == s.inFlight
      && t.next.pendingTimers == s.pendingTimers + 1
    ensures e.Settle? && s.inFlight.Some? && !Accepted(e.response) ==>
      t.next.submitSuccess == s.submitSuccess && t.next.submittedData == s.submittedData
      && t.next.pendingTimers == s.pendingTimers
    ensures e.Settle? && s.inFlight.None? ==> t.next == s
    ensures e.TimerExpired? && s.pendingTimers > 0 ==>
      t.next == s.(submitSuccess := false, pendingTimers := s.pendingTimers - 1)
    ensures e.TimerExpired? && s.pendingTimers == 0 ==> t.next == s
  {
    match e
    case Start(payload) =>
      if s.isSubmitting then Transition(s, None)
      else Transition(s.(isSubmitting := true, inFlight := Some(payload)), None)
    case Settle(response) =>
      if s.inFlight.None? then Transition(s, None)
      else if Accepted(response) then
        Transition(Status(false, true, s.inFlight, None, s.pendingTimers + 1), None)
      else
        Transition(s.(isSubmitting := false, inFlight := None), Some(GenericAlert))
    case TimerExpired =>
      if s.pendingTimers == 0 then Transition(s, None)
      else Transition(s.(submitSuccess := false, pendingTimers := s.pendingTimers - 1), None)
  }

  /**
    The button is disabled exactly while a request is awaited, and the
    success banner is only ever up while a timer is pending to take it down.
  */
  predicate Consistent(s: Status) {
    && (s.isSubmitting <==> s.inFlight.Some?)
    && (s.submitSuccess ==> s.pendingTimers > 0)
  }

  /** The status after a sequence of events, starting idle. */
  function Run(events: seq<Event>): Status {
    if |events| == 0 then Idle
    else Step(Run(events[..|events| - 1]), events[|events| - 1]).next
  }

  lemma {:induction false} RunConsistent(events: seq<Event>)
    ensures Consistent(Run(events))
  {
    if |events| > 0 {
      RunConsistent(events[..|events| - 1]);
    }
  }

  /** Two failures with different server replies look the same to the user. */
  lemma FailureAlertIgnoresServerText(s: Status, r1: Response, r2: Response)
    requires s.inFlight.Some? && !Accepted(r1) && !Accepted(r2)
    ensures Step(s, Settle(r1)) == Step(s, Settle(r2))
  {
  }
}
