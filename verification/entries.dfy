/**
  The form's values and the actions that change them: `defaultValues`
  (src/App.jsx:28-33), the schedule list's `append` and `remove`
  (src/App.jsx:176-179, 280) and the edits of the individual inputs.
*/
module Entries {
  import opened Wrappers
  import opened Dates

  /** One schedule card: an empty date input is `None`. */
  datatype Entry = Entry(dayIn: Option<Date>, dayOut: Option<Date>)

  /** The entry `append({ dayIn: '', dayOut: '' })` adds. */
  const Blank := Entry(None, None)

  /** The values react-hook-form holds for the whole form. */
  datatype Form = Form(coach: string, base: string, schedules: seq<Entry>)

  /** `defaultValues`: nothing selected and one blank schedule. */
  const DefaultValues := Form("", "", [Blank])

  /** "Add another schedule". */
  function Append(es: seq<Entry>): (r: seq<Entry>)
    ensures |r| == |es| + 1
    ensures forall k :: 0 <= k < |es| ==> r[k] == es[k]
    ensures r[|es|] == Blank
  {
    es + [Blank]
  }

  /**
    The trash button of card `index`. It is rendered only while there is
    more than one card, so with a single card nothing can remove it.
  */
  function Remove(es: seq<Entry>, index: nat): (r: seq<Entry>)
    requires index < |es|
    ensures |es| <= 1 ==> r == es
    ensures |es| > 1 ==> |r| == |es| - 1
    ensures |es| > 1 ==> forall k :: 0 <= k < index ==> r[k] == es[k]
    ensures |es| > 1 ==> forall k :: index <= k < |r| ==> r[k] == es[k + 1]
  {
    if |es| > 1 then es[..index] + es[index + 1..] else es
  }

  /** What a user can do to the form. */
  datatype Action =
    | SelectCoach(ps: string)
    | SelectBase(base: string)
    | AddEntry
    | RemoveEntry(index: nat)
    | SetDayIn(index: nat, value: Option<Date>)
    | SetDayOut(index: nat, value: Option<Date>)

  /** The form after one action; an action on a card that does not exist changes nothing. */
  function Apply(f: Form, a: Action): (r: Form)
    ensures |f.schedules| >= 1 ==> |r.schedules| >= 1
    ensures a.AddEntry? ==> r == f.(schedules := f.schedules + [Blank])
    ensures !a.AddEntry? && !a.RemoveEntry? ==> |r.schedules| == |f.schedules|
    ensures a.SelectCoach? ==> r == f.(coach := a.ps)
    ensures a.SelectBase? ==> r == f.(base := a.base)
    ensures a.RemoveEntry? && a.index < |f.schedules| ==> r.schedules == Remove(f.schedules, a.index)
    ensures (a.SetDayIn? || a.SetDayOut? || a.RemoveEntry?) ==> r.coach == f.coach && r.base == f.base
    ensures (a.SetDayIn? || a.SetDayOut? || a.RemoveEntry?) && a.index >= |f.schedules| ==> r == f
    ensures a.SetDayIn? && a.index < |f.schedules| ==>
      && r.schedules[a.index].dayIn == a.value
      && r.schedules[a.index].dayOut == f.schedules[a.index].dayOut
      && forall k :: 0 <= k < |f.schedules| && k != a.index ==> r.schedules[k] == f.schedules[k]
    ensures a.SetDayOut? && a.index < |f.schedules| ==>
      && r.schedules[a.index].dayOut == a.value
      && r.schedules[a.index].dayIn == f.schedules[a.index].dayIn
      && forall k :: 0 <= k < |f.schedules| && k != a.index ==> r.schedules[k] == f.schedules[k]
  {
    match a
    case SelectCoach(ps) => f.(coach := ps)
    case SelectBase(b) => f.(base := b)
    case AddEntry => f.(schedules := Append(f.schedules))
    case RemoveEntry(i) =>
      if i < |f.schedules| then f.(schedules := Remove(f.schedules, i)) else f
    case SetDayIn(i, v) =>
      if i < |f.schedules| then f.(schedules := f.schedules[i := f.schedules[i].(dayIn := v)]) else f
    case SetDayOut(i, v) =>
      if i < |f.schedules| then f.(schedules := f.schedules[i := f.schedules[i].(dayOut := v)]) else f
  }

  /** The form after a session's actions, starting from the default values. */
  function Replay(actions: seq<Action>): Form {
    if |actions| == 0 then DefaultValues
    else Apply(Replay(actions[..|actions| - 1]), actions[|actions| - 1])
  }

  /** The number of "Add another schedule" clicks in a session. */
  function Adds(actions: seq<Action>): nat {
    if |actions| == 0 then 0
    else Adds(actions[..|actions| - 1]) + (if actions[|actions| - 1].AddEntry? then 1 else 0)
  }

  /**
    The schedule list is never empty, and it never holds more cards than the
    default one plus those added.
  */
  lemma {:induction false} ReplayKeepsAnEntry(actions: seq<Action>)
    ensures 1 <= |Replay(actions).schedules| <= 1 + Adds(actions)
  {
    if |actions| > 0 {
      ReplayKeepsAnEntry(actions[..|actions| - 1]);
    }
  }

  /** With only adds and edits, the list has exactly one card per add plus the default one. */
  lemma {:induction false} ReplayWithoutRemoves(actions: seq<Action>)
    requires forall k :: 0 <= k < |actions| ==> !actions[k].RemoveEntry?
    ensures |Replay(actions).schedules| == 1 + Adds(actions)
  {
    if |actions| > 0 {
      ReplayWithoutRemoves(actions[..|actions| - 1]);
    }
  }
}
