/**
  The rules react-hook-form checks for each date input of the schedule
  cards (src/App.jsx:193-266), and for the two selections (src/App.jsx:121,
  146). Errors are computed afresh from the whole form, as the validators
  read the current `formValues`.
*/
module Validation {
  import opened Wrappers
  import opened Dates
  import opened Digits
  import opened Entries

  /** Both dates present and Day Out strictly after Day In. */
  predicate ValidInterval(e: Entry) {
    e.dayIn.Some? && e.dayOut.Some? && Before(e.dayIn.value, e.dayOut.value)
  }

  /** The source's overlap condition: `start <= otherEnd && otherStart <= end`. */
  predicate Intersects(a: Entry, b: Entry)
    requires ValidInterval(a) && ValidInterval(b)
  {
    OnOrBefore(a.dayIn.value, b.dayOut.value) && OnOrBefore(b.dayIn.value, a.dayOut.value)
  }

  /** Day d lies in the entry's closed range, both ends included. */
  predicate Covers(e: Entry, d: Date)
    requires ValidInterval(e)
  {
    OnOrBefore(e.dayIn.value, d) && OnOrBefore(d, e.dayOut.value)
  }

  /**
    The overlap condition holds exactly when the two closed ranges share a
    calendar day. It is symmetric, and back-to-back entries (one's Day Out
    is the other's Day In) share that day, so they overlap.
  */
  lemma IntersectsIffSharedDay(a: Entry, b: Entry)
    requires ValidInterval(a) && ValidInterval(b)
    ensures Intersects(a, b) <==> exists d: Date :: Covers(a, d) && Covers(b, d)
    ensures Intersects(a, b) <==> Intersects(b, a)
    ensures a.dayOut == b.dayIn ==> Intersects(a, b)
  {
    if Intersects(a, b) {
      var d := if OnOrBefore(a.dayIn.value, b.dayIn.value) then b.dayIn.value else a.dayIn.value;
      assert Covers(a, d) && Covers(b, d);
    }
  }

  /** Entry i is one the check of entry `index` must report. */
  predicate ConflictsAt(es: seq<Entry>, index: nat, i: nat)
    requires index < |es| && i < |es| && ValidInterval(es[index])
  {
    i != index && ValidInterval(es[i]) && Intersects(es[index], es[i])
  }

  /** The scan of `noOverlap` from position i on: the 1-based number of the first conflict. */
  function FirstConflict(es: seq<Entry>, index: nat, i: nat): (r: Option<nat>)
    requires index < |es| && i <= |es| && ValidInterval(es[index])
    ensures r.Some? ==> i < r.value <= |es| && ConflictsAt(es, index, r.value - 1)
    ensures r.Some? ==> forall j :: i <= j < r.value - 1 ==> !ConflictsAt(es, index, j)
    ensures r.None? <==> forall j :: i <= j < |es| ==> !ConflictsAt(es, index, j)
    decreases |es| - i
  {
    if i == |es| then None
    else if ConflictsAt(es, index, i) then Some(i + 1)
    else FirstConflict(es, index, i + 1)
  }

  /**
    `noOverlap` of entry `index`, shared by its Day In and Day Out inputs:
    the 1-based number of the first other valid entry whose range meets
    this one's, or nothing when there is none or this entry's own range is
    incomplete or not increasing.
  */
  function OverlapError(es: seq<Entry>, index: nat): (r: Option<nat>)
    requires index < |es|
    ensures r.Some? ==> ValidInterval(es[index]) && 1 <= r.value <= |es| && r.value - 1 != index
    ensures r.Some? ==> ConflictsAt(es, index, r.value - 1)
    ensures r.Some? ==> forall j :: 0 <= j < r.value - 1 ==> !ConflictsAt(es, index, j)
    ensures r.None? <==> !ValidInterval(es[index]) || forall j :: 0 <= j < |es| ==> !ConflictsAt(es, index, j)
  {
    var current := es[index];
    if current.dayIn.None? || current.dayOut.None? then None
    else if OnOrBefore(current.dayOut.value, current.dayIn.value) then None
    else FirstConflict(es, index, 0)
  }

  /** `noOverlap` step by step: guard clauses, then the `for` loop with its `continue`. */
  method NoOverlap(es: seq<Entry>, index: nat) returns (r: Option<nat>)
    requires index < |es|
    ensures r == OverlapError(es, index)
  {
    var current := es[index];
    if current.dayIn.None? || current.dayOut.None? {
      return None;
    }
    if OnOrBefore(current.dayOut.value, current.dayIn.value) {
      return None;
    }
    var i := 0;
    while i < |es|
      invariant 0 <= i <= |es|
      invariant forall j :: 0 <= j < i ==> !ConflictsAt(es, index, j)
    {
      if i != index {
        var other := es[i];
        if other.dayIn.Some? && other.dayOut.Some? {
          if Before(other.dayIn.value, other.dayOut.value) {
            if OnOrBefore(current.dayIn.value, other.dayOut.value)
               && OnOrBefore(other.dayIn.value, current.dayOut.value)
            {
              assert ConflictsAt(es, index, i);
              return Some(i + 1);
            }
          }
        }
      }
      i := i + 1;
    }
    return None;
  }

  /** A field's error, in the order react-hook-form reports the first one. */
  datatype FieldError =
    | DayInRequired
    | DayOutRequired
    | DayOutNotAfterDayIn
    | OverlapsEntry(entry: nat)

  function Message(e: FieldError): string {
    match e
    case DayInRequired => "Day In is required"
    case DayOutRequired => "Day Out is required"
    case DayOutNotAfterDayIn => "Day Out must be after Day In"
    case OverlapsEntry(n) => OverlapPrefix + Decimal(n)
  }

  const OverlapPrefix := "Dates overlap with entry "

  /** Reads a shown message back into the error it reports. */
  function ParseMessage(m: string): Option<FieldError> {
    if m == "Day In is required" then Some(DayInRequired)
    else if m == "Day Out is required" then Some(DayOutRequired)
    else if m == "Day Out must be after Day In" then Some(DayOutNotAfterDayIn)
    else if |m| > |OverlapPrefix| && m[..|OverlapPrefix|] == OverlapPrefix && AllDigits(m[|OverlapPrefix|..])
    then Some(OverlapsEntry(Value(m[|OverlapPrefix|..])))
    else None
  }

  lemma OverlapMessageParses(n: nat)
    ensures ParseMessage(Message(OverlapsEntry(n))) == Some(OverlapsEntry(n))
  {
    var m := Message(OverlapsEntry(n));
    assert m[2] == 't';
    assert m[..|OverlapPrefix|] == OverlapPrefix;
    assert m[|OverlapPrefix|..] == Decimal(n);
    DecimalRoundTrip(n);
  }

  /**
    Every message reads back as the error that produced it, so different
    errors show different messages and an overlap message names its entry
    unambiguously.
  */
  lemma MessageRoundTrip(e: FieldError)
    ensures ParseMessage(Message(e)) == Some(e)
    ensures forall e' :: Message(e') == Message(e) ==> e' == e
  {
    if e.OverlapsEntry? {
      OverlapMessageParses(e.entry);
    }
    forall e' | Message(e') == Message(e)
      ensures e' == e
    {
      if e'.OverlapsEntry? {
        OverlapMessageParses(e'.entry);
      }
    }
  }

  /** `afterDayIn`: Day Out is rejected when both dates are set and it is not after Day In. */
  function AfterDayIn(e: Entry): (r: Option<FieldError>)
    ensures r.Some? ==> r.value == DayOutNotAfterDayIn
  {
    if e.dayOut.Some? && e.dayIn.Some? && OnOrBefore(e.dayOut.value, e.dayIn.value)
    then Some(DayOutNotAfterDayIn)
    else None
  }

  /** On a complete entry, `afterDayIn` accepts exactly the valid ranges. */
  lemma AfterDayInAcceptsValid(e: Entry)
    ensures AfterDayIn(e).Some? <==> e.dayIn.Some? && e.dayOut.Some? && !ValidInterval(e)
    ensures AfterDayIn(e).Some? <==>
      e.dayIn.Some? && e.dayOut.Some? && !LexBefore(e.dayIn.value, e.dayOut.value)
  {
    if e.dayIn.Some? && e.dayOut.Some? {
      ChronologicalIsLexicographic(e.dayIn.value, e.dayOut.value);
    }
  }

  /** Some other valid entry meets entry `index`'s valid range. */
  predicate Overlapping(es: seq<Entry>, index: nat)
    requires index < |es|
  {
    ValidInterval(es[index]) && exists j :: 0 <= j < |es| && ConflictsAt(es, index, j)
  }

  /** The error shown under Day In of card `index`: `required`, then `noOverlap`. */
  function DayInError(es: seq<Entry>, index: nat): (r: Option<FieldError>)
    requires index < |es|
    ensures r == Some(DayInRequired) <==> es[index].dayIn.None?
    ensures r.None? <==> es[index].dayIn.Some? && !Overlapping(es, index)
    ensures es[index].dayIn.Some? && Overlapping(es, index) ==>
      OverlapError(es, index).Some? && r == Some(OverlapsEntry(OverlapError(es, index).value))
    ensures r.Some? && r.value.OverlapsEntry? ==>
      && Overlapping(es, index)
      && 1 <= r.value.entry <= |es|
      && ConflictsAt(es, index, r.value.entry - 1)
      && forall j :: 0 <= j < r.value.entry - 1 ==> !ConflictsAt(es, index, j)
  {
    if es[index].dayIn.None? then Some(DayInRequired)
    else match OverlapError(es, index)
      case Some(n) => Some(OverlapsEntry(n))
      case None => None
  }

  /** The error shown under Day Out of card `index`: `required`, then `afterDayIn`, then `noOverlap`. */
  function DayOutError(es: seq<Entry>, index: nat): (r: Option<FieldError>)
    requires index < |es|
    ensures r == Some(DayOutRequired) <==> es[index].dayOut.None?
    ensures r == Some(DayOutNotAfterDayIn) <==>
      es[index].dayIn.Some? && es[index].dayOut.Some? && !ValidInterval(es[index])
    ensures r.None? <==> es[index].dayOut.Some? && AfterDayIn(es[index]).None? && !Overlapping(es, index)
    ensures es[index].dayOut.Some? && ValidInterval(es[index]) && Overlapping(es, index) ==>
      OverlapError(es, index).Some? && r == Some(OverlapsEntry(OverlapError(es, index).value))
    ensures r.Some? && r.value.OverlapsEntry? ==>
      && Overlapping(es, index)
      && 1 <= r.value.entry <= |es|
      && ConflictsAt(es, index, r.value.entry - 1)
      && forall j :: 0 <= j < r.value.entry - 1 ==> !ConflictsAt(es, index, j)
  {
    if es[index].dayOut.None? then Some(DayOutRequired)
    else if AfterDayIn(es[index]).Some? then AfterDayIn(es[index])
    else match OverlapError(es, index)
      case Some(n) => Some(OverlapsEntry(n))
      case None => None
  }

  /** The `required` rule of a selection: its message when nothing is selected. */
  function Required(value: string, message: string): (r: Option<string>)
    ensures r.Some? <==> value == ""
    ensures r.Some? ==> r.value == message
  {
    if value == "" then Some(message) else None
  }

  function CoachError(f: Form): Option<string> {
    Required(f.coach, "Please select a coach")
  }

  function BaseError(f: Form): Option<string> {
    Required(f.base, "Please select a base")
  }

  /** `handleSubmit` calls `onSubmit` only when no field has an error. */
  predicate Submittable(f: Form) {
    && CoachError(f).None?
    && BaseError(f).None?
    && forall i :: 0 <= i < |f.schedules| ==>
         DayInError(f.schedules, i).None? && DayOutError(f.schedules, i).None?
  }

  /** No two valid entries at different positions share a day. */
  predicate PairwiseDisjoint(es: seq<Entry>) {
    forall i, j :: 0 <= i < |es| && 0 <= j < |es| && i != j && ValidInterval(es[i]) && ValidInterval(es[j])
      ==> !Intersects(es[i], es[j])
  }

  /** Every entry is complete and increasing, and no two entries share a day. */
  predicate WellFormedSchedule(es: seq<Entry>) {
    (forall i :: 0 <= i < |es| ==> ValidInterval(es[i])) && PairwiseDisjoint(es)
  }

  /**
    The per-field rules together accept a form exactly when both selections
    are made and the schedule is well formed.
  */
  lemma SubmittableIffWellFormed(f: Form)
    ensures Submittable(f) <==> f.coach != "" && f.base != "" && WellFormedSchedule(f.schedules)
  {
    var es := f.schedules;
    if Submittable(f) {
      forall i | 0 <= i < |es|
        ensures ValidInterval(es[i])
      {
        assert DayInError(es, i).None? && DayOutError(es, i).None?;
        AfterDayInAcceptsValid(es[i]);
      }
      forall i, j | 0 <= i < |es| && 0 <= j < |es| && i != j && ValidInterval(es[i]) && ValidInterval(es[j])
        ensures !Intersects(es[i], es[j])
      {
        assert DayInError(es, i).None?;
        assert !ConflictsAt(es, i, j);
      }
    }
    if f.coach != "" && f.base != "" && WellFormedSchedule(es) {
      forall i | 0 <= i < |es|
        ensures DayInError(es, i).None? && DayOutError(es, i).None?
      {
        AfterDayInAcceptsValid(es[i]);
        assert !Overlapping(es, i);
      }
    }
  }
}
