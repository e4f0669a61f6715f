/**
  The rows `onSubmit` sends (src/App.jsx:44-59): one flat record per
  schedule card, carrying the coach, the coach's name from the registry and
  the base. The registry (`COACHES`) and the clock are parameters.
*/
module Payload {
  import opened Wrappers
  import opened Dates
  import opened DateText
  import opened Entries
  import opened Validation

  /** A registry entry: the coach's PS identifier and display name. */
  datatype Coach = Coach(ps: string, name: string)

  /** One row of the submitted sheet. */
  datatype Record = Record(
    timestamp: string,
    userId: string,
    userName: string,
    location: string,
    scheduleIn: string,
    scheduleOut: string)

  /** `COACHES.find(c => c.ps === coach)`: the position of the first entry with that PS. */
  function FindCoach(registry: seq<Coach>, ps: string): (r: Option<nat>)
    ensures r.Some? ==> r.value < |registry| && registry[r.value].ps == ps
    ensures r.Some? ==> forall k :: 0 <= k < r.value ==> registry[k].ps != ps
    ensures r.None? <==> forall k :: 0 <= k < |registry| ==> registry[k].ps != ps
  {
    if |registry| == 0 then None
    else if registry[0].ps == ps then Some(0)
    else match FindCoach(registry[1..], ps)
      case None => None
      case Some(k) => Some(k + 1)
  }

  /**
    `selectedCoach?.name || ''`: the name of the first registry entry with
    the selected PS, and the empty string when no entry has it.
  */
  function CoachName(registry: seq<Coach>, ps: string): (name: string)
    ensures (forall k :: 0 <= k < |registry| ==> registry[k].ps != ps) ==> name == ""
    ensures forall k ::
      (0 <= k < |registry| && registry[k].ps == ps && forall j :: 0 <= j < k ==> registry[j].ps != ps)
      ==> name == registry[k].name
  {
    match FindCoach(registry, ps)
    case None => ""
    case Some(k) => registry[k].name
  }

  /** One row per card. `clock(k)` is the time `new Date().toISOString()` gave while mapping card k. */
  function BuildPayload(f: Form, registry: seq<Coach>, clock: nat -> string): (rows: seq<Record>)
    ensures |rows| == |f.schedules|
    ensures forall k :: 0 <= k < |rows| ==>
      && rows[k].timestamp == clock(k)
      && rows[k].userId == f.coach
      && rows[k].userName == CoachName(registry, f.coach)
      && rows[k].location == f.base
  {
    seq(|f.schedules|, k requires 0 <= k < |f.schedules| =>
      Record(clock(k), f.coach, CoachName(registry, f.coach), f.base,
             FieldText(f.schedules[k].dayIn), FieldText(f.schedules[k].dayOut)))
  }

  /** The schedule a list of rows describes, read back from their date texts. */
  function ScheduleOf(rows: seq<Record>): (es: seq<Entry>)
    ensures |es| == |rows|
  {
    seq(|rows|, k requires 0 <= k < |rows| =>
      Entry(ParseField(rows[k].scheduleIn), ParseField(rows[k].scheduleOut)))
  }

  /**
    The rows carry the cards' dates in list order: reading them back gives
    the schedule, and a row's date text is `''` exactly for an empty field.
  */
  lemma PayloadPreservesSchedule(f: Form, registry: seq<Coach>, clock: nat -> string)
    ensures ScheduleOf(BuildPayload(f, registry, clock)) == f.schedules
    ensures forall k :: 0 <= k < |f.schedules| ==>
      && (BuildPayload(f, registry, clock)[k].scheduleIn == "" <==> f.schedules[k].dayIn.None?)
      && (BuildPayload(f, registry, clock)[k].scheduleOut == "" <==> f.schedules[k].dayOut.None?)
  {
    var rows := BuildPayload(f, registry, clock);
    forall k | 0 <= k < |rows|
      ensures ScheduleOf(rows)[k] == f.schedules[k]
    {
      FieldRoundTrip(f.schedules[k].dayIn);
      FieldRoundTrip(f.schedules[k].dayOut);
    }
  }

  /** What a submitted batch of rows satisfies: rows exist, all for one coach and base, with a well-formed schedule. */
  predicate WellFormedPayload(rows: seq<Record>) {
    && |rows| >= 1
    && (forall k :: 0 <= k < |rows| ==> rows[k].userId == rows[0].userId && rows[k].location == rows[0].location)
    && rows[0].userId != ""
    && rows[0].location != ""
    && WellFormedSchedule(ScheduleOf(rows))
  }

  /** A form `handleSubmit` lets through yields a well-formed payload. */
  lemma SubmittablePayloadIsWellFormed(f: Form, registry: seq<Coach>, clock: nat -> string)
    requires Submittable(f) && |f.schedules| >= 1
    ensures WellFormedPayload(BuildPayload(f, registry, clock))
  {
    SubmittableIffWellFormed(f);
    PayloadPreservesSchedule(f, registry, clock);
  }
}
