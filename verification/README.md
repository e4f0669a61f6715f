# Island schedule form — a Dafny model

This project models the logic of the island schedule form in `src/App.jsx`.
A National Guard coach uses the form to pick their PS identity and a base.
They then enter one or more weekly Day In / Day Out ranges and submit the
rows to a spreadsheet webhook. The model covers five things:

- the schedule list: one blank card to start with, "Add another schedule", and a remove button that only exists while there are two or more cards;
- the per-field rules react-hook-form checks: `required`, `afterDayIn` and `noOverlap`, each field reporting its first failing rule;
- the chronological order the rules use when they compare `new Date("YYYY-MM-DD")` values;
- the rows `onSubmit` builds, one per card, with the coach's name looked up in the registry;
- the submit status (`isSubmitting`, `submitSuccess`, `submittedData`) and how the server's answer and the 3-second reset timer change it;

plus `formatDisplayDate`, which the preview card uses to show each submitted date as `dd-mon-yyyy`.

Modules, leaves first:

| file | module | contents |
|---|---|---|
| wrappers.dfy | `Wrappers` | `Option` |
| dates.dfy | `Dates` | calendar dates (years 1–9999), day numbers, `<` / `<=` on dates |
| digits.dfy | `Digits` | zero-padded and plain decimal text, and reading it back |
| date_text.dfy | `DateText` | the `YYYY-MM-DD` value of a date input, `formatDisplayDate` |
| entries.dfy | `Entries` | form values, `append`, `remove`, input edits |
| validation.dfy | `Validation` | `required`, `afterDayIn`, `noOverlap`, error messages, what `handleSubmit` lets through |
| payload.dfy | `Payload` | registry lookup, the submitted rows |
| submission.dfy | `Submission` | the submit status machine |
| session.dfy | `Session` | form plus status, and the invariant of a whole session |
| scenarios.dfy | `Scenarios` | concrete sessions: one entry, back-to-back entries, a reversed range, a rejected reply |

Dates are `Ymd` triples restricted to real calendar days. An empty date input is `None`.
`new Date("YYYY-MM-DD")` is midnight UTC of that day, so comparing two such values compares their day numbers (days since 0001-01-01).
`Dates.ChronologicalIsLexicographic` shows that this order is the lexicographic order of the triples.

The registry (`COACHES`) and the clock are parameters. The request is an outcome handed to the status machine: a network error, a body that is not JSON, or a JSON reply with its `ok` flag.
The reset timer is an explicit `TimerExpired` event.

## Model

| member | source | states |
|---|---|---|
| Dates.ChronologicalIsLexicographic | src/App.jsx:198-211 | comparing Date objects of well-formed dates with `<` is lexicographic order of (year, month, day); `<=` adds equality; equal day numbers mean the same date |
| DateText.IsoRoundTrip | src/App.jsx:191-193 | the text a date input holds for a date reads back as that date |
| DateText.IsoCanonical | src/App.jsx:56-57 | the reader accepts only the exact `YYYY-MM-DD` text of the date it returns, so dates and their row texts correspond one to one |
| DateText.FieldRoundTrip | src/App.jsx:31 | a field's text is `''` exactly when the field is empty, and reading the text back gives the field's value |
| DateText.FormatDisplayDate | src/App.jsx:17-24 | `N/A` exactly for the empty string; otherwise 11 characters: two-digit day, `-`, lowercase month name, `-`, and the year exactly as the input wrote it, the whole text reading back as the same date the input held |
| DateText.DisplayRoundTrip | src/App.jsx:17-24 | the displayed `dd-mon-yyyy` text names exactly the submitted day (zero-padded day, lowercase month name, year); `N/A` names no day |
| Entries.Append | src/App.jsx:280 | one card more, the existing cards unchanged and in place, the new last card blank |
| Entries.Remove | src/App.jsx:176-179 | with two or more cards, exactly card `index` is gone and the others keep their order; with one card nothing changes |
| Entries.Apply | src/App.jsx:118-280 | no action empties a non-empty list; adding appends a blank card and leaves both selections; removing removes exactly the chosen card (when the button exists); a Day In or Day Out edit sets that field of that card only; a selection sets only the coach or the base; an action on a card that does not exist changes nothing |
| Entries.ReplayKeepsAnEntry | src/App.jsx:28-38 | from the default values, every sequence of actions leaves between one card and one plus the number of adds |
| Entries.ReplayWithoutRemoves | src/App.jsx:280 | without removals, the list holds exactly the default card plus one per add |
| Validation.IntersectsIffSharedDay | src/App.jsx:209-211 | the overlap condition `start <= otherEnd && otherStart <= end` holds exactly when the two closed ranges share a calendar day; it is symmetric; back-to-back ranges overlap |
| Validation.FirstConflict | src/App.jsx:202-216 | the scan from position i returns the 1-based number of the first position at or after i that conflicts, with none between i and it, or nothing exactly when no position from there on conflicts |
| Validation.OverlapError | src/App.jsx:196-218 | nothing when the entry's own range is incomplete or not increasing; otherwise the 1-based number of the first other valid entry whose range meets it, never the entry itself, and nothing exactly when there is none |
| Validation.NoOverlap | src/App.jsx:244-264 | the validator's guard clauses and `for` loop with `continue`, written out step by step, return exactly what `OverlapError` characterises; the Day In copy (src/App.jsx:196-218) is the same text |
| Validation.MessageRoundTrip | src/App.jsx:193-266 | every error message reads back as the error that produced it, so different errors show different messages and an overlap message names one entry |
| Validation.AfterDayInAcceptsValid | src/App.jsx:235-243 | `afterDayIn` rejects exactly when both dates are set and Day Out is not after Day In, i.e. not lexicographically later |
| Validation.DayInError | src/App.jsx:193-220 | `Day In is required` exactly when Day In is empty; otherwise the `noOverlap` error naming the first conflicting entry when another valid entry overlaps, and no error exactly when none does |
| Validation.DayOutError | src/App.jsx:232-266 | `required` first, then `afterDayIn` (exactly when both are set and the range is not increasing), then, for a valid range that another valid entry meets, the `noOverlap` error naming the first conflicting entry; no error exactly when all three pass |
| Validation.Required | src/App.jsx:121-146 | the `required` rule of either selection, coach (line 121) or base (line 146), reports its message exactly when nothing is selected |
| Validation.SubmittableIffWellFormed | src/App.jsx:193-266 | all field rules pass exactly when coach and base are chosen, every entry is complete with Day Out after Day In, and no two entries share a day |
| Payload.FindCoach | src/App.jsx:50 | `COACHES.find` by PS: the position of the first entry with that PS, or nothing exactly when no entry has it |
| Payload.CoachName | src/App.jsx:50-54 | the rows' `userName` is the name of the first registry entry with the selected PS, or `''` when there is none |
| Payload.BuildPayload | src/App.jsx:49-59 | one row per card; row k carries the k-th clock reading, the selected coach as `userId`, the looked-up name and the base |
| Payload.PayloadPreservesSchedule | src/App.jsx:56-57 | reading the rows' `scheduleIn` / `scheduleOut` back gives the cards' dates in list order, and a row's date text is `''` exactly for an empty field |
| Payload.SubmittablePayloadIsWellFormed | src/App.jsx:44-59 | a form `handleSubmit` lets through yields a non-empty batch for one coach and base whose ranges are increasing and pairwise disjoint |
| Submission.Step | src/App.jsx:44-91 | start sets `isSubmitting` unless already set; success clears it, sets `submitSuccess` and `submittedData` to the sent rows; any failure, `ok == false` included, clears it, keeps the rest and raises the fixed alert; timer expiry clears only `submitSuccess` |
| Submission.RunConsistent | src/App.jsx:40-42 | in every run the button is disabled exactly while a request is awaited, and the success state is only set while a reset timer is pending |
| Submission.FailureAlertIgnoresServerText | src/App.jsx:74-89 | two failing replies, whatever their `error` text, lead to the same status and the same alert |
| Session.Step | src/App.jsx:109 | an edit applies its action to the form and leaves the status; only edits change the form (a failed submission keeps it); submitting needs a form that passes every rule and no request awaited, then sets `isSubmitting` and sends the rows built from the form; replies and timer expiry change the status as `Submission.Step` does |
| Session.RunKeepsInvariant | src/App.jsx:317-339 | in every session the form has a card, the status is consistent, and every payload sent or shown as submitted is a well-formed batch |
| Scenarios.SingleEntrySubmits | src/App.jsx:49-59 | coach P123, base "Base X", 1–5 June 2025 passes every rule and becomes one row with `2025-06-01` / `2025-06-05` |
| Scenarios.BackToBackEntriesOverlap | src/App.jsx:209-212 | 1–5 June and 5–10 June: the second card reports "Dates overlap with entry 1", the first reports entry 2, and the form cannot be submitted |
| Scenarios.ReversedRangeRejected | src/App.jsx:235-248 | Day In 10 June, Day Out 1 June: Day Out reports "Day Out must be after Day In" and no overlap is looked for |
| Scenarios.RejectedReply | src/App.jsx:74-89 | a reply `{ ok: false, error: "quota exceeded" }` ends the request with the generic alert and no success |

Two things the code does that the model keeps:

- On failure the user sees only the fixed alert "An error occurred while submitting. …". The server's `error` text goes into the thrown `Error`, which is only logged (src/App.jsx:74-89).
- `new Date().toISOString()` is called once per row inside the `map` (src/App.jsx:52). The model takes one clock reading per row and does not claim that they are equal.

And two consequences of how the status is kept:

- Starting a new submission within 3 seconds of a success does not clear `submitSuccess`, so both flags can be set at once.
- Every success schedules its own reset timer. An earlier timer therefore also clears the success state of a later submission.

## Left out

- src/components/CustomSelect.jsx and src/components/CustomDateRangePicker.jsx: presentation widgets. A selection is modelled as the string it sets.
- The `./constants` module imported at src/App.jsx:4 is not part of this model: the coach registry is a parameter, and the list of bases only feeds the dropdown.
- The `fetch` call, `response.json()`, the configured URL, `console.log` / `console.error` and `alert`: I/O. They are reduced to a `Response` outcome and an alert text.
- The message of the thrown `Error` (`result.error || 'Failed to submit data'`): it is only logged, so no state depends on it.
- The 3000 ms of `setTimeout`: wall-clock time. Expiry is an explicit event, enabled while a timer is pending.
- The `timestamp` text: `new Date().toISOString()` is a clock reading, passed in as `clock: nat -> string`.
- react-hook-form internals: validation timing (on submit, then on change), field ids and re-renders. Errors are pure functions of the current values.
- Dates outside years 1–9999. A date input without `max` also accepts years of five or more digits (text such as `10000-01-01`); the model leaves those years out. JavaScript's `Date` normalisation of text that is not a real day is not modelled either.
- DateText.FormatDisplayDate: requires `''` or a `YYYY-MM-DD` text with a four-digit year. Five-digit-year text, which the input can hold and which the code formats as e.g. `01-jan-10000`, is left out with those years; malformed text cannot come from a date input.
- The JSX, styling, the header and the logo SVG.
