/**
  Concrete sessions of the schedule form: a plain submission, back-to-back
  entries, a reversed range and a rejected reply.
*/
module Scenarios {
  import opened Wrappers
  import opened Dates
  import opened DateText
  import opened Entries
  import opened Validation
  import opened Payload
  import Submission

  const June1: Date := Ymd(2025, 6, 1)
  const June5: Date := Ymd(2025, 6, 5)
  const June10: Date := Ymd(2025, 6, 10)

  /** One entry from 1 to 5 June passes every rule and is sent as one row with its ISO dates. */
  lemma SingleEntrySubmits(registry: seq<Coach>, clock: nat -> string)
    ensures var f := Form("P123", "Base X", [Entry(Some(June1), Some(June5))]);
      && Submittable(f)
      && var rows := BuildPayload(f, registry, clock);
      && |rows| == 1
      && rows[0].userId == "P123" && rows[0].location == "Base X"
      && rows[0].scheduleIn == "2025-06-01" && rows[0].scheduleOut == "2025-06-05"
  {
    var f := Form("P123", "Base X", [Entry(Some(June1), Some(June5))]);
    ChronologicalIsLexicographic(June1, June5);
    SubmittableIffWellFormed(f);
    JuneText();
  }

  lemma YearText()
    ensures Digits.Fixed(2025, 4) == "2025"
  {
    assert Digits.Fixed(2, 1) == "2" by { assert Digits.DigitChar(2) == '2'; }
    assert Digits.Fixed(20, 2) == "20" by { assert Digits.DigitChar(0) == '0'; }
    assert Digits.Fixed(202, 3) == "202" by { assert Digits.DigitChar(2) == '2'; }
    assert Digits.DigitChar(5) == '5';
  }

  lemma PaddedText()
    ensures Digits.Fixed(6, 2) == "06" && Digits.Fixed(1, 2) == "01" && Digits.Fixed(5, 2) == "05"
  {
    assert Digits.Fixed(0, 1) == "0";
    assert Digits.DigitChar(6) == '6';
    assert Digits.DigitChar(1) == '1';
    assert Digits.DigitChar(5) == '5';
  }

  lemma JuneText()
    ensures IsoText(June1) == "2025-06-01" && IsoText(June5) == "2025-06-05"
  {
    YearText();
    PaddedText();
  }

  /**
    Entries 1-5 June and 5-10 June share 5 June: each one's inputs report
    the other, the message names entry 1 for the second card, and the form
    cannot be submitted.
  */
  lemma BackToBackEntriesOverlap(coach: string, base: string)
    ensures var es := [Entry(Some(June1), Some(June5)), Entry(Some(June5), Some(June10))];
      && DayInError(es, 1) == Some(OverlapsEntry(1))
      && DayOutError(es, 1) == Some(OverlapsEntry(1))
      && DayInError(es, 0) == Some(OverlapsEntry(2))
      && Message(OverlapsEntry(1)) == "Dates overlap with entry 1"
      && !Submittable(Form(coach, base, es))
  {
    var es := [Entry(Some(June1), Some(June5)), Entry(Some(June5), Some(June10))];
    ChronologicalIsLexicographic(June1, June5);
    ChronologicalIsLexicographic(June5, June10);
    ChronologicalIsLexicographic(June1, June10);
    assert ConflictsAt(es, 1, 0);
    assert ConflictsAt(es, 0, 1);
  }

  /** Day Out before Day In: Day Out says so, and no overlap is looked for. */
  lemma ReversedRangeRejected(others: seq<Entry>)
    ensures var es := [Entry(Some(June10), Some(June1))] + others;
      && DayOutError(es, 0) == Some(DayOutNotAfterDayIn)
      && Message(DayOutError(es, 0).value) == "Day Out must be after Day In"
      && DayInError(es, 0).None?
      && OverlapError(es, 0).None?
  {
    ChronologicalIsLexicographic(June10, June1);
    ChronologicalIsLexicographic(June1, June10);
  }

  /** `{ ok: false, error: "quota exceeded" }` ends the request with the generic alert and no success. */
  lemma RejectedReply(payload: seq<Record>)
    ensures var sent := Submission.Step(Submission.Idle, Submission.Start(payload)).next;
      var t := Submission.Step(sent, Submission.Settle(Submission.Reply(false, Some("quota exceeded"))));
      && !t.next.isSubmitting
      && !t.next.submitSuccess
      && t.next.submittedData.None?
      && t.alert == Some(Submission.GenericAlert)
  {
  }
}
