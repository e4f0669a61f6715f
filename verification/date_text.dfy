/**
  Date text: the `"YYYY-MM-DD"` value of a date input, and the
  `dd-mon-yyyy` text the submission preview shows (`formatDisplayDate`,
  src/App.jsx:17-24).
*/
module DateText {
  import opened Wrappers
  import opened Dates
  import opened Digits

  /** The value a date input holds for d. */
  function IsoText(d: Date): (s: string)
    ensures |s| == 10
  {
    Fixed(d.year, 4) + "-" + Fixed(d.month, 2) + "-" + Fixed(d.day, 2)
  }

  /** Reads `"YYYY-MM-DD"`; anything else, or a day the calendar lacks, is `None`. */
  function ParseIso(s: string): Option<Date> {
    if |s| == 10 && s[4] == '-' && s[7] == '-'
       && AllDigits(s[..4]) && AllDigits(s[5..7]) && AllDigits(s[8..])
    then
      var t := Ymd(Value(s[..4]), Value(s[5..7]), Value(s[8..]));
      if IsCalendarDate(t) then Some(t) else None
    else
      None
  }

  /** A form field's text: the empty string for an empty field. */
  function FieldText(o: Option<Date>): string {
    match o
    case None => ""
    case Some(d) => IsoText(d)
  }

  /** Reads a form field's text back; the empty string is an empty field. */
  function ParseField(s: string): Option<Date> {
    if s == "" then None else ParseIso(s)
  }

  lemma IsoRoundTrip(d: Date)
    ensures ParseIso(IsoText(d)) == Some(d)
  {
    var s := IsoText(d);
    assert s[..4] == Fixed(d.year, 4);
    assert s[5..7] == Fixed(d.month, 2);
    assert s[8..] == Fixed(d.day, 2);
    FixedRoundTrip(d.year, 4);
    FixedRoundTrip(d.month, 2);
    FixedRoundTrip(d.day, 2);
  }

  /** The parser accepts only the exact text IsoText produces. */
  lemma IsoCanonical(s: string)
    requires ParseIso(s).Some?
    ensures IsoText(ParseIso(s).value) == s
  {
    ValueRoundTrip(s[..4]);
    ValueRoundTrip(s[5..7]);
    ValueRoundTrip(s[8..]);
    assert s == s[..4] + "-" + s[5..7] + "-" + s[8..];
  }

  /** Field text and field value determine each other. */
  lemma FieldRoundTrip(o: Option<Date>)
    ensures ParseField(FieldText(o)) == o
    ensures FieldText(o) == "" <==> o.None?
  {
    if o.Some? {
      IsoRoundTrip(o.value);
    }
  }

  /** Lowercase three-letter month names, January first. */
  const MonthAbbrevs: seq<string> :=
    ["jan", "feb", "mar", "apr", "may", "jun", "jul", "aug", "sep", "oct", "nov", "dec"]

  function MonthAbbrev(m: int): string
    requires 1 <= m <= 12
  {
    MonthAbbrevs[m - 1]
  }

  /** The 1-based position of the first name in `names` equal to `abbr`. */
  function MonthNumber(names: seq<string>, abbr: string): (r: Option<int>)
    ensures r.Some? ==> 1 <= r.value <= |names| && names[r.value - 1] == abbr
    ensures r.Some? ==> forall k :: 0 <= k < r.value - 1 ==> names[k] != abbr
    ensures r.None? <==> abbr !in names
  {
    if |names| == 0 then None
    else if names[0] == abbr then Some(1)
    else match MonthNumber(names[1..], abbr)
      case None => None
      case Some(k) => Some(k + 1)
  }

  lemma MonthAbbrevsDistinct()
    ensures forall i, j :: 0 <= i < j < |MonthAbbrevs| ==> MonthAbbrevs[i] != MonthAbbrevs[j]
  {
  }

  lemma MonthNumberOfAbbrev(m: int)
    requires 1 <= m <= 12
    ensures MonthNumber(MonthAbbrevs, MonthAbbrev(m)) == Some(m)
  {
    MonthAbbrevsDistinct();
  }

  /** The `dd-mon-yyyy` text of d, given its four-digit year text, reads back as d. */
  lemma DisplayTextParses(d: Date)
    ensures ParseDisplay(Fixed(d.day, 2) + "-" + MonthAbbrev(d.month) + "-" + Fixed(d.year, 4)) == Some(d)
  {
    var t := Fixed(d.day, 2) + "-" + MonthAbbrev(d.month) + "-" + Fixed(d.year, 4);
    assert t[..2] == Fixed(d.day, 2);
    assert t[3..6] == MonthAbbrev(d.month);
    assert t[7..] == Fixed(d.year, 4);
    FixedRoundTrip(d.day, 2);
    FixedRoundTrip(d.year, 4);
    MonthNumberOfAbbrev(d.month);
  }

  /**
    `formatDisplayDate`: `N/A` for an empty value; otherwise the two-digit
    day, the month name and the year exactly as the text wrote it, which
    reads back as the same date.
  */
  function FormatDisplayDate(s: string): (r: string)
    requires s == "" || ParseIso(s).Some?
    ensures s == "" <==> r == "N/A"
    ensures s != "" ==> |r| == 11 && r[2] == '-' && r[6] == '-' && r[7..] == s[..4]
    ensures s != "" ==> ParseDisplay(r) == ParseIso(s)
  {
    if s == "" then "N/A"
    else
      var d := ParseIso(s).value;
      IsoCanonical(s);
      assert s[..4] == Fixed(d.year, 4);
      DisplayTextParses(d);
      Fixed(d.day, 2) + "-" + MonthAbbrev(d.month) + "-" + s[..4]
  }

  /** Reads `dd-mon-yyyy` text back into a date. */
  function ParseDisplay(t: string): Option<Date> {
    if |t| == 11 && t[2] == '-' && t[6] == '-' && AllDigits(t[..2]) && AllDigits(t[7..]) then
      match MonthNumber(MonthAbbrevs, t[3..6])
      case None => None
      case Some(m) =>
        var y := Ymd(Value(t[7..]), m, Value(t[..2]));
        if IsCalendarDate(y) then Some(y) else None
    else
      None
  }

  /** The preview loses nothing: the displayed text names exactly the submitted day. */
  lemma DisplayRoundTrip(d: Date)
    ensures ParseIso(IsoText(d)).Some?
    ensures ParseDisplay(FormatDisplayDate(IsoText(d))) == Some(d)
    ensures ParseDisplay(FormatDisplayDate("")) == None
  {
    IsoRoundTrip(d);
  }
}
