/** Calendar dates as the schedule screens use them: the `yyyy-MM-dd` text
    that date-fns `format` writes and `parseISO` reads, the day-by-day order
    behind `isBefore`, and `startOfMonth`. Dates are local calendar days; the
    time of day never matters to the screens modelled here. */
module Calendar {
  import opened Wrappers
  import opened Text

  datatype Date = Date(year: nat, month: nat, day: nat)

  /** The Gregorian leap-year rule. */
  predicate IsLeapYear(y: nat) {
    y % 4 == 0 && (y % 100 != 0 || y % 400 == 0)
  }

  function DaysInMonth(y: nat, m: nat): (n: nat)
    requires 1 <= m <= 12
    ensures 28 <= n <= 31
    ensures n == 29 <==> m == 2 && IsLeapYear(y)
    ensures n == 30 <==> m in {4, 6, 9, 11}
  {
    if m == 2 then (if IsLeapYear(y) then 29 else 28)
    else if m in {4, 6, 9, 11} then 30
    else 31
  }

  /** A day of a real month with a four-digit year. */
  predicate ValidDate(d: Date) {
    d.year <= 9999 && 1 <= d.month <= 12 && 1 <= d.day <= DaysInMonth(d.year, d.month)
  }

  /** `format(date, "yyyy-MM-dd")`. */
  function FormatIsoDate(d: Date): (s: string)
    ensures ValidDate(d) ==>
              |s| == 10 && s[4] == '-' && s[7] == '-'
              && AllDigits(s[..4]) && AllDigits(s[5..7]) && AllDigits(s[8..])
  {
    if ValidDate(d) then
      NatToDecimalLength(d.year, 4);
      NatToDecimalLength(d.month, 2);
      NatToDecimalLength(d.day, 2);
      var y, m, dd := PadDecimal(d.year, 4), PadDecimal(d.month, 2), PadDecimal(d.day, 2);
      var s := y + "-" + m + "-" + dd;
      assert s[..4] == y && s[5..7] == m && s[8..] == dd;
      s
    else
      PadDecimal(d.year, 4) + "-" + PadDecimal(d.month, 2) + "-" + PadDecimal(d.day, 2)
  }

  /** `parseISO` on a calendar-date string: None is the invalid date it returns
      for text of another shape or a day that does not exist. */
  function ParseIsoDate(s: string): (r: Option<Date>)
    ensures r.Some? ==> ValidDate(r.value)
    ensures r.Some? ==> |s| == 10 && s[4] == '-' && s[7] == '-'
  {
    if |s| == 10 && s[4] == '-' && s[7] == '-'
       && AllDigits(s[..4]) && AllDigits(s[5..7]) && AllDigits(s[8..])
    then
      var d := Date(DecimalValue(s[..4]), DecimalValue(s[5..7]), DecimalValue(s[8..]));
      DecimalValueBound(s[..4]);
      if ValidDate(d) then Some(d) else None
    else None
  }

  /** Reading back a written date gives the date. */
  lemma ParseFormatRoundTrip(d: Date)
    ensures ValidDate(d) ==> ParseIsoDate(FormatIsoDate(d)) == Some(d)
  {
    if ValidDate(d) {
      var s := FormatIsoDate(d);
      NatToDecimalLength(d.year, 4);
      NatToDecimalLength(d.month, 2);
      NatToDecimalLength(d.day, 2);
      assert s[..4] == PadDecimal(d.year, 4);
      assert s[5..7] == PadDecimal(d.month, 2);
      assert s[8..] == PadDecimal(d.day, 2);
      PadDecimalValue(d.year, 4);
      PadDecimalValue(d.month, 2);
      PadDecimalValue(d.day, 2);
    }
  }

  /** Every string that parses is the one `format` writes for its date, so
      the two are inverse bijections between valid dates and their text. */
  lemma FormatParseRoundTrip(s: string)
    requires ParseIsoDate(s).Some?
    ensures FormatIsoDate(ParseIsoDate(s).value) == s
  {
    var d := ParseIsoDate(s).value;
    PadDecimalOfValue(s[..4]);
    PadDecimalOfValue(s[5..7]);
    PadDecimalOfValue(s[8..]);
    assert s == s[..4] + "-" + s[5..7] + "-" + s[8..];
  }

  /** `isBefore` on two local midnights: an earlier calendar day. */
  predicate Before(a: Date, b: Date) {
    a.year < b.year
    || (a.year == b.year && a.month < b.month)
    || (a.year == b.year && a.month == b.month && a.day < b.day)
  }

  /** `startOfMonth`. */
  function StartOfMonth(d: Date): (r: Date)
    ensures ValidDate(d) ==> ValidDate(r)
    ensures r.year == d.year && r.month == d.month && r.day == 1
    ensures d.day >= 1 ==> !Before(d, r)
  {
    d.(day := 1)
  }

  /** The day before the first of `d`'s month. */
  function LastOfPreviousMonth(d: Date): (r: Date)
    requires ValidDate(d) && (d.year >= 1 || d.month >= 2)
    ensures ValidDate(r) && Before(r, StartOfMonth(d))
    ensures forall x :: ValidDate(x) && Before(r, x) ==> !Before(x, StartOfMonth(d))
  {
    if d.month == 1 then Date(d.year - 1, 12, 31)
    else Date(d.year, d.month - 1, DaysInMonth(d.year, d.month - 1))
  }
}
