/** Calendar dates and minute-resolution date-times as the parser and the storage
    codec read and write them: the ISO 8601 calendar date in its complete extended
    form YYYY-MM-DD (section 4.1.2.2 of ISO 8601:2004), and that date followed by a
    space and a four-digit hour-minute HHMM. Parsing is fixed-width over ASCII digits. */
module Dates {
  import opened Wrappers
  import opened JavaText

  datatype Date = Date(year: int, month: int, day: int)

  datatype DateTime = DateTime(date: Date, hour: int, minute: int)

  /** Leap years of the proleptic Gregorian calendar. */
  predicate IsLeapYear(year: int) {
    year % 4 == 0 && (year % 100 != 0 || year % 400 == 0)
  }

  function DaysInMonth(year: int, month: int): int {
    if month == 2 then (if IsLeapYear(year) then 29 else 28)
    else if month == 4 || month == 6 || month == 9 || month == 11 then 30
    else 31
  }

  /** A real day with a four-digit year. */
  predicate ValidDate(d: Date) {
    0 <= d.year <= 9999 && 1 <= d.month <= 12 && 1 <= d.day <= DaysInMonth(d.year, d.month)
  }

  predicate ValidDateTime(t: DateTime) {
    ValidDate(t.date) && 0 <= t.hour <= 23 && 0 <= t.minute <= 59
  }

  /** What a LocalDate can hold, within the four-digit years. */
  type CalendarDate = d: Date | ValidDate(d) witness Date(1970, 1, 1)

  /** What a LocalDateTime of minute resolution can hold, within the four-digit years. */
  type Moment = t: DateTime | ValidDateTime(t) witness DateTime(Date(1970, 1, 1), 0, 0)

  /** LocalDate.toString(): YYYY-MM-DD. */
  function FormatDate(d: CalendarDate): (r: string)
    ensures |r| == 10 && r[4] == '-' && r[7] == '-'
    ensures AllDigits(r[..4]) && AllDigits(r[5..7]) && AllDigits(r[8..])
  {
    Digits(d.year, 4) + "-" + Digits(d.month, 2) + "-" + Digits(d.day, 2)
  }

  /** The pattern yyyy-MM-dd HHmm: the date, a space, then hour and minute in four digits. */
  function FormatMoment(t: Moment): (r: string)
    ensures |r| == 15 && r[..10] == FormatDate(t.date) && r[10] == ' ' && AllDigits(r[11..])
  {
    FormatDate(t.date) + " " + Digits(t.hour, 2) + Digits(t.minute, 2)
  }

  /** LocalDate.parse(s): exactly ten characters YYYY-MM-DD naming a real day. */
  function ParseDate(s: string): (r: Option<CalendarDate>)
    ensures r.Some? ==> |s| == 10 && s[4] == '-' && s[7] == '-' && AllDigits(s[..4]) && AllDigits(s[5..7]) && AllDigits(s[8..])
    ensures r.Some? ==> r.value == Date(DigitsValue(s[..4]), DigitsValue(s[5..7]), DigitsValue(s[8..]))
  {
    if |s| == 10 && s[4] == '-' && s[7] == '-' && AllDigits(s[..4]) && AllDigits(s[5..7]) && AllDigits(s[8..]) then
      var d := Date(DigitsValue(s[..4]), DigitsValue(s[5..7]), DigitsValue(s[8..]));
      if ValidDate(d) then Some(d) else None
    else None
  }

  /** LocalDateTime.parse(s, "yyyy-MM-dd HHmm"): a date, one space, then a valid
      hour and minute in four digits. */
  function ParseMoment(s: string): Option<Moment>
  {
    if |s| == 15 && s[10] == ' ' && AllDigits(s[11..13]) && AllDigits(s[13..]) then
      match ParseDate(s[..10])
      case None => None
      case Some(d) =>
        var t := DateTime(d, DigitsValue(s[11..13]), DigitsValue(s[13..]));
        if ValidDateTime(t) then Some(t) else None
    else None
  }

  /** Where a date-time is read from: the date from the first ten characters, the
      hour and minute from the four digits after the space. */
  lemma ParseMomentReads(s: string)
    requires ParseMoment(s).Some?
    ensures |s| == 15 && s[10] == ' ' && ParseDate(s[..10]) == Some(ParseMoment(s).value.date)
    ensures AllDigits(s[11..13]) && ParseMoment(s).value.hour == DigitsValue(s[11..13])
    ensures AllDigits(s[13..]) && ParseMoment(s).value.minute == DigitsValue(s[13..])
  {
  }

  /** A parsed date prints back as the very text it came from, so a text that
      parses is ten characters in the YYYY-MM-DD shape. */
  lemma FormatParseDate(s: string)
    requires ParseDate(s).Some?
    ensures FormatDate(ParseDate(s).value) == s
  {
    DigitsOfDigitsValue(s[..4]);
    DigitsOfDigitsValue(s[5..7]);
    DigitsOfDigitsValue(s[8..]);
    assert s == s[..4] + "-" + s[5..7] + "-" + s[8..];
  }

  /** A parsed date-time prints back as the very text it came from. */
  lemma FormatParseMoment(s: string)
    requires ParseMoment(s).Some?
    ensures FormatMoment(ParseMoment(s).value) == s
  {
    FormatParseDate(s[..10]);
    DigitsOfDigitsValue(s[11..13]);
    DigitsOfDigitsValue(s[13..]);
    assert s == s[..10] + " " + s[11..13] + s[13..];
  }

  /** Reading a printed date gives the date back. */
  lemma ParseFormatDate(d: CalendarDate)
    ensures ParseDate(FormatDate(d)) == Some(d)
  {
    var s := FormatDate(d);
    assert s[..4] == Digits(d.year, 4);
    assert s[5..7] == Digits(d.month, 2);
    assert s[8..] == Digits(d.day, 2);
    DigitsValueOfDigits(d.year, 4);
    DigitsValueOfDigits(d.month, 2);
    DigitsValueOfDigits(d.day, 2);
  }

  /** Reading a printed date-time gives the date-time back. */
  lemma ParseFormatMoment(t: Moment)
    ensures ParseMoment(FormatMoment(t)) == Some(t)
  {
    var s := FormatMoment(t);
    ParseFormatDate(t.date);
    assert s[11..13] == Digits(t.hour, 2);
    assert s[13..] == Digits(t.minute, 2);
    DigitsValueOfDigits(t.hour, 2);
    DigitsValueOfDigits(t.minute, 2);
  }

  /** Every character of a printed date is a digit or '-'; it starts and ends with a digit. */
  lemma DateTextChars(d: CalendarDate)
    ensures forall i :: 0 <= i < |FormatDate(d)| ==> IsDigit(FormatDate(d)[i]) || FormatDate(d)[i] == '-'
    ensures IsDigit(FormatDate(d)[0]) && IsDigit(FormatDate(d)[9])
  {
    var a := FormatDate(d);
    forall i | 0 <= i < |a| ensures IsDigit(a[i]) || a[i] == '-' {
      if i < 4 { assert a[..4][i] == a[i]; }
      else if 4 < i < 7 { assert a[5..7][i - 5] == a[i]; }
      else if 7 < i { assert a[8..][i - 8] == a[i]; }
    }
    assert a[0] == a[..4][0] && a[9] == a[8..][1];
  }

  /** Every character of a printed date-time is a digit, '-' or the one space; it
      starts and ends with a digit. */
  lemma MomentTextChars(t: Moment)
    ensures forall i :: 0 <= i < |FormatMoment(t)| ==> IsDigit(FormatMoment(t)[i]) || FormatMoment(t)[i] == '-' || FormatMoment(t)[i] == ' '
    ensures IsDigit(FormatMoment(t)[0]) && IsDigit(FormatMoment(t)[14])
  {
    var b := FormatMoment(t);
    DateTextChars(t.date);
    forall i | 0 <= i < |b| ensures IsDigit(b[i]) || b[i] == '-' || b[i] == ' ' {
      if i < 10 { assert b[..10][i] == b[i]; }
      else if i > 10 { assert b[11..][i - 11] == b[i]; }
    }
    assert b[0] == b[..10][0];
    assert b[14] == b[11..][3];
  }

  /** Neither printed form contains a character that the line formats treat specially. */
  lemma FormatsAreFields(d: CalendarDate, t: Moment)
    ensures IsField(FormatDate(d)) && IsField(FormatMoment(t))
  {
    DateTextChars(d);
    MomentTextChars(t);
    var a := FormatDate(d);
    var b := FormatMoment(t);
    forall i | 0 <= i < |a| ensures a[i] != '|' { }
    forall i | 0 <= i < |b| ensures b[i] != '|' { }
  }

  /** LocalDate.isAfter, reversed: a is strictly earlier than b. */
  predicate DateBefore(a: Date, b: Date) {
    a.year < b.year || (a.year == b.year && (a.month < b.month || (a.month == b.month && a.day < b.day)))
  }

  /** b.isAfter(a) for LocalDateTime: a is strictly earlier than b, comparing the
      date first and then the time of day. */
  predicate Before(a: DateTime, b: DateTime)
    ensures Before(a, b) ==> a != b && !DateBefore(b.date, a.date)
    ensures a.date != b.date ==> (Before(a, b) <==> DateBefore(a.date, b.date))
  {
    DateBefore(a.date, b.date) || (a.date == b.date && (a.hour < b.hour || (a.hour == b.hour && a.minute < b.minute)))
  }

  /** "Strictly after" is a strict total order on moments: irreflexive, transitive,
      and any two distinct moments are ordered one way or the other. */
  lemma BeforeIsStrictTotalOrder(a: DateTime, b: DateTime, c: DateTime)
    ensures !Before(a, a)
    ensures Before(a, b) && Before(b, c) ==> Before(a, c)
    ensures a != b ==> Before(a, b) || Before(b, a)
    ensures Before(a, b) ==> !Before(b, a)
  {
  }
}
