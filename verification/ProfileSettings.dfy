/**
 * Profile settings: the day/month/two-digit-year date of birth, its conversion
 * to a year-month-day text, its reading as a calendar date with the same
 * two-digit-year pivot, the age derived from it, and the profile form state.
 * Dates are (year, month index, day) triples limited to the range a `Date` can hold;
 * time zones and the normalisation of out-of-range fields are not modelled.
 */
module ProfileSettings {
  import opened Wrappers
  import opened JsText

  const FallbackIsoDate: string := "1990-01-15"

  /** A two-character year reads as 19yy when its value is above 30 (NaN is not). */
  predicate YearAbovePivot(year: string) {
    match ParseInt(year)
    case Some(v) => v > 30
    case None => false
  }

  /** The year text of `convertToISODate`: two characters get a century, anything else is kept. */
  function FullYearText(year: string): (full: string)
    ensures |year| != 2 ==> full == year
    ensures |year| == 2 ==> |full| == 4 && full[2..] == year
    ensures |year| == 2 ==> (full[..2] == "19" <==> YearAbovePivot(year)) && (full[..2] == "20" <==> !YearAbovePivot(year))
  {
    if |year| == 2 then Century(year) + year else year
  }

  /** The century a two-character year is given. */
  function Century(year: string): (c: string)
    ensures c == "19" || c == "20"
    ensures c == "19" <==> YearAbovePivot(year)
  {
    if YearAbovePivot(year) then "19" else "20"
  }

  /** `convertToISODate(ddmmyy)`: fewer than three fields make the destructured year undefined and throw. */
  function ConvertToIsoDate(ddmmyy: string): (iso: string)
    ensures multiset(ddmmyy)['/'] < 2 ==> iso == FallbackIsoDate
  {
    var parts := Split(ddmmyy, '/');
    SplitCount(ddmmyy, '/');
    if |parts| < 3 then FallbackIsoDate
    else FullYearText(parts[2]) + "-" + PadStart(parts[1], 2, '0') + "-" + PadStart(parts[0], 2, '0')
  }

  /** The shape of an RFC 3339 (section 5.6) `full-date`: four digits, '-', two digits, '-', two digits. */
  predicate FullDateShape(s: string) {
    && |s| == 10 && s[4] == '-' && s[7] == '-'
    && forall k :: 0 <= k < 10 && k != 4 && k != 7 ==> IsDigit(s[k])
  }

  /** Splitting three '/'-free fields joined by '/' gives them back. */
  lemma SplitThreeFields(day: string, month: string, year: string)
    requires '/' !in day && '/' !in month && '/' !in year
    ensures Split(day + "/" + month + "/" + year, '/') == [day, month, year]
  {
    var pieces := [day, month, year];
    assert Join(pieces[2..], '/') == year;
    assert Join(pieces[1..], '/') == month + "/" + year;
    assert Join(pieces, '/') == day + "/" + month + "/" + year;
    SplitJoin(pieces, '/');
  }

  lemma NoSlashInDigits(s: string)
    requires AllDigits(s)
    ensures '/' !in s
  {
    assert !IsDigit('/');
  }

  lemma PadDigits(s: string)
    requires AllDigits(s) && |s| <= 2
    ensures AllDigits(PadStart(s, 2, '0')) && |PadStart(s, 2, '0')| == 2
  {
    var r := PadStart(s, 2, '0');
    forall k | 0 <= k < 2 ensures IsDigit(r[k]) {
      if k >= 2 - |s| { assert r[k] == r[2 - |s|..][k - (2 - |s|)]; }
    }
  }

  lemma FullYearDigits(year: string)
    requires AllDigits(year) && (|year| == 2 || |year| == 4)
    ensures AllDigits(FullYearText(year)) && |FullYearText(year)| == 4
  {
    if |year| == 2 {
      var c := Century(year);
      CenturyDigits(c);
      var y := c + year;
      assert forall k :: 0 <= k < 4 ==> y[k] == (if k < 2 then c[k] else year[k - 2]);
      assert FullYearText(year) == y;
    }
  }

  lemma CenturyDigits(c: string)
    requires c == "19" || c == "20"
    ensures AllDigits(c)
  {
  }

  /** Four digits, '-', two digits, '-', two digits form a full date with those parts. */
  lemma FullDateOfParts(y: string, m: string, d: string)
    requires AllDigits(y) && |y| == 4 && AllDigits(m) && |m| == 2 && AllDigits(d) && |d| == 2
    ensures var iso := y + "-" + m + "-" + d;
      FullDateShape(iso) && iso[..4] == y && iso[5..7] == m && iso[8..] == d
  {
    var iso := y + "-" + m + "-" + d;
    forall k | 0 <= k < 10 && k != 4 && k != 7 ensures IsDigit(iso[k]) {
      if k < 4 { assert iso[k] == y[k]; }
      else if k < 7 { assert iso[k] == m[k - 5]; }
      else { assert iso[k] == d[k - 8]; }
    }
  }

  /**
   * Digit day and month of one or two characters and a year of two or four digits
   * convert to a full date: the pivoted year, then the month and the day padded with '0'.
   */
  lemma ConvertToIsoDateShape(day: string, month: string, year: string)
    requires AllDigits(day) && 1 <= |day| <= 2
    requires AllDigits(month) && 1 <= |month| <= 2
    requires AllDigits(year) && (|year| == 2 || |year| == 4)
    ensures var iso := ConvertToIsoDate(day + "/" + month + "/" + year);
      && FullDateShape(iso)
      && iso[..4] == FullYearText(year)
      && iso[5..7] == PadStart(month, 2, '0')
      && iso[8..] == PadStart(day, 2, '0')
  {
    NoSlashInDigits(day);
    NoSlashInDigits(month);
    NoSlashInDigits(year);
    SplitThreeFields(day, month, year);
    FullYearDigits(year);
    PadDigits(month);
    PadDigits(day);
    FullDateOfParts(FullYearText(year), PadStart(month, 2, '0'), PadStart(day, 2, '0'));
  }

  /** The value of four digits. */
  lemma DigitsValueFour(a: char, b: char, c: char, d: char)
    requires IsDigit(a) && IsDigit(b) && IsDigit(c) && IsDigit(d)
    ensures AllDigits([a, b, c, d])
    ensures DigitsValue([a, b, c, d]) == DigitValue(a) * 1000 + DigitValue(b) * 100 + DigitValue(c) * 10 + DigitValue(d)
  {
    assert [a, b, c, d][..3] == [a, b, c];
    DigitsValueThree(a, b, c);
    assert DigitsValue([a, b, c, d]) == DigitsValue([a, b, c]) * 10 + DigitValue(d);
  }

  lemma DigitsValueThree(a: char, b: char, c: char)
    requires IsDigit(a) && IsDigit(b) && IsDigit(c)
    ensures AllDigits([a, b, c])
    ensures DigitsValue([a, b, c]) == DigitValue(a) * 100 + DigitValue(b) * 10 + DigitValue(c)
  {
    assert [a, b, c][..2] == [a, b];
    DigitsValueTwo(a, b);
    assert DigitsValue([a, b, c]) == DigitsValue([a, b]) * 10 + DigitValue(c);
  }

  /** The value of two digits. */
  lemma DigitsValueTwo(a: char, b: char)
    requires IsDigit(a) && IsDigit(b)
    ensures AllDigits([a, b])
    ensures DigitsValue([a, b]) == DigitValue(a) * 10 + DigitValue(b)
  {
    assert [a, b][..1] == [a];
    assert [a][..0] == [];
    assert DigitsValue([a]) == DigitValue(a);
    assert DigitsValue([a, b]) == DigitsValue([a]) * 10 + DigitValue(b);
  }

  /** The converted year's value: the century followed by the two digits. */
  lemma TwoDigitYearValue(year: string)
    requires AllDigits(year) && |year| == 2
    ensures AllDigits(FullYearText(year))
    ensures var v := DigitsValue(year);
      v < 100 && DigitsValue(FullYearText(year)) == (if v > 30 then 1900 + v else 2000 + v)
  {
    FullYearDigits(year);
    PivotOfDigits(year);
    var c := Century(year);
    assert FullYearText(year) == c + year;
    CenturyPlusYear(c, year);
  }

  /** A century "19" or "20" followed by two digits has the value of the century plus theirs. */
  lemma CenturyPlusYear(c: string, year: string)
    requires c == "19" || c == "20"
    requires AllDigits(year) && |year| == 2
    ensures DigitsValue(year) < 100
    ensures DigitsValue(c + year) == (if c == "19" then 1900 else 2000) + DigitsValue(year)
  {
    assert c + year == [c[0], c[1], year[0], year[1]];
    assert year == [year[0], year[1]];
    DigitsValueTwo(year[0], year[1]);
    DigitsValueFour(c[0], c[1], year[0], year[1]);
  }

  /**
   * A two-digit year is placed in 1931..2030 with its last two digits kept:
   * values above 30 go to the 1900s, the others to the 2000s.
   */
  lemma TwoDigitYearPivot(year: string)
    requires AllDigits(year) && |year| == 2
    ensures AllDigits(FullYearText(year))
    ensures var v := DigitsValue(year); var full := DigitsValue(FullYearText(year));
      && full == (if v > 30 then 1900 + v else 2000 + v)
      && 1931 <= full <= 2030 && full % 100 == v
  {
    TwoDigitYearValue(year);
    PivotRange(DigitsValue(year));
  }

  lemma PivotRange(v: nat)
    requires v < 100
    ensures var full := if v > 30 then 1900 + v else 2000 + v;
      1931 <= full <= 2030 && full % 100 == v
  {
  }

  /** On digits, the pivot test compares the year's value with 30. */
  lemma PivotOfDigits(year: string)
    requires AllDigits(year) && year != []
    ensures YearAbovePivot(year) <==> DigitsValue(year) > 30
  {
    assert ParseInt(year) == Some(DigitsValue(year));
  }

  /** A calendar date as `new Date(year, monthIndex, day)` receives it (month counted from 0). */
  datatype CalendarDate = CalendarDate(year: int, monthIndex: int, day: int)

  /** The `Date` constructor reads a year in 0..99 as 1900 + year. */
  function DateConstructorYear(y: int): (r: int)
    ensures 0 <= y <= 99 ==> r == 1900 + y
    ensures (y < 0 || y > 99) ==> r == y
  {
    if 0 <= y <= 99 then 1900 + y else y
  }

  /**
   * The year as `parseDateFromString` computes it. It pivots a two-character year
   * exactly as `convertToISODate` does: it is the value of the converted year text.
   */
  function ParseFullYear(year: string): (r: Option<int>)
    ensures r == ParseInt(FullYearText(year))
  {
    if |year| == 2 then
      if YearAbovePivot(year) then ParseInt("19" + year) else ParseInt("20" + year)
    else ParseInt(year)
  }

  /** Field `k` (day, month, year) of the '/'-separated text is there and parses to NaN. */
  predicate FieldIsNaN(ddmmyy: string, k: nat) {
    var parts := Split(ddmmyy, '/');
    && |parts| >= 3 && k < 3
    && (if k == 2 then ParseFullYear(parts[2]).None? else ParseInt(parts[k]).None?)
  }

  /**
   * The arguments `parseDateFromString(ddmmyy)` passes to `new Date`: those of the
   * fallback 1990-01-15 when the text has fewer than three fields; None when a field is NaN.
   */
  function DateArguments(ddmmyy: string): (args: Option<CalendarDate>)
    ensures multiset(ddmmyy)['/'] < 2 ==> args == Some(CalendarDate(1990, 0, 15))
    ensures args.None? <==> exists k :: 0 <= k < 3 && FieldIsNaN(ddmmyy, k)
  {
    var parts := Split(ddmmyy, '/');
    SplitCount(ddmmyy, '/');
    if |parts| < 3 then
      assert forall k :: !FieldIsNaN(ddmmyy, k);
      Some(CalendarDate(1990, 0, 15))
    else
      var year, month, day := ParseFullYear(parts[2]), ParseInt(parts[1]), ParseInt(parts[0]);
      FieldsNaN(ddmmyy, year, month, day);
      NewDate(year, month, day)
  }

  lemma FieldsNaN(ddmmyy: string, year: Option<int>, month: Option<int>, day: Option<int>)
    requires var parts := Split(ddmmyy, '/');
      |parts| >= 3 && year == ParseFullYear(parts[2]) && month == ParseInt(parts[1]) && day == ParseInt(parts[0])
    ensures (year.None? || month.None? || day.None?) <==> exists k :: 0 <= k < 3 && FieldIsNaN(ddmmyy, k)
  {
    FieldNaN(ddmmyy, 0, day);
    FieldNaN(ddmmyy, 1, month);
    FieldNaN(ddmmyy, 2, year);
    if !(year.None? || month.None? || day.None?) {
      forall k | 0 <= k < 3 ensures !FieldIsNaN(ddmmyy, k) {
        assert k == 0 || k == 1 || k == 2;
      }
    }
  }

  lemma FieldNaN(ddmmyy: string, k: nat, v: Option<int>)
    requires var parts := Split(ddmmyy, '/');
      |parts| >= 3 && k < 3 && v == if k == 2 then ParseFullYear(parts[2]) else ParseInt(parts[k])
    ensures FieldIsNaN(ddmmyy, k) <==> v.None?
  {
  }

  /** `new Date(year, monthIndex + 1, day)` on parsed fields: None when one of them is NaN. */
  function NewDate(year: Option<int>, month: Option<int>, day: Option<int>): (args: Option<CalendarDate>)
    ensures args.None? <==> year.None? || month.None? || day.None?
  {
    match (year, month, day)
    case (Some(y), Some(m), Some(d)) => Some(CalendarDate(DateConstructorYear(y), m - 1, d))
    case _ => None
  }

  /** The first and the last day a `Date` can hold: 10^8 days before and after 1 January 1970. */
  const FirstDate := CalendarDate(-271821, 3, 20)
  const LastDate := CalendarDate(275760, 8, 13)

  /** A date whose time value lies within the 8.64e15 ms a `Date` can hold. */
  predicate InDateRange(date: CalendarDate) {
    OnOrBefore(FirstDate, date) && OnOrBefore(date, LastDate)
  }

  /**
   * `parseDateFromString(ddmmyy)`: None stands for the Invalid Date that a NaN field
   * or a date outside the range of `Date` produces.
   */
  function ParseDateFromString(ddmmyy: string): (date: Option<CalendarDate>)
    ensures multiset(ddmmyy)['/'] < 2 ==> date == Some(CalendarDate(1990, 0, 15))
    ensures (exists k :: 0 <= k < 3 && FieldIsNaN(ddmmyy, k)) ==> date.None?
    ensures date.Some? ==> InDateRange(date.value) && date == DateArguments(ddmmyy)
    ensures date.None? && DateArguments(ddmmyy).Some? ==> !InDateRange(DateArguments(ddmmyy).value)
  {
    match DateArguments(ddmmyy)
    case Some(args) => if InDateRange(args) then Some(args) else None
    case None => None
  }

  /**
   * A day and a month of digits and a two-digit year read as the date whose year is the
   * value of the year text `convertToISODate` writes, with the month counted from 0.
   */
  lemma ParseDateOfDigits(day: string, month: string, year: string)
    requires AllDigits(day) && day != [] && AllDigits(month) && month != []
    requires AllDigits(year) && |year| == 2
    ensures AllDigits(FullYearText(year))
    ensures ParseDateFromString(day + "/" + month + "/" + year)
      == Some(CalendarDate(DigitsValue(FullYearText(year)), DigitsValue(month) - 1, DigitsValue(day)))
  {
    FieldsOfDigits(day, month, year);
    DateOfFields(day, month, year, DigitsValue(day), DigitsValue(month), DigitsValue(FullYearText(year)));
  }

  lemma DateOfFields(day: string, month: string, year: string, d: int, m: int, y: int)
    requires '/' !in day && '/' !in month && '/' !in year
    requires ParseInt(day) == Some(d) && ParseInt(month) == Some(m) && ParseFullYear(year) == Some(y)
    requires 1931 <= y <= 2030
    ensures ParseDateFromString(day + "/" + month + "/" + year) == Some(CalendarDate(y, m - 1, d))
  {
    SplitThreeFields(day, month, year);
    DateArgumentsOfFields(day + "/" + month + "/" + year, day, month, year, d, m, y);
  }

  lemma FieldsOfDigits(day: string, month: string, year: string)
    requires AllDigits(day) && day != [] && AllDigits(month) && month != []
    requires AllDigits(year) && |year| == 2
    ensures ParseInt(day) == Some(DigitsValue(day)) && ParseInt(month) == Some(DigitsValue(month))
    ensures AllDigits(FullYearText(year)) && ParseFullYear(year) == Some(DigitsValue(FullYearText(year)))
    ensures 1931 <= DigitsValue(FullYearText(year)) <= 2030
    ensures '/' !in day && '/' !in month && '/' !in year
  {
    NoSlashInDigits(day);
    NoSlashInDigits(month);
    NoSlashInDigits(year);
    TwoDigitYearPivot(year);
    ParseFullYearOfDigits(year);
  }

  lemma DateArgumentsOfFields(text: string, day: string, month: string, year: string, d: int, m: int, y: int)
    requires Split(text, '/') == [day, month, year]
    requires ParseInt(day) == Some(d) && ParseInt(month) == Some(m) && ParseFullYear(year) == Some(y)
    requires 1931 <= y <= 2030
    ensures ParseDateFromString(text) == Some(CalendarDate(y, m - 1, d))
  {
    DateArgumentsOfSplit(text, day, month, year);
    NewDateOfFields(ParseFullYear(year), ParseInt(month), ParseInt(day), y, m, d);
    ParseDateInRange(text, CalendarDate(y, m - 1, d));
  }

  lemma NewDateOfFields(year: Option<int>, month: Option<int>, day: Option<int>, y: int, m: int, d: int)
    requires year == Some(y) && month == Some(m) && day == Some(d) && (y < 0 || y > 99)
    ensures NewDate(year, month, day) == Some(CalendarDate(y, m - 1, d))
  {
  }

  lemma DateArgumentsOfSplit(text: string, day: string, month: string, year: string)
    requires Split(text, '/') == [day, month, year]
    ensures DateArguments(text) == NewDate(ParseFullYear(year), ParseInt(month), ParseInt(day))
  {
  }

  lemma ParseDateInRange(text: string, date: CalendarDate)
    requires DateArguments(text) == Some(date) && 1931 <= date.year <= 2030
    ensures ParseDateFromString(text) == Some(date)
  {
    assert InDateRange(date);
  }

  /** Well-formed fields whose date lies outside the range a `Date` can hold read as an Invalid Date. */
  lemma ParseDateOutOfRange(text: string, day: string, month: string, year: string, d: int, m: int, y: int)
    requires Split(text, '/') == [day, month, year]
    requires ParseInt(day) == Some(d) && ParseInt(month) == Some(m) && ParseFullYear(year) == Some(y)
    requires (y < 0 || y > 99) && !InDateRange(CalendarDate(y, m - 1, d))
    ensures ParseDateFromString(text).None?
  {
    DateArgumentsOfSplit(text, day, month, year);
    NewDateOfFields(ParseFullYear(year), ParseInt(month), ParseInt(day), y, m, d);
  }

  /** The year 300000 lies past the last day a `Date` can hold: the text reads as an Invalid Date. */
  lemma ParseDateBeyondLastDay()
    ensures ParseDateFromString("01/01/300000").None?
  {
    var day, year := "01", "300000";
    FarYearFields(day, year);
    SplitThreeFields(day, day, year);
    FarYearText(day, year);
    ParseDateOutOfRange("01/01/300000", day, day, year, 1, 1, 300000);
  }

  /** ... and the age of that date of birth is "NaN". */
  lemma AgeBeyondLastDay(today: CalendarDate)
    ensures CalculateAge("01/01/300000", today) == "NaN"
  {
    ParseDateBeyondLastDay();
  }

  lemma FarYearText(day: string, year: string)
    requires day == "01" && year == "300000"
    ensures "01/01/300000" == day + "/" + day + "/" + year
  {
  }

  lemma FarYearFields(day: string, year: string)
    requires day == "01" && year == "300000"
    ensures '/' !in day && '/' !in year
    ensures ParseInt(day) == Some(1) && ParseFullYear(year) == Some(300000)
  {
    assert AllDigits(day) && AllDigits(year);
    NoSlashInDigits(day);
    NoSlashInDigits(year);
    assert day[..1] == "0" && DigitsValue(day[..1]) == 0;
    assert DigitsValue(day) == 1;
    assert year[..1] == "3" && DigitsValue(year[..1]) == 3;
    assert year[..2][..1] == year[..1] && DigitsValue(year[..2]) == 30;
    assert year[..3][..2] == year[..2] && DigitsValue(year[..3]) == 300;
    assert year[..4][..3] == year[..3] && DigitsValue(year[..4]) == 3000;
    assert year[..5][..4] == year[..4] && DigitsValue(year[..5]) == 30000;
    assert year[..5] == year[..|year| - 1];
    assert DigitsValue(year) == 300000;
  }

  /** A text with two-digit year reads as a date of the year that `convertToISODate` writes. */
  lemma ParseDateAgreesWithIsoDate(day: string, month: string, year: string)
    requires AllDigits(day) && 1 <= |day| <= 2 && AllDigits(month) && 1 <= |month| <= 2
    requires AllDigits(year) && |year| == 2
    ensures var text := day + "/" + month + "/" + year; var iso := ConvertToIsoDate(text);
      && FullDateShape(iso) && AllDigits(iso[..4])
      && ParseDateFromString(text).Some?
      && ParseDateFromString(text).value.year == DigitsValue(iso[..4])
  {
    ConvertToIsoDateShape(day, month, year);
    ParseDateOfDigits(day, month, year);
  }

  /** A two-digit year parses to the value of its converted text. */
  lemma ParseFullYearOfDigits(year: string)
    requires AllDigits(year) && |year| == 2
    ensures AllDigits(FullYearText(year))
    ensures ParseFullYear(year) == Some(DigitsValue(FullYearText(year)))
  {
    TwoDigitYearValue(year);
    var full := FullYearText(year);
    assert ParseInt(full) == Some(DigitsValue(full));
  }

  /** (year, month, day) ordering. */
  predicate OnOrBefore(a: CalendarDate, b: CalendarDate) {
    a.year < b.year
    || (a.year == b.year && a.monthIndex < b.monthIndex)
    || (a.year == b.year && a.monthIndex == b.monthIndex && a.day <= b.day)
  }

  /** The age computed in `calculateAge`: the year difference, one less before the birthday. */
  function Age(birth: CalendarDate, today: CalendarDate): (age: int)
    ensures age == today.year - birth.year <==> OnOrBefore(birth.(year := today.year), today)
    ensures age == today.year - birth.year || age == today.year - birth.year - 1
  {
    var age := today.year - birth.year;
    var monthDiff := today.monthIndex - birth.monthIndex;
    if monthDiff < 0 || (monthDiff == 0 && today.day < birth.day) then age - 1 else age
  }

  /** The age is the number of completed years: the last anniversary not after today. */
  lemma AgeIsCompletedYears(birth: CalendarDate, today: CalendarDate)
    ensures var a := Age(birth, today);
      && OnOrBefore(birth.(year := birth.year + a), today)
      && !OnOrBefore(birth.(year := birth.year + a + 1), today)
  {
  }

  /** Nobody born on or before today has a negative age. */
  lemma AgeNonNegative(birth: CalendarDate, today: CalendarDate)
    requires OnOrBefore(birth, today)
    ensures Age(birth, today) >= 0
  {
    AgeIsCompletedYears(birth, today);
  }

  /** `calculateAge(dateOfBirth)` as text, with today's date as a parameter; an Invalid Date gives "NaN". */
  function CalculateAge(dateOfBirth: string, today: CalendarDate): (age: string)
    ensures age == "NaN" <==> ParseDateFromString(dateOfBirth).None?
    ensures ParseDateFromString(dateOfBirth).Some? ==>
      ParseInt(age) == Some(Age(ParseDateFromString(dateOfBirth).value, today))
  {
    match ParseDateFromString(dateOfBirth)
    case None => "NaN"
    case Some(birth) =>
      var age := IntToString(Age(birth, today));
      assert age != "NaN" by { assert age[0] != 'N'; }
      ParseIntIntToString(Age(birth, today));
      age
  }

  /** A date of birth on or before today shows as the digits of the completed years. */
  lemma AgeOfPastBirth(dateOfBirth: string, today: CalendarDate)
    requires ParseDateFromString(dateOfBirth).Some?
    requires OnOrBefore(ParseDateFromString(dateOfBirth).value, today)
    ensures var age := CalculateAge(dateOfBirth, today);
      AllDigits(age) && ParseInt(age) == Some(Age(ParseDateFromString(dateOfBirth).value, today))
      && ParseInt(age).value >= 0
  {
    AgeNonNegative(ParseDateFromString(dateOfBirth).value, today);
  }

  datatype ProfileField = Name | Email | AgeField | Height | Weight | Sport | ProfileImage

  datatype ProfileData = ProfileData(
    name: string, email: string, age: string, height: string,
    weight: string, sport: string, profileImage: string)

  function FieldValue(p: ProfileData, f: ProfileField): string {
    match f
    case Name => p.name
    case Email => p.email
    case AgeField => p.age
    case Height => p.height
    case Weight => p.weight
    case Sport => p.sport
    case ProfileImage => p.profileImage
  }

  /** `{...prev, [field]: value}`. */
  function WithField(p: ProfileData, f: ProfileField, value: string): (q: ProfileData)
    ensures FieldValue(q, f) == value
    ensures forall g :: g != f ==> FieldValue(q, g) == FieldValue(p, g)
  {
    match f
    case Name => p.(name := value)
    case Email => p.(email := value)
    case AgeField => p.(age := value)
    case Height => p.(height := value)
    case Weight => p.(weight := value)
    case Sport => p.(sport := value)
    case ProfileImage => p.(profileImage := value)
  }

  /** A profile is determined by its fields. */
  lemma FieldsDetermineProfile(p: ProfileData, q: ProfileData)
    requires forall f :: FieldValue(p, f) == FieldValue(q, f)
    ensures p == q
  {
    assert FieldValue(p, Name) == FieldValue(q, Name) && FieldValue(p, Email) == FieldValue(q, Email);
    assert FieldValue(p, AgeField) == FieldValue(q, AgeField) && FieldValue(p, Height) == FieldValue(q, Height);
    assert FieldValue(p, Weight) == FieldValue(q, Weight) && FieldValue(p, Sport) == FieldValue(q, Sport);
    assert FieldValue(p, ProfileImage) == FieldValue(q, ProfileImage);
  }

  /** Writing a field's own value changes nothing; a second write to a field overrides the first. */
  lemma WithFieldLaws(p: ProfileData, f: ProfileField, v: string, w: string)
    ensures WithField(p, f, FieldValue(p, f)) == p
    ensures WithField(WithField(p, f, v), f, w) == WithField(p, f, w)
  {
    FieldsDetermineProfile(WithField(p, f, FieldValue(p, f)), p);
    FieldsDetermineProfile(WithField(WithField(p, f, v), f, w), WithField(p, f, w));
  }

  const InitialDateOfBirth: string := "15/01/90"

  class ProfileForm {
    var dateOfBirth: string
    var profileData: ProfileData

    /** The form as first shown: the signed-in user's name, e-mail and photo (or ""), then the age effect. */
    constructor (name: string, email: string, profileImage: string, today: CalendarDate)
      ensures dateOfBirth == InitialDateOfBirth
      ensures profileData == ProfileData(name, email, CalculateAge(InitialDateOfBirth, today), "180", "75", "Running", profileImage)
    {
      dateOfBirth := InitialDateOfBirth;
      profileData := ProfileData(name, email, "25", "180", "75", "Running", profileImage);
      new;
      ChangeDateOfBirth(dateOfBirth, today);
    }

    /** `handleInputChange(field, value)`: only the named field changes. */
    method HandleInputChange(field: ProfileField, value: string)
      modifies this
      ensures profileData == WithField(old(profileData), field, value)
      ensures dateOfBirth == old(dateOfBirth)
    {
      profileData := WithField(profileData, field, value);
    }

    /** A new date of birth, followed by the effect that recomputes the age from it. */
    method ChangeDateOfBirth(value: string, today: CalendarDate)
      modifies this
      ensures dateOfBirth == value
      ensures profileData == WithField(old(profileData), AgeField, CalculateAge(value, today))
    {
      dateOfBirth := value;
      profileData := profileData.(age := CalculateAge(dateOfBirth, today));
    }
  }
}
