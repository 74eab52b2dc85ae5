/**
 * Calendar dates as the scripts use them: `datetime.strptime(s, '%Y%m%d')`
 * restricted to eight-digit strings, `strftime('%Y%m%d')`, adding and
 * subtracting a day with `timedelta(days=1)`, and the small year rules
 * built on them.
 */
module Dates {
  import opened Wrappers
  import opened Text

  /** A proleptic Gregorian date, as Python's `datetime.date`. */
  datatype Date = Date(year: nat, month: nat, day: nat)

  const MinYear: nat := 1
  const MaxYear: nat := 9999

  predicate IsLeapYear(y: nat)
  {
    y % 4 == 0 && (y % 100 != 0 || y % 400 == 0)
  }

  function DaysInMonth(y: nat, m: nat): nat
    requires 1 <= m <= 12
  {
    if m == 2 then (if IsLeapYear(y) then 29 else 28)
    else if m == 4 || m == 6 || m == 9 || m == 11 then 30
    else 31
  }

  function DaysInYear(y: nat): nat
  {
    if IsLeapYear(y) then 366 else 365
  }

  predicate ValidDate(d: Date)
  {
    MinYear <= d.year <= MaxYear && 1 <= d.month <= 12 && 1 <= d.day <= DaysInMonth(d.year, d.month)
  }

  // ------------------------------------------------------------ ordinals

  /** Days in the years before `y` (year 1 starts at 0). */
  function DaysBeforeYear(y: nat): nat
  {
    if y <= 1 then 0 else DaysBeforeYear(y - 1) + DaysInYear(y - 1)
  }

  /** Days in the months of year `y` before month `m`; `m == 13` gives the whole year. */
  function DaysBeforeMonth(y: nat, m: nat): nat
    requires 1 <= m <= 13
  {
    [0, 31, 59, 90, 120, 151, 181, 212, 243, 273, 304, 334, 365][m - 1]
    + (if m > 2 && IsLeapYear(y) then 1 else 0)
  }

  /** The day number of a date, 1 for 0001-01-01 (Python's `date.toordinal()`). */
  function Ordinal(d: Date): nat
    requires ValidDate(d)
  {
    DaysBeforeYear(d.year) + DaysBeforeMonth(d.year, d.month) + d.day
  }

  lemma DaysBeforeMonthStep(y: nat, m: nat)
    requires 1 <= m <= 12
    ensures DaysBeforeMonth(y, m + 1) == DaysBeforeMonth(y, m) + DaysInMonth(y, m)
    ensures DaysBeforeMonth(y, 13) == DaysInYear(y)
  {
  }

  lemma {:induction false} DaysBeforeMonthMono(y: nat, m1: nat, m2: nat)
    requires 1 <= m1 < m2 <= 13
    ensures DaysBeforeMonth(y, m1) + DaysInMonth(y, m1) <= DaysBeforeMonth(y, m2)
    decreases m2 - m1
  {
    DaysBeforeMonthStep(y, m1);
    if m1 + 1 < m2 {
      DaysBeforeMonthMono(y, m1 + 1, m2);
    }
  }

  lemma {:induction false} DaysBeforeYearMono(y1: nat, y2: nat)
    requires 1 <= y1 < y2
    ensures DaysBeforeYear(y1) + DaysInYear(y1) <= DaysBeforeYear(y2)
    decreases y2 - y1
  {
    if y1 + 1 < y2 {
      DaysBeforeYearMono(y1 + 1, y2);
    }
  }

  /** `datetime`'s `<=` on two dates: year, then month, then day. */
  predicate DateLe(a: Date, b: Date)
  {
    a.year < b.year || (a.year == b.year && (a.month < b.month || (a.month == b.month && a.day <= b.day)))
  }

  lemma DateLtOrdinal(a: Date, b: Date)
    requires ValidDate(a) && ValidDate(b) && DateLe(a, b) && a != b
    ensures Ordinal(a) < Ordinal(b)
  {
    DaysBeforeMonthStep(a.year, 12);
    if a.year < b.year {
      if a.month < 12 {
        DaysBeforeMonthMono(a.year, a.month, 13);
      }
      DaysBeforeYearMono(a.year, b.year);
    } else if a.month < b.month {
      DaysBeforeMonthMono(a.year, a.month, b.month);
    }
  }

  /** Calendar order and day-number order agree. */
  lemma DateLeOrdinal(a: Date, b: Date)
    requires ValidDate(a) && ValidDate(b)
    ensures DateLe(a, b) <==> Ordinal(a) <= Ordinal(b)
  {
    if DateLe(a, b) && a != b {
      DateLtOrdinal(a, b);
    } else if !DateLe(a, b) {
      DateLtOrdinal(b, a);
    }
  }

  /** Different valid dates have different day numbers. */
  lemma OrdinalInjective(a: Date, b: Date)
    requires ValidDate(a) && ValidDate(b) && Ordinal(a) == Ordinal(b)
    ensures a == b
  {
    if a != b {
      if DateLe(a, b) { DateLtOrdinal(a, b); } else { DateLtOrdinal(b, a); }
    }
  }

  // ------------------------------------------------------ day arithmetic

  /** `d + timedelta(days=1)`; None where Python raises OverflowError. */
  function NextDay(d: Date): (r: Option<Date>)
    requires ValidDate(d)
    ensures r.None? <==> d == Date(MaxYear, 12, 31)
    ensures r.Some? ==> ValidDate(r.value) && Ordinal(r.value) == Ordinal(d) + 1
  {
    DaysBeforeMonthStep(d.year, d.month);
    if d.day < DaysInMonth(d.year, d.month) then Some(Date(d.year, d.month, d.day + 1))
    else if d.month < 12 then Some(Date(d.year, d.month + 1, 1))
    else if d.year < MaxYear then Some(Date(d.year + 1, 1, 1))
    else None
  }

  /** `d - timedelta(days=1)`; None where Python raises OverflowError. */
  function PrevDay(d: Date): (r: Option<Date>)
    requires ValidDate(d)
    ensures r.None? <==> d == Date(MinYear, 1, 1)
    ensures r.Some? ==> ValidDate(r.value) && Ordinal(r.value) + 1 == Ordinal(d)
  {
    if d.day > 1 then Some(Date(d.year, d.month, d.day - 1))
    else if d.month > 1 then
      MonthStartOrdinal(d.year, d.month);
      Some(Date(d.year, d.month - 1, DaysInMonth(d.year, d.month - 1)))
    else if d.year > MinYear then
      YearStartOrdinal(d.year);
      Some(Date(d.year - 1, 12, 31))
    else None
  }

  /** The first of a month follows the last day of the month before. */
  lemma MonthStartOrdinal(y: nat, m: nat)
    requires MinYear <= y <= MaxYear && 2 <= m <= 12
    ensures var last := Date(y, m - 1, DaysInMonth(y, m - 1));
            ValidDate(last) && Ordinal(last) + 1 == Ordinal(Date(y, m, 1))
  {
    DaysBeforeMonthStep(y, m - 1);
  }

  /** New Year's Day follows the last day of the year before. */
  lemma YearStartOrdinal(y: nat)
    requires MinYear < y <= MaxYear
    ensures ValidDate(Date(y - 1, 12, 31)) && Ordinal(Date(y - 1, 12, 31)) + 1 == Ordinal(Date(y, 1, 1))
  {
    DaysBeforeMonthStep(y - 1, 12);
    assert DaysBeforeYear(y) == DaysBeforeYear(y - 1) + DaysInYear(y - 1);
  }

  lemma NextDayPrevDay(d: Date)
    requires ValidDate(d) && d != Date(MaxYear, 12, 31)
    ensures PrevDay(NextDay(d).value) == Some(d)
  {
    var n := NextDay(d).value;
    OrdinalInjective(PrevDay(n).value, d);
  }

  lemma PrevDayNextDay(d: Date)
    requires ValidDate(d) && d != Date(MinYear, 1, 1)
    ensures NextDay(PrevDay(d).value) == Some(d)
  {
    var p := PrevDay(d).value;
    OrdinalInjective(NextDay(p).value, d);
  }

  // --------------------------------------------------- parse and format

  predicate DateShaped(s: string)
  {
    |s| == 8 && IsDigits(s)
  }

  function FieldsOf(s: string): Date
    requires DateShaped(s)
  {
    Date(DigitsValue(s[..4]), DigitsValue(s[4..6]), DigitsValue(s[6..]))
  }

  /**
   * `datetime.strptime(s, '%Y%m%d')`, restricted to eight-digit strings;
   * None where Python raises ValueError.
   */
  function ParseDate(s: string): (r: Option<Date>)
    ensures r.Some? <==> DateShaped(s) && ValidDate(FieldsOf(s))
    ensures r.Some? ==> ValidDate(r.value)
  {
    if DateShaped(s) && ValidDate(FieldsOf(s)) then Some(FieldsOf(s)) else None
  }

  /** `d.strftime('%Y%m%d')`: four, two and two zero-padded digits. */
  function FormatDate(d: Date): (s: string)
    requires ValidDate(d)
    ensures DateShaped(s)
  {
    PadDigits(d.year, 4) + PadDigits(d.month, 2) + PadDigits(d.day, 2)
  }

  predicate IsDate(s: string) { ParseDate(s).Some? }

  lemma ParseFormat(d: Date)
    requires ValidDate(d)
    ensures ParseDate(FormatDate(d)) == Some(d)
  {
    var s := FormatDate(d);
    assert s[..4] == PadDigits(d.year, 4);
    assert s[4..6] == PadDigits(d.month, 2);
    assert s[6..] == PadDigits(d.day, 2);
    PadDigitsValue(d.year, 4);
    PadDigitsValue(d.month, 2);
    PadDigitsValue(d.day, 2);
  }

  lemma FormatParse(s: string)
    requires IsDate(s)
    ensures FormatDate(ParseDate(s).value) == s
  {
    var d := ParseDate(s).value;
    assert d == FieldsOf(s);
    var y, m, dd := s[..4], s[4..6], s[6..];
    assert IsDigits(y) && IsDigits(m) && IsDigits(dd);
    DigitsPadded(y);
    DigitsPadded(m);
    DigitsPadded(dd);
    assert FormatDate(d) == y + m + dd;
    assert s == y + m + dd;
  }

  /** Parsing then formatting, as the scripts normalise `startdate`/`enddate`. */
  function NormalizeDate(s: string): (r: Result<string>)
    ensures r.Ok? <==> IsDate(s)
    ensures r.Ok? ==> r.value == s
    ensures r.Err? ==> r.error == ValueError(s)
  {
    match ParseDate(s)
    case None => Err(ValueError(s))
    case Some(d) => FormatParse(s); Ok(FormatDate(d))
  }

  /** On date strings, code-point order is calendar order (so a string sort is a date sort). */
  lemma DateStringOrder(s: string, t: string)
    requires IsDate(s) && IsDate(t)
    ensures LexLe(s, t) <==> DateLe(ParseDate(s).value, ParseDate(t).value)
  {
    assert s == s[..4] + (s[4..6] + s[6..]);
    assert t == t[..4] + (t[4..6] + t[6..]);
    LexLeConcat(s[..4], s[4..6] + s[6..], t[..4], t[4..6] + t[6..]);
    LexLeConcat(s[4..6], s[6..], t[4..6], t[6..]);
    LexLeDigits(s[..4], t[..4]);
    LexLeDigits(s[4..6], t[4..6]);
    LexLeDigits(s[6..], t[6..]);
    if DigitsValue(s[..4]) == DigitsValue(t[..4]) { DigitsInjective(s[..4], t[..4]); }
    if DigitsValue(s[4..6]) == DigitsValue(t[4..6]) { DigitsInjective(s[4..6], t[4..6]); }
  }

  // ------------------------------------------------------- script rules

  /**
   * `adjust_date`: with `subtractDay` the day before, formatted; a string
   * that does not parse, or a day before which there is none, is returned
   * unchanged (the exception is caught).
   */
  function AdjustDate(s: string, subtractDay: bool): (r: string)
    ensures !subtractDay ==> r == s
    ensures subtractDay && IsDate(s) && ParseDate(s).value != Date(MinYear, 1, 1) ==>
              IsDate(r) && Ordinal(ParseDate(r).value) + 1 == Ordinal(ParseDate(s).value)
    ensures subtractDay && (!IsDate(s) || ParseDate(s).value == Date(MinYear, 1, 1)) ==> r == s
  {
    if !subtractDay then s
    else match ParseDate(s)
      case None => s
      case Some(d) =>
        match PrevDay(d)
        case None => s
        case Some(p) => ParseFormat(p); FormatDate(p)
  }

  /** `get_year_from_date`: the first four characters, or the current year for a shorter string. */
  function YearFromDate(s: string, currentYear: nat): (y: string)
    ensures |s| >= 4 ==> |y| == 4 && y <= s
    ensures |s| < 4 ==> y == NatToString(currentYear)
  {
    if |s| >= 4 then s[..4] else NatToString(currentYear)
  }

  /** The yearly folder label: the current year, plus one on December 31. */
  function ThisYear(today: Date): nat
  {
    today.year + (if today.month == 12 && today.day == 31 then 1 else 0)
  }

  /** The yearly folder is always the year of tomorrow's date. */
  lemma ThisYearIsTomorrowsYear(today: Date)
    requires ValidDate(today) && today != Date(MaxYear, 12, 31)
    ensures ThisYear(today) == NextDay(today).value.year
  {
  }
}
