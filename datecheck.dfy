/**
 * bing/Check-date-for-missing-or-duplicates.py: for one language file,
 * the calendar dates from the file's first date to a fixed end date that no
 * record carries, and the dates that more than one record carries.
 */
module DateCheck {
  import opened Wrappers
  import opened Text
  import opened Dates
  import opened Records
  import opened Lists

  /** The end of the range the script checks. */
  const EndDate: string := "20240814"

  // ----------------------------------------------------- date ranges

  /** The formatted dates from `d` to `end`, stepping one day; OverflowError past 9999-12-31. */
  function RangeFrom(d: Date, end: Date): Result<seq<string>>
    requires ValidDate(d) && ValidDate(end)
    decreases Ordinal(end) + 1 - Ordinal(d)
  {
    if Ordinal(d) > Ordinal(end) then Ok([])
    else match NextDay(d)
      case None => Err(OverflowError)
      case Some(n) =>
        match RangeFrom(n, end)
        case Err(e) => Err(e)
        case Ok(rest) => Ok([FormatDate(d)] + rest)
  }

  /** The last date `datetime` can hold. */
  const LastDate: Date := Date(MaxYear, 12, 31)

  /** The range fails only when it has to step past the last date. */
  lemma {:induction false} RangeFromOk(d: Date, end: Date)
    requires ValidDate(d) && ValidDate(end)
    ensures RangeFrom(d, end).Ok? <==> Ordinal(d) > Ordinal(end) || end != LastDate
    decreases Ordinal(end) + 1 - Ordinal(d)
  {
    if Ordinal(d) <= Ordinal(end) {
      DateLeOrdinal(d, end);
      match NextDay(d)
      case None =>
      case Some(n) =>
        RangeFromOk(n, end);
        if end == LastDate && Ordinal(n) > Ordinal(end) {
          DateLeOrdinal(end, n);
        }
    }
  }

  /** Otherwise it holds one date per day, in calendar order, each a valid date string. */
  lemma {:induction false} RangeFromValues(d: Date, end: Date)
    requires ValidDate(d) && ValidDate(end) && RangeFrom(d, end).Ok?
    ensures var r := RangeFrom(d, end).value;
            |r| == (if Ordinal(d) > Ordinal(end) then 0 else Ordinal(end) - Ordinal(d) + 1)
            && forall i | 0 <= i < |r| :: IsDate(r[i]) && Ordinal(ParseDate(r[i]).value) == Ordinal(d) + i
    decreases Ordinal(end) + 1 - Ordinal(d)
  {
    if Ordinal(d) <= Ordinal(end) {
      var n := NextDay(d).value;
      RangeFromValues(n, end);
      ParseFormat(d);
      var rest := RangeFrom(n, end).value;
      var r := RangeFrom(d, end).value;
      assert r == [FormatDate(d)] + rest;
      forall i | 0 <= i < |r| ensures IsDate(r[i]) && Ordinal(ParseDate(r[i]).value) == Ordinal(d) + i {
        if i > 0 {
          assert r[i] == rest[i - 1];
        }
      }
    }
  }

  /** `generate_date_range`: both ends parsed (start first), then every day in between. */
  function DateRange(startDate: Option<string>, endDate: string): Result<seq<string>>
  {
    match startDate
    case None => Err(TypeError("strptime() argument 1 must be str, not None"))
    case Some(s) =>
      match ParseDate(s)
      case None => Err(ValueError(s))
      case Some(start) =>
        match ParseDate(endDate)
        case None => Err(ValueError(endDate))
        case Some(end) => RangeFrom(start, end)
  }

  /** The range is the date strings between the two ends, both included, listed in ascending order. */
  lemma DateRangeExact(s: string, e: string)
    requires IsDate(s) && IsDate(e) && ParseDate(e).value != LastDate
    ensures DateRange(Some(s), e).Ok?
    ensures var r := DateRange(Some(s), e).value;
            StrictlyAscending(r)
            && forall x :: x in r <==> IsDate(x) && LexLe(s, x) && LexLe(x, e)
  {
    var start, end := ParseDate(s).value, ParseDate(e).value;
    RangeFromOk(start, end);
    RangeFromValues(start, end);
    var r := RangeFrom(start, end).value;
    forall i, j | 0 <= i < j < |r| ensures LexLt(r[i], r[j]) {
      var a, b := ParseDate(r[i]).value, ParseDate(r[j]).value;
      DateLeOrdinal(a, b);
      DateStringOrder(r[i], r[j]);
    }
    forall x ensures x in r <==> IsDate(x) && LexLe(s, x) && LexLe(x, e) {
      if x in r {
        var i :| 0 <= i < |r| && r[i] == x;
        var dx := ParseDate(x).value;
        DateLeOrdinal(start, dx);
        DateLeOrdinal(dx, end);
        DateStringOrder(s, x);
        DateStringOrder(x, e);
      }
      if IsDate(x) && LexLe(s, x) && LexLe(x, e) {
        var dx := ParseDate(x).value;
        DateStringOrder(s, x);
        DateStringOrder(x, e);
        DateLeOrdinal(start, dx);
        DateLeOrdinal(dx, end);
        var i := Ordinal(dx) - Ordinal(start);
        OrdinalInjective(ParseDate(r[i]).value, dx);
        FormatParse(r[i]);
        FormatParse(x);
      }
    }
  }

  /** `generate_date_range` step by step: the `while start <= end` loop. */
  method GenerateDateRange(startDate: Option<string>, endDate: string) returns (r: Result<seq<string>>)
    ensures r == DateRange(startDate, endDate)
  {
    if startDate.None? {
      return Err(TypeError("strptime() argument 1 must be str, not None"));
    }
    var parsedStart := ParseDate(startDate.value);
    if parsedStart.None? {
      return Err(ValueError(startDate.value));
    }
    var parsedEnd := ParseDate(endDate);
    if parsedEnd.None? {
      return Err(ValueError(endDate));
    }
    var start, end := parsedStart.value, parsedEnd.value;
    assert DateRange(startDate, endDate) == RangeFrom(start, end);
    var cur := start;
    var dates: seq<string> := [];
    PrefixedEmpty(RangeFrom(start, end));
    while Ordinal(cur) <= Ordinal(end)
      invariant ValidDate(cur)
      invariant RangeFrom(start, end) == Prefixed(dates, RangeFrom(cur, end))
      decreases Ordinal(end) + 1 - Ordinal(cur)
    {
      RangeFromStep(cur, end);
      var next := NextDay(cur);
      if next.None? {
        return Err(OverflowError);
      }
      PrefixedConcat(dates, [FormatDate(cur)], RangeFrom(next.value, end));
      dates := dates + [FormatDate(cur)];
      cur := next.value;
    }
    assert RangeFrom(cur, end) == Ok([]);
    assert dates + [] == dates;
    return Ok(dates);
  }

  /** `dates` put in front of a range, or the range's error. */
  function Prefixed(dates: seq<string>, r: Result<seq<string>>): Result<seq<string>>
  {
    if r.Ok? then Ok(dates + r.value) else r
  }

  lemma PrefixedEmpty(r: Result<seq<string>>)
    ensures Prefixed([], r) == r
  {
    if r.Ok? { assert [] + r.value == r.value; }
  }

  lemma PrefixedConcat(a: seq<string>, b: seq<string>, r: Result<seq<string>>)
    ensures Prefixed(a, Prefixed(b, r)) == Prefixed(a + b, r)
  {
    if r.Ok? { assert a + (b + r.value) == (a + b) + r.value; }
  }

  /** One turn of the loop: the day is appended, then the step past it may overflow. */
  lemma RangeFromStep(d: Date, end: Date)
    requires ValidDate(d) && ValidDate(end) && Ordinal(d) <= Ordinal(end)
    ensures NextDay(d).None? ==> RangeFrom(d, end) == Err(OverflowError)
    ensures NextDay(d).Some? ==> RangeFrom(d, end) == Prefixed([FormatDate(d)], RangeFrom(NextDay(d).value, end))
  {
  }

  // ------------------------------------------------ present and duplicates

  /** `present_dates` after the loop. */
  function Present(data: seq<Record>): set<string>
    requires AllDated(data)
  {
    set i | 0 <= i < |data| :: data[i][DateKey]
  }

  /** `duplicate_dates` after the loop: the dates that a later record carries again. */
  function Duplicated(data: seq<Record>): set<string>
    requires AllDated(data)
  {
    set i, j | 0 <= i < j < |data| && data[i][DateKey] == data[j][DateKey] :: data[j][DateKey]
  }

  lemma PresentSnoc(data: seq<Record>, x: Record)
    requires AllDated(data) && DateKey in x
    ensures AllDated(data + [x])
    ensures Present(data + [x]) == Present(data) + {x[DateKey]}
  {
    var s := data + [x];
    assert forall i | 0 <= i < |data| :: s[i] == data[i];
    assert s[|data|] == x;
  }

  lemma DuplicatedSnoc(data: seq<Record>, x: Record)
    requires AllDated(data) && DateKey in x
    ensures AllDated(data + [x])
    ensures Duplicated(data + [x]) ==
              Duplicated(data) + (if x[DateKey] in Present(data) then {x[DateKey]} else {})
  {
    var s := data + [x];
    var d := x[DateKey];
    assert forall i | 0 <= i < |data| :: s[i] == data[i];
    assert s[|data|] == x;
    forall y | y in Duplicated(s)
      ensures y in Duplicated(data) + (if d in Present(data) then {d} else {})
    {
      var i, j :| 0 <= i < j < |s| && s[i][DateKey] == s[j][DateKey] && y == s[j][DateKey];
      if j == |data| {
        assert data[i][DateKey] == d;
      }
    }
    if d in Present(data) {
      var i :| 0 <= i < |data| && data[i][DateKey] == d;
      assert s[i][DateKey] == s[|data|][DateKey];
    }
  }

  /** Every duplicated date is a present one. */
  lemma DuplicatedPresent(data: seq<Record>)
    requires AllDated(data)
    ensures Duplicated(data) <= Present(data)
  {
  }

  /** A date is a duplicate exactly when two records carry it. */
  lemma DuplicatedExact(data: seq<Record>, d: string)
    requires AllDated(data)
    ensures d in Duplicated(data) <==>
              exists i, j | 0 <= i < j < |data| :: data[i][DateKey] == d && data[j][DateKey] == d
  {
    if d in Duplicated(data) {
      var i, j :| 0 <= i < j < |data| && data[i][DateKey] == data[j][DateKey] && d == data[j][DateKey];
      assert data[i][DateKey] == d && data[j][DateKey] == d;
    }
  }

  // ------------------------------------------------ find_dates_issues

  datatype Issues = Issues(missing: seq<string>, duplicates: seq<string>)

  /**
   * `find_dates_issues`: the range is built first, then every record's
   * `date` is read (KeyError on a record without one); the missing dates
   * are `sorted(all_dates - present_dates)`, the duplicates `sorted(duplicate_dates)`.
   */
  function DateIssues(data: seq<Record>, startDate: Option<string>, endDate: string): Result<Issues>
  {
    var range :- DateRange(startDate, endDate);
    if !AllDated(data) then Err(KeyError(DateKey))
    else
      var all := set x | x in range;
      Ok(Issues(SortedStrings(all - Present(data)), SortedStrings(Duplicated(data))))
  }

  /** `find_dates_issues` with its loop over the records. */
  method FindDatesIssues(data: seq<Record>, startDate: Option<string>, endDate: string) returns (r: Result<Issues>)
    ensures r == DateIssues(data, startDate, endDate)
  {
    var range := GenerateDateRange(startDate, endDate);
    if range.Err? {
      return Err(range.error);
    }
    var present: set<string> := {};
    var duplicates: set<string> := {};
    var k := 0;
    while k < |data|
      invariant 0 <= k <= |data|
      invariant AllDated(data[..k])
      invariant present == Present(data[..k])
      invariant duplicates == Duplicated(data[..k])
    {
      if DateKey !in data[k] {
        return Err(KeyError(DateKey));
      }
      var date := data[k][DateKey];
      PresentSnoc(data[..k], data[k]);
      DuplicatedSnoc(data[..k], data[k]);
      assert data[..k + 1] == data[..k] + [data[k]];
      if date in present {
        duplicates := duplicates + {date};
      }
      present := present + {date};
      k := k + 1;
    }
    assert data[..k] == data;
    var all := set x | x in range.value;
    return Ok(Issues(SortedStrings(all - present), SortedStrings(duplicates)));
  }

  /**
   * When both ends are dates, the missing dates are the days of the range
   * that no record carries, in calendar order; the duplicates are the dates
   * carried twice, in ascending order; no duplicate is missing.
   */
  lemma DateIssuesExact(data: seq<Record>, s: string, e: string)
    requires IsDate(s) && IsDate(e) && ParseDate(e).value != LastDate && AllDated(data)
    ensures DateIssues(data, Some(s), e).Ok?
    ensures var issues := DateIssues(data, Some(s), e).value;
            var range := DateRange(Some(s), e).value;
            issues.missing == Filter(range, (x: string) => x !in Present(data))
            && StrictlyAscending(issues.missing) && StrictlyAscending(issues.duplicates)
            && (forall x :: x in issues.missing <==> IsDate(x) && LexLe(s, x) && LexLe(x, e) && x !in Present(data))
            && (forall x :: x in issues.duplicates <==> x in Duplicated(data))
            && (forall x :: x in issues.duplicates ==> x !in issues.missing)
  {
    DateRangeExact(s, e);
    var range := DateRange(Some(s), e).value;
    var p := (x: string) => x !in Present(data);
    var missing := DateIssues(data, Some(s), e).value.missing;
    var filtered := Filter(range, p);
    FilterAscending(range, p);
    forall x ensures x in filtered <==> x in missing {
      FilterMembers(range, p, x);
    }
    AscendingUnique(filtered, missing);
  }

  // ------------------------------------------------ the start date

  /** `min` on date strings under code-point order. */
  function Earliest(dates: seq<string>): (m: string)
    requires dates != []
    ensures m in dates && forall x | x in dates :: LexLe(m, x)
  {
    if |dates| == 1 then LexLeRefl(dates[0]); dates[0]
    else
      var rest := Earliest(dates[1..]);
      LexLeTotal(dates[0], rest);
      if LexLe(dates[0], rest) then
        LexLeRefl(dates[0]);
        assert forall x | x in dates[1..] :: LexLe(dates[0], x) by {
          forall x | x in dates[1..] ensures LexLe(dates[0], x) { LexLeTrans(dates[0], rest, x); }
        }
        assert dates == [dates[0]] + dates[1..];
        dates[0]
      else
        assert dates == [dates[0]] + dates[1..];
        rest
  }

  function DatesOf(data: seq<Record>): (ds: seq<string>)
    requires AllDated(data)
    ensures |ds| == |data| && forall i | 0 <= i < |data| :: ds[i] == data[i][DateKey]
  {
    if data == [] then [] else [data[0][DateKey]] + DatesOf(data[1..])
  }

  /**
   * `get_start_date_from_data`: the first of the sorted dates, None for an
   * empty file, KeyError when a record has no `date`.
   */
  function StartDate(data: seq<Record>): (r: Result<Option<string>>)
    ensures r.Err? <==> !AllDated(data)
    ensures r.Ok? ==> (r.value.None? <==> data == [])
    ensures r.Ok? && r.value.Some? ==>
              (exists i | 0 <= i < |data| :: data[i][DateKey] == r.value.value)
              && forall i | 0 <= i < |data| :: LexLe(r.value.value, data[i][DateKey])
  {
    if !AllDated(data) then Err(KeyError(DateKey))
    else if data == [] then Ok(None)
    else
      var ds := DatesOf(data);
      var m := Earliest(ds);
      assert forall i | 0 <= i < |data| :: ds[i] in ds;
      Ok(Some(m))
  }

  /** One language file: its start date, then the issues from there to the end date. */
  function CheckFile(data: seq<Record>): Result<Issues>
  {
    var start :- StartDate(data);
    DateIssues(data, start, EndDate)
  }

  /**
   * A file whose dates are all valid date strings no later than the end
   * date checks without error: a day is missing exactly when it lies
   * between the file's first date and the end date and no record carries
   * it, and the range's days are split between missing and present.
   */
  lemma CheckFileExact(data: seq<Record>)
    requires data != [] && AllDated(data)
    requires forall i | 0 <= i < |data| :: IsDate(data[i][DateKey]) && LexLe(data[i][DateKey], EndDate)
    ensures CheckFile(data).Ok?
    ensures var s := StartDate(data).value.value;
            var issues := CheckFile(data).value;
            (forall x :: x in issues.missing <==> IsDate(x) && LexLe(s, x) && LexLe(x, EndDate) && x !in Present(data))
            && |issues.missing| + |Present(data)| == |DateRange(Some(s), EndDate).value|
  {
    var s := StartDate(data).value.value;
    assert IsDate(s);
    EndDateParses();
    assert CheckFile(data) == DateIssues(data, Some(s), EndDate);
    DateIssuesExact(data, s, EndDate);
    MissingCount(data, s, EndDate);
  }

  /** When every record's date lies in the range, the range's days are split between missing and present. */
  lemma MissingCount(data: seq<Record>, s: string, e: string)
    requires IsDate(s) && IsDate(e) && ParseDate(e).value != LastDate && AllDated(data)
    requires forall i | 0 <= i < |data| :: IsDate(data[i][DateKey]) && LexLe(s, data[i][DateKey]) && LexLe(data[i][DateKey], e)
    ensures DateIssues(data, Some(s), e).Ok?
    ensures |DateIssues(data, Some(s), e).value.missing| + |Present(data)| == |DateRange(Some(s), e).value|
  {
    DateRangeExact(s, e);
    var range := DateRange(Some(s), e).value;
    var all := set x | x in range;
    PresentInRange(data, s, e);
    SortedRangeSize(range);
    assert |all - Present(data)| + |Present(data)| == |all|;
  }

  /** Every date the records carry is a day of the range. */
  lemma PresentInRange(data: seq<Record>, s: string, e: string)
    requires IsDate(s) && IsDate(e) && ParseDate(e).value != LastDate && AllDated(data)
    requires forall i | 0 <= i < |data| :: IsDate(data[i][DateKey]) && LexLe(s, data[i][DateKey]) && LexLe(data[i][DateKey], e)
    ensures DateRange(Some(s), e).Ok?
    ensures Present(data) <= set x | x in DateRange(Some(s), e).value
  {
    DateRangeExact(s, e);
    var range := DateRange(Some(s), e).value;
    forall x | x in Present(data) ensures x in range {
      var i :| 0 <= i < |data| && data[i][DateKey] == x;
    }
  }

  lemma EndDateParses()
    ensures ParseDate(EndDate) == Some(Date(2024, 8, 14))
  {
    var e := EndDate;
    assert e[..4] == "2024" && e[4..6] == "08" && e[6..] == "14";
    assert DigitsValue("2") == 2;
    assert DigitsValue("20") == 20 by { assert "20"[..1] == "2"; }
    assert DigitsValue("202") == 202 by { assert "202"[..2] == "20"; }
    assert DigitsValue("2024") == 2024 by { assert "2024"[..3] == "202"; }
    assert DigitsValue("08") == 8 by { assert "08"[..1] == "0"; }
    assert DigitsValue("14") == 14 by { assert "14"[..1] == "1"; }
  }

  lemma SortedRangeSize(range: seq<string>)
    requires StrictlyAscending(range)
    ensures |set x | x in range| == |range|
  {
    AscendingUnique(range, SortedStrings(set x | x in range));
  }
}
