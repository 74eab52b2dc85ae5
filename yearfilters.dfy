/**
 * The two filters that keep a yearly file to its year:
 *
 * - the clean-up of python/bing_260204.py, which on January 7 and 8 drops
 *   from every file of the current year's folder the records dated in the
 *   previous year, and rewrites a file only when it dropped something;
 * - python/get_yearly_data.py, which keeps the records whose `date` starts
 *   with the year of the file.
 */
module YearFilters {
  import opened Wrappers
  import opened Text
  import opened Dates
  import opened Records
  import opened Lists

  // ------------------------------------------------------------- clean-up

  /** The clean-up only runs on January 7 and January 8. */
  predicate IsCleanupDay(today: Date)
  {
    today.month == 1 && (today.day == 7 || today.day == 8)
  }

  /** `str(current_year - 1)`. */
  function PreviousYear(today: Date): string
    requires ValidDate(today)
  {
    NatToString(today.year - 1)
  }

  /** The comprehension's test: `not item.get('date', '').startswith(previous_year)`. */
  function KeepsRecord(previousYear: string): Record -> bool
  {
    x => !(previousYear <= DateOf(x))
  }

  /** `cleaned_data`. */
  function Cleaned(data: seq<Record>, previousYear: string): seq<Record>
  {
    Filter(data, KeepsRecord(previousYear))
  }

  /** The new contents of a file, or None when nothing was removed and the file is left alone. */
  function CleanupFile(data: seq<Record>, previousYear: string): Option<seq<Record>>
  {
    var cleaned := Cleaned(data, previousYear);
    if |data| - |cleaned| > 0 then Some(cleaned) else None
  }

  /**
   * The clean-up keeps exactly the records whose `date` does not start with
   * the previous year (a record without `date` is kept), in their order.
   */
  lemma CleanedExact(data: seq<Record>, previousYear: string)
    ensures IsSubsequence(Cleaned(data, previousYear), data)
    ensures forall x :: x in Cleaned(data, previousYear) <==> x in data && !(previousYear <= DateOf(x))
  {
    FilterSubsequence(data, KeepsRecord(previousYear));
    forall x ensures x in Cleaned(data, previousYear) <==> x in data && !(previousYear <= DateOf(x)) {
      FilterMembers(data, KeepsRecord(previousYear), x);
    }
  }

  /** Cleaning a cleaned file removes nothing more. */
  lemma CleanedIdempotent(data: seq<Record>, previousYear: string)
    ensures Cleaned(Cleaned(data, previousYear), previousYear) == Cleaned(data, previousYear)
    ensures CleanupFile(Cleaned(data, previousYear), previousYear).None?
  {
    FilterIdempotent(data, KeepsRecord(previousYear));
  }

  /** A file is rewritten exactly when it holds a record of the previous year. */
  lemma CleanupRewritesIff(data: seq<Record>, previousYear: string)
    ensures CleanupFile(data, previousYear).Some? <==>
              exists i | 0 <= i < |data| :: previousYear <= DateOf(data[i])
  {
    FilterShorter(data, KeepsRecord(previousYear));
    if exists i | 0 <= i < |data| :: !KeepsRecord(previousYear)(data[i]) {
      var i :| 0 <= i < |data| && !KeepsRecord(previousYear)(data[i]);
      assert previousYear <= DateOf(data[i]);
    }
    if exists i | 0 <= i < |data| :: previousYear <= DateOf(data[i]) {
      var i :| 0 <= i < |data| && previousYear <= DateOf(data[i]);
      assert !KeepsRecord(previousYear)(data[i]);
    }
  }

  /**
   * `cleanup_previous_year_data`: on a clean-up day, the `.json` files of
   * the current year's folder (None when the folder does not exist) that
   * lose records, with their new contents; no file otherwise.
   */
  function Cleanup(today: Date, folder: Option<map<string, seq<Record>>>): (writes: map<string, seq<Record>>)
    requires ValidDate(today)
    ensures !IsCleanupDay(today) || folder.None? ==> writes == map[]
    ensures folder.Some? ==> writes.Keys <= folder.value.Keys
    ensures forall f | f in writes :: IsJsonName(f) && CleanupFile(folder.value[f], PreviousYear(today)) == Some(writes[f])
    ensures IsCleanupDay(today) && folder.Some? ==>
              forall f | f in folder.value && IsJsonName(f) ::
                f in writes <==> exists i | 0 <= i < |folder.value[f]| :: PreviousYear(today) <= DateOf(folder.value[f][i])
  {
    if !IsCleanupDay(today) || folder.None? then map[]
    else
      var files := folder.value;
      var prev := PreviousYear(today);
      CleanupRewritesAll(files, prev);
      map f | f in files && IsJsonName(f) && CleanupFile(files[f], prev).Some? :: CleanupFile(files[f], prev).value
  }

  lemma CleanupRewritesAll(files: map<string, seq<Record>>, previousYear: string)
    ensures forall f | f in files ::
              CleanupFile(files[f], previousYear).Some? <==> exists i | 0 <= i < |files[f]| :: previousYear <= DateOf(files[f][i])
  {
    forall f | f in files
      ensures CleanupFile(files[f], previousYear).Some? <==> exists i | 0 <= i < |files[f]| :: previousYear <= DateOf(files[f][i])
    {
      CleanupRewritesIff(files[f], previousYear);
    }
  }

  // ------------------------------------------------ python/get_yearly_data.py

  /** The year of python/get_yearly_data.py. */
  const FilterYear: nat := 2024

  function InYear(year: string): Record -> bool
  {
    x => DateKey in x && year <= x[DateKey]
  }

  /**
   * `[item for item in data if item['date'].startswith(f'{years}')]`:
   * KeyError when a record has no `date`.
   */
  function YearlyData(data: seq<Record>, year: nat): (r: Result<seq<Record>>)
    ensures r.Err? <==> exists i | 0 <= i < |data| :: DateKey !in data[i]
    ensures r.Err? ==> r.error == KeyError(DateKey)
  {
    if forall i | 0 <= i < |data| :: DateKey in data[i] then Ok(Filter(data, InYear(NatToString(year))))
    else Err(KeyError(DateKey))
  }

  /**
   * The filter keeps exactly the records whose `date` starts with the year,
   * as an order-preserving subsequence, and filtering again changes nothing.
   */
  lemma YearlyDataExact(data: seq<Record>, year: nat)
    requires YearlyData(data, year).Ok?
    ensures var r := YearlyData(data, year).value;
            IsSubsequence(r, data)
            && (forall x :: x in r <==> x in data && NatToString(year) <= x[DateKey])
            && YearlyData(r, year) == Ok(r)
  {
    var p := InYear(NatToString(year));
    var r := Filter(data, p);
    FilterSubsequence(data, p);
    forall x ensures x in r <==> x in data && NatToString(year) <= x[DateKey] {
      FilterMembers(data, p, x);
      if x in data {
        var i :| 0 <= i < |data| && data[i] == x;
      }
    }
    FilterIdempotent(data, p);
  }

  /**
   * The script's own run: unless a record lacks `date`, the file keeps
   * exactly the records whose `date` starts with `2024`, in order.
   */
  lemma ScriptYearlyData(data: seq<Record>)
    ensures YearlyData(data, FilterYear).Ok? ==>
              var r := YearlyData(data, FilterYear).value;
              IsSubsequence(r, data) && forall x :: x in r <==> x in data && "2024" <= x[DateKey]
  {
    if YearlyData(data, FilterYear).Ok? {
      YearlyDataExact(data, FilterYear);
      assert NatToString(FilterYear) == "2024";
    }
  }
}
