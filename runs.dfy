/**
 * One market of each script revision, from the fetched API data to the
 * contents of the files it writes: the archive file of the market, its
 * yearly file(s) and its weekly file.
 *
 * Fetching, reading and writing are left to the caller: the fetched data
 * and the files as they were read come in as parameters (a missing file
 * as `None`, read as an empty list), and a run returns what it writes.
 * The markets of one revision write to different files. A revision runs
 * them in order: a market whose fetch fails is skipped, and the first
 * market whose run raises ends the whole script, so the later markets (and,
 * in python/bing_260204.py, the clean-up and index steps after the loop)
 * are never reached.
 */
module Runs {
  import opened Wrappers
  import opened Text
  import opened Dates
  import opened Records
  import opened Lists
  import opened ArchiveMerge
  import opened LegacyMerge
  import opened Enrichment
  import opened Builders

  /** What a run writes: the archive file, the yearly files by folder name, and the weekly file. */
  datatype Outputs = Outputs(current: seq<Record>, yearly: map<string, seq<Record>>, weekly: seq<Record>)

  /**
   * The files a run has written when it stops, finished or not: a file not
   * yet reached is `None` (or absent from `yearly`).
   */
  datatype Written = Written(current: Option<seq<Record>>, yearly: map<string, seq<Record>>,
                             weekly: Option<seq<Record>>)

  predicate AllValidDates(s: seq<Record>)
  {
    forall i | 0 <= i < |s| :: HasValidDate(s[i])
  }

  /** The description step keeps the `date` of every record. */
  lemma DescribeKeepsDates(images: seq<Record>, m: Option<seq<MediaItem>>, p: Option<seq<MediaItem>>, withMapLink: bool)
    requires AllValidDates(images)
    ensures |DescribeBatch(images, m, p, withMapLink)| == |images|
    ensures AllValidDates(DescribeBatch(images, m, p, withMapLink))
  {
    var afterMedia := if m.Some? then ApplyMedia(images, m.value, withMapLink) else images;
    if m.Some? {
      ApplyMediaKeepsValues(images, m.value, withMapLink);
    }
    assert forall i | 0 <= i < |afterMedia| :: DateKey in afterMedia[i] && afterMedia[i][DateKey] == images[i][DateKey];
    if p.Some? {
      ApplyMediaKeepsValues(afterMedia, p.value, withMapLink);
    }
  }

  /** Removing `_image_id` leaves every `date` in place. */
  lemma DropTempIdsKeepsDates(images: seq<Record>)
    requires AllValidDates(images)
    ensures AllValidDates(DropTempIds(images))
  {
    assert DateKey != TempIdKey;
    var out := DropTempIds(images);
    forall i | 0 <= i < |out| ensures HasValidDate(out[i]) {
      assert DateKey in out[i] && out[i][DateKey] == images[i][DateKey];
    }
  }

  // ------------------------------------------- python/bing_260204.py

  function Builder260204(lang: string, unquote: string -> string): ApiImage -> Result<Record>
  {
    image => Build260204(image, lang, unquote)
  }

  /** The batch of a market: built, described (MediaContents, then PreloadMediaContents), temporary ids removed. */
  function Batch260204(images: seq<ApiImage>, lang: string, unquote: string -> string,
                       media: Option<seq<MediaItem>>, preload: Option<seq<MediaItem>>): Result<seq<Record>>
  {
    match BuildAll(images, Builder260204(lang, unquote))
    case Err(e) => Err(e)
    case Ok(built) => Ok(DropTempIds(DescribeBatch(built, media, preload, true)))
  }

  /** Every built record has a valid `date`. */
  lemma Built260204Dated(images: seq<ApiImage>, lang: string, unquote: string -> string)
    requires BuildAll(images, Builder260204(lang, unquote)).Ok?
    ensures AllValidDates(BuildAll(images, Builder260204(lang, unquote)).value)
  {
    var built := BuildAll(images, Builder260204(lang, unquote)).value;
    forall i | 0 <= i < |built| ensures HasValidDate(built[i]) {
      assert Builder260204(lang, unquote)(images[i]) == Build260204(images[i], lang, unquote);
    }
  }

  /** Every record of a built batch has a valid `date`, and none keeps `_image_id`. */
  lemma Batch260204Facts(images: seq<ApiImage>, lang: string, unquote: string -> string,
                         media: Option<seq<MediaItem>>, preload: Option<seq<MediaItem>>)
    ensures var b := Batch260204(images, lang, unquote, media, preload);
            (b.Ok? <==> BuildAll(images, Builder260204(lang, unquote)).Ok?)
            && (b.Ok? ==> AllValidDates(b.value) && forall i | 0 <= i < |b.value| :: TempIdKey !in b.value[i])
  {
    var built := BuildAll(images, Builder260204(lang, unquote));
    if built.Ok? {
      Built260204Dated(images, lang, unquote);
      DescribeKeepsDates(built.value, media, preload, true);
      var d := DescribeBatch(built.value, media, preload, true);
      DropTempIdsKeepsDates(d);
    }
  }

  /** `get_year_from_date(img.get('date', ''))`. */
  function YearOf(x: Record, currentYear: nat): string
  {
    YearFromDate(DateOf(x), currentYear)
  }

  /** `years_involved`. */
  function YearsInvolved(batch: seq<Record>, currentYear: nat): (ys: set<string>)
    ensures forall x | x in batch :: YearOf(x, currentYear) in ys
    ensures forall y | y in ys :: exists x | x in batch :: YearOf(x, currentYear) == y
  {
    set x | x in batch :: YearOf(x, currentYear)
  }

  function InYear(year: string, currentYear: nat): Record -> bool
  {
    x => YearOf(x, currentYear) == year
  }

  /** `year_images`: the batch records of one year, in batch order. */
  function YearGroup(batch: seq<Record>, year: string, currentYear: nat): seq<Record>
  {
    Filter(batch, InYear(year, currentYear))
  }

  /** Each batch record goes to the yearly file of its own year and to no other. */
  lemma RoutingExact(batch: seq<Record>, currentYear: nat, x: Record, year: string)
    requires x in batch
    ensures x in YearGroup(batch, year, currentYear) <==> year == YearOf(x, currentYear)
  {
    FilterMembers(batch, InYear(year, currentYear), x);
  }

  /** The group of a year is an order-preserving part of the batch, and only holds records of that year. */
  lemma YearGroupFacts(batch: seq<Record>, year: string, currentYear: nat)
    ensures IsSubsequence(YearGroup(batch, year, currentYear), batch)
    ensures forall x | x in YearGroup(batch, year, currentYear) :: YearOf(x, currentYear) == year
  {
    FilterSubsequence(batch, InYear(year, currentYear));
  }

  /** The yearly file of `year` as read: empty when it does not exist. */
  function YearFile(files: map<string, seq<Record>>, year: string): seq<Record>
  {
    ReadOrEmpty(if year in files then Some(files[year]) else None)
  }

  /** The merge of one year's group into that year's file. */
  function YearlyMerge(files: map<string, seq<Record>>, batch: seq<Record>, year: string, currentYear: nat)
    : Result<seq<Record>>
  {
    MergeResult(YearFile(files, year), YearGroup(batch, year, currentYear), true)
  }

  /** The yearly merges the routing loop performs: one per year involved with a non-empty group. */
  function YearlyWrites(files: map<string, seq<Record>>, batch: seq<Record>, currentYear: nat)
    : map<string, Result<seq<Record>>>
  {
    map y | y in YearsInvolved(batch, currentYear) && YearGroup(batch, y, currentYear) != [] ::
      YearlyMerge(files, batch, y, currentYear)
  }

  /** The `if year_images:` guard never skips a year: every year involved is written. */
  lemma EveryYearWritten(files: map<string, seq<Record>>, batch: seq<Record>, currentYear: nat)
    ensures YearlyWrites(files, batch, currentYear).Keys == YearsInvolved(batch, currentYear)
  {
    forall y | y in YearsInvolved(batch, currentYear) ensures YearGroup(batch, y, currentYear) != [] {
      YearGroupNonEmpty(batch, currentYear, y);
    }
  }

  /** A year involved has at least one batch record. */
  lemma YearGroupNonEmpty(batch: seq<Record>, currentYear: nat, y: string)
    requires y in YearsInvolved(batch, currentYear)
    ensures YearGroup(batch, y, currentYear) != []
  {
    var x :| x in batch && YearOf(x, currentYear) == y;
    RoutingExact(batch, currentYear, x, y);
  }

  /**
   * A batch record with an id ends up in the yearly file of its year: after
   * a successful merge that file holds a record with that id.
   */
  lemma YearlyFileHoldsItsRecords(files: map<string, seq<Record>>, batch: seq<Record>, currentYear: nat, x: Record)
    requires x in batch && IdKey in x
    ensures var w := YearlyWrites(files, batch, currentYear);
            var y := YearOf(x, currentYear);
            y in w && (w[y].Ok? ==> x[IdKey] in ValuesOf(w[y].value, IdKey))
  {
    EveryYearWritten(files, batch, currentYear);
    RoutingExact(batch, currentYear, x, YearOf(x, currentYear));
  }

  predicate YearlyOk(w: map<string, Result<seq<Record>>>)
  {
    forall y | y in w :: w[y].Ok?
  }

  /** The years already routed and their merged files, stated year by year. */
  predicate RoutedSoFar(files: map<string, seq<Record>>, batch: seq<Record>, currentYear: nat,
                        done: set<string>, written: map<string, seq<Record>>)
  {
    (forall y | y in written :: y in done && YearGroup(batch, y, currentYear) != []
                                && YearlyMerge(files, batch, y, currentYear) == Ok(written[y]))
    && (forall y | y in done && YearGroup(batch, y, currentYear) != [] :: y in written)
  }

  /** Once every year involved is routed, every yearly merge has succeeded ... */
  lemma AllRoutedOk(files: map<string, seq<Record>>, batch: seq<Record>, currentYear: nat,
                    written: map<string, seq<Record>>)
    requires RoutedSoFar(files, batch, currentYear, YearsInvolved(batch, currentYear), written)
    ensures YearlyOk(YearlyWrites(files, batch, currentYear))
  {
    var w := YearlyWrites(files, batch, currentYear);
    forall y | y in w ensures w[y].Ok? {
      assert y in written;
    }
  }

  /** ... the files written are those of the yearly merges ... */
  lemma AllRoutedKeys(files: map<string, seq<Record>>, batch: seq<Record>, currentYear: nat,
                      written: map<string, seq<Record>>)
    requires RoutedSoFar(files, batch, currentYear, YearsInvolved(batch, currentYear), written)
    ensures written.Keys == YearlyWrites(files, batch, currentYear).Keys
  {
    var years := YearsInvolved(batch, currentYear);
    forall y | y in years ensures y in written {
      YearGroupNonEmpty(batch, currentYear, y);
    }
    assert written.Keys == years;
    EveryYearWritten(files, batch, currentYear);
  }

  /** ... and each holds the result of its year's merge. */
  lemma AllRoutedValues(files: map<string, seq<Record>>, batch: seq<Record>, currentYear: nat,
                        written: map<string, seq<Record>>)
    requires RoutedSoFar(files, batch, currentYear, YearsInvolved(batch, currentYear), written)
    ensures var w := YearlyWrites(files, batch, currentYear);
            forall y | y in written :: y in w && w[y] == Ok(written[y])
  {
    var w := YearlyWrites(files, batch, currentYear);
    forall y | y in written ensures y in w && w[y] == Ok(written[y]) {
      assert y in YearsInvolved(batch, currentYear) && YearGroup(batch, y, currentYear) != [];
    }
  }

  /** A failing yearly merge of a year involved is one of the writes, and not all of them succeed. */
  lemma RoutingFails(files: map<string, seq<Record>>, batch: seq<Record>, currentYear: nat, y: string, e: PyError)
    requires y in YearsInvolved(batch, currentYear) && YearGroup(batch, y, currentYear) != []
    requires YearlyMerge(files, batch, y, currentYear) == Err(e)
    ensures var w := YearlyWrites(files, batch, currentYear);
            !YearlyOk(w) && exists z | z in w :: w[z] == Err(e)
  {
    assert y in YearlyWrites(files, batch, currentYear);
  }

  /**
   * One pass of the routing loop: when the year has records, its file is
   * merged with its group and the result is added to the files written so
   * far; a failing merge is returned as the error.
   */
  method RouteYear(files: map<string, seq<Record>>, batch: seq<Record>, currentYear: nat, y: string,
                   done: set<string>, written: map<string, seq<Record>>)
    returns (r: Result<map<string, seq<Record>>>)
    requires RoutedSoFar(files, batch, currentYear, done, written)
    ensures r.Err? ==> YearGroup(batch, y, currentYear) != [] && YearlyMerge(files, batch, y, currentYear) == Err(r.error)
    ensures r.Ok? ==> RoutedSoFar(files, batch, currentYear, done + {y}, r.value)
  {
    var group := YearGroup(batch, y, currentYear);
    if group != [] {
      var merged := UpdateAndMergeImages(YearFile(files, y), group, true);
      if merged.Err? {
        return Err(merged.error);
      }
      return Ok(written[y := merged.value]);
    }
    return Ok(written);
  }

  /**
   * The loop over `years_involved`, in the unspecified order of a Python
   * set: each year with records gets its yearly file merged with its group
   * and written. A failing merge raises out of the loop: the files of the
   * years routed before it stay written (`written`), its own is not.
   */
  method RouteYearly(files: map<string, seq<Record>>, batch: seq<Record>, currentYear: nat)
    returns (r: Result<map<string, seq<Record>>>, written: map<string, seq<Record>>)
    ensures var w := YearlyWrites(files, batch, currentYear);
            (r.Ok? <==> YearlyOk(w))
            && (r.Ok? ==> r.value == written && written.Keys == w.Keys)
            && (forall y | y in written :: y in w && w[y] == Ok(written[y]))
            && (r.Err? ==> exists y | y in w && y !in written :: w[y] == Err(r.error))
  {
    var years := YearsInvolved(batch, currentYear);
    r, written := RouteYears(files, batch, currentYear, years);
    if r.Err? {
      var y :| y in years && y !in written && YearGroup(batch, y, currentYear) != []
               && YearlyMerge(files, batch, y, currentYear) == Err(r.error);
      RoutingFails(files, batch, currentYear, y, r.error);
      assert y in YearlyWrites(files, batch, currentYear);
    } else {
      AllRoutedOk(files, batch, currentYear, written);
      AllRoutedKeys(files, batch, currentYear, written);
    }
    forall y | y in written
      ensures var w := YearlyWrites(files, batch, currentYear); y in w && w[y] == Ok(written[y])
    {
      assert y in YearsInvolved(batch, currentYear) && YearGroup(batch, y, currentYear) != [];
    }
  }

  /**
   * The routing loop itself, over any set of years, in any order; `written`
   * holds the yearly files written, also when a merge fails part way.
   */
  method RouteYears(files: map<string, seq<Record>>, batch: seq<Record>, currentYear: nat, years: set<string>)
    returns (r: Result<map<string, seq<Record>>>, written: map<string, seq<Record>>)
    ensures r.Ok? ==> r.value == written && RoutedSoFar(files, batch, currentYear, years, written)
    ensures forall y | y in written :: y in years && YearGroup(batch, y, currentYear) != []
                                       && YearlyMerge(files, batch, y, currentYear) == Ok(written[y])
    ensures r.Err? ==> exists y | y in years && y !in written :: YearGroup(batch, y, currentYear) != []
                                                && YearlyMerge(files, batch, y, currentYear) == Err(r.error)
  {
    var remaining := years;
    written := map[];
    while remaining != {}
      invariant remaining <= years
      invariant RoutedSoFar(files, batch, currentYear, years - remaining, written)
      decreases |remaining|
    {
      var y :| y in remaining;
      var step := RouteYear(files, batch, currentYear, y, years - remaining, written);
      if step.Err? {
        assert y !in written;
        return Err(step.error), written;
      }
      written := step.value;
      assert years - (remaining - {y}) == (years - remaining) + {y};
      remaining := remaining - {y};
    }
    assert years - remaining == years;
    return Ok(written), written;
  }

  /**
   * One market of python/bing_260204.py: the batch is merged into the
   * archive file, each year's part into that year's file, and the weekly
   * file is the batch sorted latest first.
   */
  method Run260204(images: seq<ApiImage>, lang: string, unquote: string -> string,
                   media: Option<seq<MediaItem>>, preload: Option<seq<MediaItem>>,
                   currentFile: Option<seq<Record>>, yearlyFiles: map<string, seq<Record>>, currentYear: nat)
    returns (r: Result<Outputs>, disk: Written)
    ensures r.Ok? ==> disk == Written(Some(r.value.current), r.value.yearly, Some(r.value.weekly))
    ensures r.Err? ==> disk.weekly.None?
    ensures var b := Batch260204(images, lang, unquote, media, preload);
            (b.Err? ==> r == Err(b.error) && disk == Written(None, map[], None))
            && (b.Ok? ==>
                  var c := MergeResult(ReadOrEmpty(currentFile), b.value, true);
                  var w := YearlyWrites(yearlyFiles, b.value, currentYear);
                  (c.Err? ==> disk == Written(None, map[], None))
                  && (c.Ok? ==> disk.current == Some(c.value)
                                && forall y | y in disk.yearly :: y in w && w[y] == Ok(disk.yearly[y]))
                  && (c.Ok? && r.Err? ==> exists y | y in w && y !in disk.yearly :: w[y] == Err(r.error)))
    ensures var b := Batch260204(images, lang, unquote, media, preload);
            (b.Err? ==> r == Err(b.error))
            && (b.Ok? ==>
                  var c := MergeResult(ReadOrEmpty(currentFile), b.value, true);
                  var w := YearlyWrites(yearlyFiles, b.value, currentYear);
                  (r.Ok? <==> c.Ok? && YearlyOk(w))
                  && (c.Err? ==> r == Err(c.error))
                  && (c.Ok? && r.Err? ==> exists y | y in w :: w[y] == Err(r.error))
                  && (r.Ok? ==> r.value.current == c.value && Ok(r.value.weekly) == SortByDate(b.value)
                                && r.value.yearly.Keys == w.Keys
                                && forall y | y in w :: w[y] == Ok(r.value.yearly[y])))
  {
    disk := Written(None, map[], None);
    var built := BuildBatch(images, Builder260204(lang, unquote));
    if built.Err? {
      return Err(built.error), disk;
    }
    var batch := built.value;
    if media.Some? {
      batch := ProcessMediaContents(batch, media.value, true);
    }
    if preload.Some? {
      batch := ProcessMediaContents(batch, preload.value, true);
    }
    batch := RemoveTempIds(batch);
    Batch260204Facts(images, lang, unquote, media, preload);
    var current := UpdateAndMergeImages(ReadOrEmpty(currentFile), batch, true);
    if current.Err? {
      return Err(current.error), disk;
    }
    disk := disk.(current := Some(current.value));
    var yearly, yearlyWritten := RouteYearly(yearlyFiles, batch, currentYear);
    disk := disk.(yearly := yearlyWritten);
    if yearly.Err? {
      return Err(yearly.error), disk;
    }
    var weekly := SortByDate(batch).value;
    disk := disk.(weekly := Some(weekly));
    r := Ok(Outputs(current.value, yearly.value, weekly));
  }

  /** The API data of one market; the market is skipped when a fetch failed. */
  datatype Fetched = Fetched(images: seq<ApiImage>, media: Option<seq<MediaItem>>, preload: Option<seq<MediaItem>>)

  /** One market of the loop over `languages`: its code, its fetched data, and its files as read. */
  datatype Market = Market(lang: string, fetched: Option<Fetched>,
                           currentFile: Option<seq<Record>>, yearlyFiles: map<string, seq<Record>>)

  /** The market's run raises nothing: it was skipped, or its batch builds and every merge succeeds. */
  predicate MarketOk(m: Market, unquote: string -> string, currentYear: nat)
  {
    m.fetched.None? || FetchedOk(m.fetched.value, m, unquote, currentYear)
  }

  /** The batch of fetched data builds, and the archive merge and every yearly merge succeed. */
  predicate FetchedOk(f: Fetched, m: Market, unquote: string -> string, currentYear: nat)
  {
    var b := Batch260204(f.images, m.lang, unquote, f.media, f.preload);
    b.Ok? && MergeResult(ReadOrEmpty(m.currentFile), b.value, true).Ok?
    && YearlyOk(YearlyWrites(m.yearlyFiles, b.value, currentYear))
  }

  /** Every market of the list runs without raising. */
  predicate AllMarketsOk(ms: seq<Market>, unquote: string -> string, currentYear: nat)
  {
    ms == [] || (AllMarketsOk(ms[..|ms| - 1], unquote, currentYear) && MarketOk(ms[|ms| - 1], unquote, currentYear))
  }

  lemma {:induction false} AllMarketsOkIff(ms: seq<Market>, unquote: string -> string, currentYear: nat)
    ensures AllMarketsOk(ms, unquote, currentYear) <==> forall i | 0 <= i < |ms| :: MarketOk(ms[i], unquote, currentYear)
  {
    if ms != [] {
      var init := ms[..|ms| - 1];
      AllMarketsOkIff(init, unquote, currentYear);
      assert forall i | 0 <= i < |init| :: init[i] == ms[i];
    }
  }

  /** A market that raises makes every longer list of markets fail. */
  lemma {:induction false} AllMarketsOkPrefix(ms: seq<Market>, k: nat, unquote: string -> string, currentYear: nat)
    requires k < |ms| && !MarketOk(ms[k], unquote, currentYear)
    ensures !AllMarketsOk(ms, unquote, currentYear)
  {
    AllMarketsOkIff(ms, unquote, currentYear);
  }

  /** One turn of the loop over `languages`: a skipped market writes nothing; a run that raises writes no weekly file. */
  method RunMarket(m: Market, unquote: string -> string, currentYear: nat) returns (disk: Written, err: Option<PyError>)
    ensures err.None? <==> MarketOk(m, unquote, currentYear)
    ensures m.fetched.None? ==> disk == Written(None, map[], None)
    ensures m.fetched.Some? && err.None? ==> disk.current.Some? && disk.weekly.Some?
    ensures err.Some? ==> disk.weekly.None?
    ensures DiskFits(m, disk, unquote, currentYear)
  {
    if m.fetched.None? {
      return Written(None, map[], None), None;
    }
    var f := m.fetched.value;
    var r;
    r, disk := Run260204(f.images, m.lang, unquote, f.media, f.preload, m.currentFile, m.yearlyFiles, currentYear);
    err := if r.Err? then Some(r.error) else None;
  }

  /** One more market of the loop: `RunMarket` on `markets[k]`, its files appended to those of the markets before it. */
  method RunNextMarket(markets: seq<Market>, k: nat, prev: seq<Written>, unquote: string -> string, currentYear: nat)
    returns (disks: seq<Written>, err: Option<PyError>)
    requires k < |markets| && |prev| == k && AllMarketsOk(markets[..k], unquote, currentYear)
    ensures |disks| == k + 1 && disks[..k] == prev
    ensures err.None? <==> AllMarketsOk(markets[..k + 1], unquote, currentYear)
    ensures err.Some? ==> !MarketOk(markets[k], unquote, currentYear) && disks[k].weekly.None?
    ensures markets[k].fetched.None? ==> disks[k] == Written(None, map[], None)
    ensures markets[k].fetched.Some? && err.None? ==> disks[k].current.Some? && disks[k].weekly.Some?
    ensures DiskFits(markets[k], disks[k], unquote, currentYear)
  {
    var disk;
    disk, err := RunMarket(markets[k], unquote, currentYear);
    disks := prev + [disk];
    assert disks[..k] == prev;
    assert markets[..k + 1][..k] == markets[..k];
  }

  /**
   * The files a market's run leaves on disk, finished or not: nothing when
   * it was skipped, its batch did not build or the archive merge raised;
   * otherwise the merged archive and, year by year, the yearly merges. A
   * run that gets through also writes every yearly merge and the batch
   * sorted latest first as the weekly file; one that raises at a year has
   * not written that year's file, nor the weekly file.
   */
  predicate DiskFits(m: Market, d: Written, unquote: string -> string, currentYear: nat)
  {
    if m.fetched.None? then d == Written(None, map[], None)
    else
      var f := m.fetched.value;
      var b := Batch260204(f.images, m.lang, unquote, f.media, f.preload);
      if b.Err? then d == Written(None, map[], None)
      else
        var c := MergeResult(ReadOrEmpty(m.currentFile), b.value, true);
        var w := YearlyWrites(m.yearlyFiles, b.value, currentYear);
        if c.Err? then d == Written(None, map[], None)
        else
          d.current == Some(c.value)
          && (forall y | y in d.yearly :: y in w && w[y] == Ok(d.yearly[y]))
          && (YearlyOk(w) ==> d.yearly.Keys == w.Keys && d.weekly.Some? && SortByDate(b.value) == Ok(d.weekly.value))
          && (!YearlyOk(w) ==> d.weekly.None? && exists y | y in w && y !in d.yearly :: w[y].Err?)
  }

  /** Every market of the list has the files of the same position. */
  predicate DisksFit(ms: seq<Market>, ds: seq<Written>, unquote: string -> string, currentYear: nat)
  {
    |ds| == |ms|
    && (ms == [] || (DisksFit(ms[..|ms| - 1], ds[..|ds| - 1], unquote, currentYear)
                     && DiskFits(ms[|ms| - 1], ds[|ds| - 1], unquote, currentYear)))
  }

  lemma {:induction false} DisksFitIff(ms: seq<Market>, ds: seq<Written>, unquote: string -> string, currentYear: nat)
    ensures DisksFit(ms, ds, unquote, currentYear) <==>
              |ds| == |ms| && forall i | 0 <= i < |ms| :: DiskFits(ms[i], ds[i], unquote, currentYear)
  {
    if ms != [] && |ds| == |ms| {
      var n := |ms| - 1;
      DisksFitIff(ms[..n], ds[..n], unquote, currentYear);
      assert forall i | 0 <= i < n :: ms[..n][i] == ms[i] && ds[..n][i] == ds[i];
    }
  }

  /**
   * The loop over `languages` in python/bing_260204.py. A failed fetch
   * `continue`s with nothing written; a run that raises ends the script
   * after the files that market wrote, so no later market is reached.
   * `disks` holds what each market reached has written.
   */
  method RunMarkets260204(markets: seq<Market>, unquote: string -> string, currentYear: nat)
    returns (disks: seq<Written>, err: Option<PyError>)
    ensures |disks| <= |markets|
    ensures err.None? <==> AllMarketsOk(markets, unquote, currentYear)
    ensures err.None? ==> |disks| == |markets|
    ensures err.Some? ==> |disks| > 0 && !MarketOk(markets[|disks| - 1], unquote, currentYear)
                          && disks[|disks| - 1].weekly.None?
                          && AllMarketsOk(markets[..|disks| - 1], unquote, currentYear)
    ensures err.None? ==> DisksFit(markets, disks, unquote, currentYear)
    ensures DisksFit(markets[..|disks|], disks, unquote, currentYear)
  {
    disks := [];
    var k := 0;
    while k < |markets|
      invariant 0 <= k <= |markets| && |disks| == k
      invariant AllMarketsOk(markets[..k], unquote, currentYear)
      invariant DisksFit(markets[..k], disks, unquote, currentYear)
    {
      ghost var prev := disks;
      var e;
      disks, e := RunNextMarket(markets, k, disks, unquote, currentYear);
      assert markets[..k + 1][..k] == markets[..k] && markets[..k + 1][k] == markets[k];
      if e.Some? {
        AllMarketsOkPrefix(markets, k, unquote, currentYear);
        return disks, e;
      }
      k := k + 1;
    }
    assert markets[..k] == markets;
    return disks, None;
  }

  lemma YearGroupDated(batch: seq<Record>, year: string, currentYear: nat)
    requires AllValidDates(batch)
    ensures AllValidDates(YearGroup(batch, year, currentYear))
  {
    var g := YearGroup(batch, year, currentYear);
    forall i | 0 <= i < |g| ensures HasValidDate(g[i]) {
      FilterMembers(batch, InYear(year, currentYear), g[i]);
    }
  }

  /** With a dated batch, a yearly merge fails exactly when the yearly file holds a record without a valid `date`. */
  lemma YearlyMergeOk(files: map<string, seq<Record>>, batch: seq<Record>, year: string, currentYear: nat)
    requires AllValidDates(batch)
    ensures YearlyMerge(files, batch, year, currentYear).Ok? <==> AllValidDates(YearFile(files, year))
  {
    YearGroupDated(batch, year, currentYear);
  }

  /**
   * A run whose batch builds fails only because of a record on disk: the
   * archive file or the yearly file of a year involved holds a record
   * without a valid `date`.
   */
  lemma Run260204FailsOnlyOnDisk(batch: seq<Record>, currentFile: Option<seq<Record>>,
                                 yearlyFiles: map<string, seq<Record>>, currentYear: nat)
    requires AllValidDates(batch)
    ensures MergeResult(ReadOrEmpty(currentFile), batch, true).Ok? <==> AllValidDates(ReadOrEmpty(currentFile))
    ensures YearlyOk(YearlyWrites(yearlyFiles, batch, currentYear)) <==>
              forall y | y in YearsInvolved(batch, currentYear) :: AllValidDates(YearFile(yearlyFiles, y))
  {
    EveryYearWritten(yearlyFiles, batch, currentYear);
    forall y | y in YearsInvolved(batch, currentYear)
      ensures YearlyMerge(yearlyFiles, batch, y, currentYear).Ok? <==> AllValidDates(YearFile(yearlyFiles, y))
    {
      YearlyMergeOk(yearlyFiles, batch, y, currentYear);
    }
  }

  // ------------------------------------------- python/bing_251117.py

  function Builder251117(unquote: string -> string): ApiImage -> Result<Record>
  {
    image => Build251117(image, unquote)
  }

  function Batch251117(images: seq<ApiImage>, unquote: string -> string,
                       media: Option<seq<MediaItem>>, preload: Option<seq<MediaItem>>): Result<seq<Record>>
  {
    match BuildAll(images, Builder251117(unquote))
    case Err(e) => Err(e)
    case Ok(built) => Ok(DropTempIds(DescribeBatch(built, media, preload, false)))
  }

  lemma Batch251117Dated(images: seq<ApiImage>, unquote: string -> string,
                         media: Option<seq<MediaItem>>, preload: Option<seq<MediaItem>>)
    requires Batch251117(images, unquote, media, preload).Ok?
    ensures AllValidDates(Batch251117(images, unquote, media, preload).value)
  {
    var built := BuildAll(images, Builder251117(unquote)).value;
    forall i | 0 <= i < |built| ensures HasValidDate(built[i]) {
      assert Builder251117(unquote)(images[i]) == Build251117(images[i], unquote);
    }
    DescribeKeepsDates(built, media, preload, false);
    DropTempIdsKeepsDates(DescribeBatch(built, media, preload, false));
  }

  /**
   * What one market of python/bing_251117.py writes for a batch: the whole
   * batch merged into the archive file and into this year's file, and the
   * batch sorted as the weekly file.
   */
  function Store251117(batch: seq<Record>, currentFile: Option<seq<Record>>, yearlyFile: Option<seq<Record>>,
                       today: Date): Result<Outputs>
  {
    match MergeResult(ReadOrEmpty(currentFile), batch, false)
    case Err(e) => Err(e)
    case Ok(c) =>
      match MergeResult(ReadOrEmpty(yearlyFile), batch, false)
      case Err(e) => Err(e)
      case Ok(y) =>
        match SortByDate(batch)
        case Err(e) => Err(e)
        case Ok(weekly) => Ok(Outputs(c, map[NatToString(ThisYear(today)) := y], weekly))
  }

  /** For a built batch the run fails exactly when a file holds a record without a valid `date`. */
  lemma Store251117Succeeds(batch: seq<Record>, currentFile: Option<seq<Record>>, yearlyFile: Option<seq<Record>>,
                            today: Date)
    requires AllValidDates(batch)
    ensures Store251117(batch, currentFile, yearlyFile, today).Ok? <==>
              AllValidDates(ReadOrEmpty(currentFile)) && AllValidDates(ReadOrEmpty(yearlyFile))
  {
    var c := MergeResult(ReadOrEmpty(currentFile), batch, false);
    var y := MergeResult(ReadOrEmpty(yearlyFile), batch, false);
    assert SortByDate(batch).Ok?;
    assert c.Ok? <==> AllValidDates(ReadOrEmpty(currentFile));
    assert y.Ok? <==> AllValidDates(ReadOrEmpty(yearlyFile));
  }

  /** The yearly file is the one of tomorrow's year, and the weekly file is the whole batch, latest first. */
  lemma Store251117Outputs(batch: seq<Record>, currentFile: Option<seq<Record>>, yearlyFile: Option<seq<Record>>,
                           today: Date)
    requires Store251117(batch, currentFile, yearlyFile, today).Ok?
    ensures var r := Store251117(batch, currentFile, yearlyFile, today).value;
            r.yearly.Keys == {NatToString(ThisYear(today))}
            && multiset(r.weekly) == multiset(batch)
            && forall i, j | 0 <= i < j < |r.weekly| :: DateLe(DateValue(r.weekly[j]), DateValue(r.weekly[i]))
  {
    var c := MergeResult(ReadOrEmpty(currentFile), batch, false).value;
    var y := MergeResult(ReadOrEmpty(yearlyFile), batch, false).value;
    var w := SortByDate(batch).value;
    assert Store251117(batch, currentFile, yearlyFile, today) == Ok(Outputs(c, map[NatToString(ThisYear(today)) := y], w));
  }

  // ---------------------------------- python/bing_all_langs_fullstartdate.py

  function BuilderAllLangsId(unquote: string -> string): ApiImage -> Result<Record>
  {
    image => BuildAllLangsId(image, unquote)
  }

  /** The batch: built, then described through the `Ssd` loop. */
  function Batch2022(images: seq<ApiImage>, unquote: string -> string, media: Option<seq<MediaItem>>): Result<seq<Record>>
  {
    match BuildAll(images, BuilderAllLangsId(unquote))
    case Err(e) => Err(e)
    case Ok(built) => SsdAttach(built, media)
  }

  /** Every record of a built and described batch carries `fullstartdate`. */
  lemma Batch2022Ids(images: seq<ApiImage>, unquote: string -> string, media: Option<seq<MediaItem>>)
    requires Batch2022(images, unquote, media).Ok?
    ensures forall x | x in Batch2022(images, unquote, media).value :: IdKey in x
  {
    var built := BuildAll(images, BuilderAllLangsId(unquote)).value;
    forall i | 0 <= i < |built| ensures IdKey in built[i] {
      assert BuilderAllLangsId(unquote)(images[i]) == BuildAllLangsId(images[i], unquote);
    }
    SsdApplyKeepsIds(built, media.value);
  }

  /** What one market of python/bing_all_langs_fullstartdate.py writes: `merge_images` by `fullstartdate` into both files. */
  function Store2022(batch: seq<Record>, currentFile: Option<seq<Record>>, yearlyFile: Option<seq<Record>>,
                     today: Date): Result<Outputs>
  {
    var c :- MergeImagesSpec(ReadOrEmpty(currentFile), batch, Some(IdKey));
    var y :- MergeImagesSpec(ReadOrEmpty(yearlyFile), batch, Some(IdKey));
    var weekly :- SortByDate(batch);
    Ok(Outputs(c, map[NatToString(ThisYear(today)) := y], weekly))
  }

  /**
   * When every batch record carries `fullstartdate`, `merge_images` always
   * takes the id path: both files keep their records and every batch id
   * is in both of them.
   */
  lemma Store2022Facts(batch: seq<Record>, currentFile: Option<seq<Record>>, yearlyFile: Option<seq<Record>>,
                       today: Date)
    requires forall x | x in batch :: IdKey in x
    requires Store2022(batch, currentFile, yearlyFile, today).Ok?
    ensures var r := Store2022(batch, currentFile, yearlyFile, today).value;
            var y := r.yearly[NatToString(ThisYear(today))];
            multiset(ReadOrEmpty(currentFile)) <= multiset(r.current)
            && multiset(ReadOrEmpty(yearlyFile)) <= multiset(y)
            && (forall x | x in batch :: x[IdKey] in ValuesOf(r.current, IdKey) && x[IdKey] in ValuesOf(y, IdKey))
            && multiset(r.weekly) == multiset(batch)
  {
    MergeImagesContents(ReadOrEmpty(currentFile), batch, Some(IdKey));
    MergeImagesContents(ReadOrEmpty(yearlyFile), batch, Some(IdKey));
  }

  // --------------------------------------------- python/bing_all_langs.py

  /** What one market of python/bing_all_langs.py writes: the date-only merge into both files, each sorted. */
  function StoreAllLangs(batch: seq<Record>, currentFile: Option<seq<Record>>, yearlyFile: Option<seq<Record>>,
                         today: Date): Result<Outputs>
  {
    var merged :- AllLangsMergeSpec(ReadOrEmpty(currentFile), ReadOrEmpty(yearlyFile), batch);
    var weekly :- SortByDate(batch);
    Ok(Outputs(merged.0, map[NatToString(today.year) := merged.1], weekly))
  }

  /** The yearly folder of python/bing_all_langs.py is the current year, and both files keep their records. */
  lemma StoreAllLangsFacts(batch: seq<Record>, currentFile: Option<seq<Record>>, yearlyFile: Option<seq<Record>>,
                           today: Date)
    requires StoreAllLangs(batch, currentFile, yearlyFile, today).Ok?
    ensures var r := StoreAllLangs(batch, currentFile, yearlyFile, today).value;
            r.yearly.Keys == {NatToString(today.year)}
            && multiset(ReadOrEmpty(currentFile)) <= multiset(r.current)
            && multiset(ReadOrEmpty(yearlyFile)) <= multiset(r.yearly[NatToString(today.year)])
            && multiset(r.weekly) == multiset(batch)
  {
    var merged := AllLangsMergeSpec(ReadOrEmpty(currentFile), ReadOrEmpty(yearlyFile), batch);
    var w := SortByDate(batch);
    assert merged.Ok? && w.Ok?;
    assert StoreAllLangs(batch, currentFile, yearlyFile, today)
        == Ok(Outputs(merged.value.0, map[NatToString(today.year) := merged.value.1], w.value));
    AllLangsIndependent(ReadOrEmpty(currentFile), ReadOrEmpty(yearlyFile), batch);
  }

  // ------------------------------------------------------ python/bing.py

  /** python/bing.py: the date-only append into the one archive file; the weekly file is the batch. */
  function RunDaily(images: seq<ApiImage>, file: Option<seq<Record>>): Result<(seq<Record>, seq<Record>)>
  {
    var b :- BuildAll(images, BuildDaily);
    var merged :- AppendByDate(ReadOrEmpty(file), b);
    Ok((merged, b))
  }

  /**
   * The weekly file of python/bing.py is the built batch in fetch order;
   * the archive keeps its records in their order, and the run fails on an
   * image that does not build or an archive record without `date`.
   */
  lemma RunDailyFacts(images: seq<ApiImage>, file: Option<seq<Record>>)
    ensures var r := RunDaily(images, file);
            var b := BuildAll(images, BuildDaily);
            (r.Ok? <==> b.Ok? && AllDated(ReadOrEmpty(file)))
            && (r.Ok? ==> r.value.1 == b.value && ReadOrEmpty(file) <= r.value.0)
  {
    var b := BuildAll(images, BuildDaily);
    if b.Ok? {
      assert forall i | 0 <= i < |b.value| :: DateKey in b.value[i];
      AppendByDateFacts(ReadOrEmpty(file), b.value);
    }
  }
}
