/**
 * assets/script.js: the gallery page of one market's archive. It keeps
 * the first record of every `date`, narrows the list by month and by a
 * search text, shows 31 records a page, and draws the page buttons.
 *
 * A record is a JSON object whose values are strings; a missing key is
 * JavaScript's `undefined`, and a field is "truthy" when it is present
 * and not the empty string.
 */
module Gallery {
  import opened Wrappers
  import opened Text
  import opened Records
  import opened Lists
  import opened Scanners

  /** `config.itemsPerPage`. */
  const ItemsPerPage: nat := 31

  // ------------------------------------------------------------ fields

  /** `item.k`: None stands for `undefined`. */
  function Get(item: Record, k: string): Option<string>
  {
    if k in item then Some(item[k]) else None
  }

  predicate Truthy(item: Record, k: string)
  {
    k in item && item[k] != ""
  }

  /** `item.k || ''`. */
  function Field(item: Record, k: string): string
  {
    if k in item then item[k] else ""
  }

  /** `item.a || item.b || ''`. */
  function Either(item: Record, a: string, b: string): (r: string)
    ensures r == "" <==> !Truthy(item, a) && !Truthy(item, b)
  {
    if Truthy(item, a) then item[a] else Field(item, b)
  }

  // ------------------------------------------------------------- dedup

  /** The key of the `seen` filter: `item.date`, `undefined` included. */
  function DateField(item: Record): Option<string>
  {
    Get(item, DateKey)
  }

  /** The filter after loading: the first record of every `date`. */
  function DedupByDate(data: seq<Record>): seq<Record>
  {
    Dedup(data, DateField)
  }

  /**
   * The kept records are an order-preserving subsequence with pairwise
   * different dates; a record is kept exactly when no earlier record has
   * its date, and every date of the input survives.
   */
  lemma DedupByDateExact(data: seq<Record>)
    ensures IsSubsequence(DedupByDate(data), data)
    ensures forall i, j | 0 <= i < j < |DedupByDate(data)| :: DateField(DedupByDate(data)[i]) != DateField(DedupByDate(data)[j])
    ensures forall i | 0 <= i < |data| && (forall j | 0 <= j < i :: DateField(data[j]) != DateField(data[i])) ::
              data[i] in DedupByDate(data)
    ensures forall x | x in DedupByDate(data) :: exists i | 0 <= i < |data| ::
              data[i] == x && forall j | 0 <= j < i :: DateField(data[j]) != DateField(x)
    ensures KeySet(DedupByDate(data), DateField) == KeySet(data, DateField)
    ensures DedupByDate(DedupByDate(data)) == DedupByDate(data)
  {
    DedupFromFacts(data, DateField, {});
    DedupOnlyFirsts(data, DateField, {});
    forall i | 0 <= i < |data| && (forall j | 0 <= j < i :: DateField(data[j]) != DateField(data[i]))
      ensures data[i] in DedupByDate(data)
    {
      DedupKeepsFirst(data, DateField, {}, i);
    }
    DedupIdempotent(data, DateField);
  }

  // ------------------------------------------------------ month filter

  /** `monthVal && monthVal !== 'all'`. */
  predicate MonthActive(monthVal: string)
  {
    monthVal != "" && monthVal != "all"
  }

  function InMonth(monthVal: string): Record -> bool
  {
    x => monthVal <= DateOf(x)
  }

  /**
   * `data.filter(item => item.date.startsWith(monthVal))` when a month is
   * chosen: a record without `date` makes it throw a TypeError.
   */
  function MonthFilter(data: seq<Record>, monthVal: string): Result<seq<Record>>
  {
    if !MonthActive(monthVal) then Ok(data)
    else if exists i | 0 <= i < |data| :: DateKey !in data[i] then Err(TypeError("item.date is undefined"))
    else Ok(Filter(data, InMonth(monthVal)))
  }

  /**
   * Without a month everything is kept; with one, the filter fails exactly
   * when a record has no `date`, and otherwise keeps, in order, exactly the
   * records whose `date` starts with the month.
   */
  lemma MonthFilterExact(data: seq<Record>, monthVal: string)
    ensures !MonthActive(monthVal) ==> MonthFilter(data, monthVal) == Ok(data)
    ensures MonthFilter(data, monthVal).Err? <==>
              MonthActive(monthVal) && exists i | 0 <= i < |data| :: DateKey !in data[i]
    ensures MonthFilter(data, monthVal).Ok? ==> IsSubsequence(MonthFilter(data, monthVal).value, data)
    ensures MonthActive(monthVal) && MonthFilter(data, monthVal).Ok? ==>
              forall x :: x in MonthFilter(data, monthVal).value <==> x in data && monthVal <= x[DateKey]
  {
    if !MonthActive(monthVal) {
      IsSubsequenceRefl(data);
    } else if forall i | 0 <= i < |data| :: DateKey in data[i] {
      FilterSubsequence(data, InMonth(monthVal));
      forall x ensures x in Filter(data, InMonth(monthVal)) <==> x in data && monthVal <= x[DateKey] {
        FilterMembers(data, InMonth(monthVal), x);
      }
    }
  }

  lemma {:induction false} IsSubsequenceRefl(s: seq<Record>)
    ensures IsSubsequence(s, s)
  {
    if s != [] {
      IsSubsequenceRefl(s[1..]);
    }
  }

  // ----------------------------------------------------- search filter

  /** The `OHR.` keyword of `item.urlbase || item.url`, lower-cased, or ''. */
  function UrlKeywordOf(item: Record): string
  {
    var urlStr := Either(item, UrlBaseKey, UrlKey);
    if urlStr != "" && UrlKeyword(urlStr).Some? then ToLower(UrlKeyword(urlStr).value) else ""
  }

  /** The search test for one record and an already lower-cased query. */
  predicate Matches(item: Record, query: string)
  {
    Contains(ToLower(Either(item, KeywordKey, CopyrightKey)), query)
    || Contains(ToLower(Field(item, DescriptionKey)), query)
    || Contains(ToLower(Field(item, CopyrightKey)), query)
    || Contains(UrlKeywordOf(item), query)
  }

  function MatchesQuery(query: string): Record -> bool
  {
    x => Matches(x, query)
  }

  /** The search filter: no filtering for an empty query. */
  function SearchFilter(data: seq<Record>, searchQuery: string): seq<Record>
  {
    if searchQuery == "" then data else Filter(data, MatchesQuery(ToLower(searchQuery)))
  }

  /**
   * A non-empty query keeps, in order, exactly the records whose title,
   * description, copyright or picture keyword contains it, ignoring case:
   * a query and its lower-cased form select the same records.
   */
  lemma SearchFilterExact(data: seq<Record>, searchQuery: string)
    ensures IsSubsequence(SearchFilter(data, searchQuery), data)
    ensures searchQuery == "" ==> SearchFilter(data, searchQuery) == data
    ensures searchQuery != "" ==> forall x :: x in SearchFilter(data, searchQuery) <==>
              x in data && Matches(x, ToLower(searchQuery))
    ensures SearchFilter(data, ToLower(searchQuery)) == SearchFilter(data, searchQuery)
  {
    if searchQuery == "" {
      IsSubsequenceRefl(data);
    } else {
      var p := MatchesQuery(ToLower(searchQuery));
      FilterSubsequence(data, p);
      forall x ensures x in Filter(data, p) <==> x in data && Matches(x, ToLower(searchQuery)) {
        FilterMembers(data, p, x);
      }
    }
    ToLowerIdempotent(searchQuery);
  }

  lemma ToLowerIdempotent(s: string)
    ensures ToLower(ToLower(s)) == ToLower(s)
  {
  }

  // ------------------------------------------------------------- pages

  /** `slice`'s index: a negative one counts from the end; both are clamped. */
  function SliceIndex(n: nat, i: int): (r: nat)
    ensures r <= n
    ensures 0 <= i <= n ==> r == i
  {
    if i < 0 then (if n + i < 0 then 0 else n + i) else if i > n then n else i
  }

  /** JavaScript's `s.slice(start, end)`. */
  function JsSlice<T>(s: seq<T>, start: int, end: int): seq<T>
  {
    var a := SliceIndex(|s|, start);
    var b := SliceIndex(|s|, end);
    if a < b then s[a..b] else []
  }

  /** `filteredData.slice((currentPage - 1) * 31, (currentPage - 1) * 31 + 31)`. */
  function PageSlice(data: seq<Record>, page: int): seq<Record>
  {
    var start := (page - 1) * ItemsPerPage;
    JsSlice(data, start, start + ItemsPerPage)
  }

  /** `Math.ceil(n / 31)`. */
  function TotalPages(n: nat): nat
  {
    (n + ItemsPerPage - 1) / ItemsPerPage
  }

  /** The page count is the least number of 31-record pages that hold the list. */
  lemma TotalPagesCeiling(n: nat)
    ensures n <= TotalPages(n) * ItemsPerPage
    ensures TotalPages(n) > 0 ==> (TotalPages(n) - 1) * ItemsPerPage < n
  {
  }

  /**
   * Record `i` is shown on page `i / 31 + 1` at place `i % 31`; pages
   * 1 to TotalPages - 1 are full, and page 0 and the pages after the last
   * are empty.
   */
  lemma PageSliceExact(data: seq<Record>, page: int)
    ensures 1 <= page ==>
              PageSlice(data, page) == data[Clamp((page - 1) * ItemsPerPage, |data|)..Clamp(page * ItemsPerPage, |data|)]
    ensures 1 <= page < TotalPages(|data|) ==> |PageSlice(data, page)| == ItemsPerPage
    ensures page == 0 || page > TotalPages(|data|) ==> PageSlice(data, page) == []
    ensures forall i | 0 <= i < |data| ::
              i % ItemsPerPage < |PageSlice(data, i / ItemsPerPage + 1)|
              && PageSlice(data, i / ItemsPerPage + 1)[i % ItemsPerPage] == data[i]
  {
    forall i | 0 <= i < |data|
      ensures i % ItemsPerPage < |PageSlice(data, i / ItemsPerPage + 1)|
              && PageSlice(data, i / ItemsPerPage + 1)[i % ItemsPerPage] == data[i]
    {
      var q := i / ItemsPerPage;
      assert q * ItemsPerPage <= i < q * ItemsPerPage + ItemsPerPage;
    }
  }

  function Clamp(i: nat, n: nat): (r: nat)
    ensures r <= n && (i <= n ==> r == i)
  {
    if i > n then n else i
  }

  // -------------------------------------------------------- pagination

  /** One element of the pagination bar: a page button or the `...` marker. */
  datatype PageEntry = Button(page: int) | Dots

  function Max(a: int, b: int): int { if a < b then b else a }
  function Min(a: int, b: int): int { if a < b then a else b }

  /** The first button after 1: `Math.max(2, cp - 2)`, pulled back near the last page. */
  function WindowStart(tp: int, cp: int): int
  {
    if cp > tp - 4 then Max(2, tp - 4) else Max(2, cp - 2)
  }

  /** The last button before `tp`: `Math.min(tp - 1, cp + 2)`, pushed out near page 1. */
  function WindowEnd(tp: int, cp: int): int
  {
    if cp < 5 then Min(tp - 1, 5) else Min(tp - 1, cp + 2)
  }

  /** The buttons `lo` to `hi`, in order. */
  function Buttons(lo: int, hi: int): (r: seq<PageEntry>)
    ensures |r| == if lo <= hi then hi - lo + 1 else 0
    ensures forall k | 0 <= k < |r| :: r[k] == Button(lo + k)
    decreases hi - lo
  {
    if hi < lo then [] else Buttons(lo, hi - 1) + [Button(hi)]
  }

  function DotsIf(c: bool): seq<PageEntry>
  {
    if c then [Dots] else []
  }

  /** Button 1, optional dots, the buttons `lo` to `hi`, optional dots, button `tp`. */
  function Bar(tp: int, lo: int, hi: int, dotsAfterFirst: bool, dotsBeforeLast: bool): seq<PageEntry>
  {
    [Button(1)] + DotsIf(dotsAfterFirst) + Buttons(lo, hi) + DotsIf(dotsBeforeLast) + [Button(tp)]
  }

  /**
   * The bar `renderPagination` draws for `tp` pages on page `cp`: nothing
   * for a single page; else button 1, dots when `cp > 4`, the window,
   * dots when `cp < tp - 3`, and button `tp`.
   */
  function Pagination(tp: int, cp: int): seq<PageEntry>
  {
    if tp <= 1 then [] else Bar(tp, WindowStart(tp, cp), WindowEnd(tp, cp), cp > 4, cp < tp - 3)
  }

  /** The window lies strictly between the first and the last page, and is empty only for two pages. */
  lemma WindowBounds(tp: int, cp: int)
    requires tp >= 2
    ensures 2 <= WindowStart(tp, cp) && WindowEnd(tp, cp) <= tp - 1
    ensures WindowStart(tp, cp) <= WindowEnd(tp, cp) + 1
    ensures tp >= 3 ==> WindowStart(tp, cp) <= WindowEnd(tp, cp)
    ensures tp == 2 ==> WindowStart(tp, cp) == 2 && WindowEnd(tp, cp) == 1
    ensures 2 <= cp <= tp - 1 ==> WindowStart(tp, cp) <= cp <= WindowEnd(tp, cp)
  {
  }

  function B(c: bool): nat { if c then 1 else 0 }

  /** The entry at place `k` of a bar. */
  function BarEntry(tp: int, lo: int, hi: int, d1: bool, d2: bool, k: int): PageEntry
  {
    var n1 := 1 + B(d1);
    var n2 := n1 + (hi - lo + 1);
    if k == 0 then Button(1)
    else if k < n1 then Dots
    else if k < n2 then Button(lo + k - n1)
    else if k < n2 + B(d2) then Dots
    else Button(tp)
  }

  lemma BarIndex(tp: int, lo: int, hi: int, d1: bool, d2: bool)
    requires lo <= hi + 1
    ensures |Bar(tp, lo, hi, d1, d2)| == 2 + B(d1) + (hi - lo + 1) + B(d2)
    ensures forall k | 0 <= k < |Bar(tp, lo, hi, d1, d2)| :: Bar(tp, lo, hi, d1, d2)[k] == BarEntry(tp, lo, hi, d1, d2, k)
  {
    var a := [Button(1)] + DotsIf(d1);
    var w := Buttons(lo, hi);
    var c := DotsIf(d2) + [Button(tp)];
    var r := Bar(tp, lo, hi, d1, d2);
    assert r == a + w + c;
    forall k | 0 <= k < |r| ensures r[k] == BarEntry(tp, lo, hi, d1, d2, k) {
      if k < |a| {
        assert r[k] == a[k];
      } else if k < |a| + |w| {
        assert r[k] == w[k - |a|];
      } else {
        assert r[k] == c[k - |a| - |w|];
      }
    }
  }

  /** Page numbers strictly increase along the bar. */
  predicate Increasing(r: seq<PageEntry>)
  {
    forall i, j | 0 <= i < j < |r| && r[i].Button? && r[j].Button? :: r[i].page < r[j].page
  }

  /**
   * For two or more pages the bar starts with button 1 and ends with button
   * `tp`, its page numbers strictly increase, and the buttons between lie
   * in [2, tp - 1].
   */
  lemma PaginationShape(tp: int, cp: int)
    requires tp >= 2
    ensures var r := Pagination(tp, cp);
            |r| >= 2 && r[0] == Button(1) && r[|r| - 1] == Button(tp)
            && Increasing(r)
            && (forall k | 0 < k < |r| - 1 && r[k].Button? :: 2 <= r[k].page <= tp - 1)
  {
    var lo, hi := WindowStart(tp, cp), WindowEnd(tp, cp);
    WindowBounds(tp, cp);
    BarEnds(tp, lo, hi, cp > 4, cp < tp - 3);
    BarIncreasing(tp, lo, hi, cp > 4, cp < tp - 3);
  }

  /** A bar whose window lies in [2, tp - 1] runs from button 1 to button `tp` with its other buttons between. */
  lemma BarEnds(tp: int, lo: int, hi: int, d1: bool, d2: bool)
    requires 2 <= lo <= hi + 1 && hi <= tp - 1
    ensures var r := Bar(tp, lo, hi, d1, d2);
            |r| >= 2 && r[0] == Button(1) && r[|r| - 1] == Button(tp)
            && (forall k | 0 < k < |r| - 1 && r[k].Button? :: 2 <= r[k].page <= tp - 1)
  {
    BarIndex(tp, lo, hi, d1, d2);
  }

  lemma BarIncreasing(tp: int, lo: int, hi: int, d1: bool, d2: bool)
    requires 2 <= lo <= hi + 1 && hi <= tp - 1
    ensures Increasing(Bar(tp, lo, hi, d1, d2))
  {
    BarIndex(tp, lo, hi, d1, d2);
  }

  /** The current page, when it is one of the pages, has a button. */
  lemma PaginationShowsCurrent(tp: int, cp: int)
    requires 2 <= tp && 1 <= cp <= tp
    ensures Button(cp) in Pagination(tp, cp)
  {
    WindowBounds(tp, cp);
    BarShowsPage(tp, WindowStart(tp, cp), WindowEnd(tp, cp), cp > 4, cp < tp - 3, cp);
  }

  /**
   * Dots can only sit next to the first or the last button. With three or
   * more pages, dots follow button 1 exactly when `cp > 4` and precede the
   * last button exactly when `cp < tp - 3`.
   */
  lemma PaginationDots(tp: int, cp: int)
    requires tp >= 2
    ensures var r := Pagination(tp, cp);
            forall k | 0 <= k < |r| && r[k] == Dots :: k == 1 || k == |r| - 2
    ensures tp >= 3 ==> var r := Pagination(tp, cp);
              (r[1] == Dots <==> cp > 4) && (r[|r| - 2] == Dots <==> cp < tp - 3)
  {
    WindowBounds(tp, cp);
    BarIndex(tp, WindowStart(tp, cp), WindowEnd(tp, cp), cp > 4, cp < tp - 3);
  }

  /**
   * The bar as written: with 7 pages on page 4 it shows 1 3 4 5 7, so
   * pages 2 and 6 are neither shown nor marked; with 6 pages on page 5 it
   * draws dots between 1 and 2, where no page is skipped.
   */
  lemma PaginationUnmarkedGaps()
    ensures Pagination(7, 4) == [Button(1), Button(3), Button(4), Button(5), Button(7)]
    ensures Pagination(6, 5) == [Button(1), Dots, Button(2), Button(3), Button(4), Button(5), Button(6)]
  {
    assert Buttons(3, 5) == [Button(3), Button(4), Button(5)];
    assert Buttons(2, 5) == [Button(2), Button(3), Button(4), Button(5)];
  }

  /** The bar with the dots decided by the window: dots exactly where pages are skipped. */
  function MarkedPagination(tp: int, cp: int): seq<PageEntry>
  {
    if tp <= 1 then []
    else
      var lo, hi := WindowStart(tp, cp), WindowEnd(tp, cp);
      Bar(tp, lo, hi, lo > 2, hi < tp - 1)
  }

  /** Neighbouring buttons show consecutive pages; dots sit between two buttons whose pages are not. */
  predicate WellMarked(r: seq<PageEntry>)
  {
    (forall k | 0 <= k < |r| - 1 && r[k].Button? && r[k + 1].Button? :: r[k + 1].page == r[k].page + 1)
    && (forall k | 0 <= k < |r| && r[k].Dots? ::
          0 < k < |r| - 1 && r[k - 1].Button? && r[k + 1].Button? && r[k + 1].page > r[k - 1].page + 1)
  }

  /**
   * The corrected bar runs from button 1 to button `tp` and marks every
   * skipped run of pages and nothing else.
   */
  lemma MarkedPaginationGaps(tp: int, cp: int)
    requires tp >= 2
    ensures var r := MarkedPagination(tp, cp);
            |r| >= 2 && r[0] == Button(1) && r[|r| - 1] == Button(tp) && WellMarked(r)
  {
    var lo, hi := WindowStart(tp, cp), WindowEnd(tp, cp);
    WindowBounds(tp, cp);
    assert MarkedPagination(tp, cp) == Bar(tp, lo, hi, lo > 2, hi < tp - 1);
    BarNeighbours(tp, lo, hi);
    BarDots(tp, lo, hi);
  }

  /** The corrected bar still shows the current page. */
  lemma MarkedPaginationShowsCurrent(tp: int, cp: int)
    requires 2 <= tp && 1 <= cp <= tp
    ensures Button(cp) in MarkedPagination(tp, cp)
  {
    var lo, hi := WindowStart(tp, cp), WindowEnd(tp, cp);
    WindowBounds(tp, cp);
    BarShowsPage(tp, lo, hi, lo > 2, hi < tp - 1, cp);
  }

  /** A bar shows every page of its window and its two ends. */
  lemma BarShowsPage(tp: int, lo: int, hi: int, d1: bool, d2: bool, p: int)
    requires lo <= hi + 1 && (p == 1 || p == tp || lo <= p <= hi)
    ensures Button(p) in Bar(tp, lo, hi, d1, d2)
  {
    BarIndex(tp, lo, hi, d1, d2);
    var r := Bar(tp, lo, hi, d1, d2);
    if p == 1 {
      assert r[0] == Button(p);
    } else if p == tp {
      assert r[|r| - 1] == Button(p);
    } else {
      assert r[1 + B(d1) + p - lo] == Button(p);
    }
  }

  lemma BarNeighbours(tp: int, lo: int, hi: int)
    requires 2 <= lo && hi <= tp - 1 && (lo <= hi || (tp == 2 && lo == 2 && hi == 1))
    ensures var r := Bar(tp, lo, hi, lo > 2, hi < tp - 1);
            |r| >= 2 && r[0] == Button(1) && r[|r| - 1] == Button(tp)
            && forall k | 0 <= k < |r| - 1 && r[k].Button? && r[k + 1].Button? :: r[k + 1].page == r[k].page + 1
  {
    BarIndex(tp, lo, hi, lo > 2, hi < tp - 1);
  }

  lemma BarDots(tp: int, lo: int, hi: int)
    requires 2 <= lo && hi <= tp - 1 && (lo <= hi || (tp == 2 && lo == 2 && hi == 1))
    ensures var r := Bar(tp, lo, hi, lo > 2, hi < tp - 1);
            forall k | 0 <= k < |r| && r[k].Dots? ::
              0 < k < |r| - 1 && r[k - 1].Button? && r[k + 1].Button? && r[k + 1].page > r[k - 1].page + 1
  {
    BarIndex(tp, lo, hi, lo > 2, hi < tp - 1);
  }

  /** `renderPagination`: button 1, the dots, the window, the dots and the last button. */
  method RenderPagination(count: nat, currentPage: int) returns (entries: seq<PageEntry>)
    ensures entries == Pagination(TotalPages(count), currentPage)
  {
    var totalPages: int := TotalPages(count);
    if totalPages <= 1 {
      return [];
    }
    entries := [Button(1)];
    if currentPage > 4 {
      entries := entries + [Dots];
    }
    assert entries == [Button(1)] + DotsIf(currentPage > 4);
    var start := Max(2, currentPage - 2);
    var end := Min(totalPages - 1, currentPage + 2);
    if currentPage < 5 {
      end := Min(totalPages - 1, 5);
    }
    if currentPage > totalPages - 4 {
      start := Max(2, totalPages - 4);
    }
    assert start == WindowStart(totalPages, currentPage) && end == WindowEnd(totalPages, currentPage);
    entries := AddButtons(entries, start, end);
    ghost var upToWindow := entries;
    if currentPage < totalPages - 3 {
      entries := entries + [Dots];
    }
    assert entries == upToWindow + DotsIf(currentPage < totalPages - 3);
    entries := entries + [Button(totalPages)];
    assert entries == Bar(totalPages, start, end, currentPage > 4, currentPage < totalPages - 3);
  }

  /** The loop `for (let i = start; i <= end; i++) addBtn(i)`. */
  method AddButtons(entries: seq<PageEntry>, start: int, end: int) returns (r: seq<PageEntry>)
    ensures r == entries + Buttons(start, end)
  {
    r := entries;
    var i := start;
    while i <= end
      invariant i == start || start <= i <= end + 1
      invariant r == entries + Buttons(start, i - 1)
      decreases end - i
    {
      r := r + [Button(i)];
      i := i + 1;
    }
  }

  // ------------------------------------------------------ picture URLs

  /** `RESOLUTION_MAP`. */
  const ResolutionSuffixes: map<string, string> := map[
    "thumb" := "_1920x1080.jpg&w=557",
    "medium" := "_800x480.jpg",
    "full" := "_1920x1080.jpg",
    "uhd" := "_UHD.jpg",
    "2k" := "_UHD.jpg&w=2560&qlt=90",
    "wallpaper" := "_1920x1200.jpg",
    "mobile" := "_1080x1920.jpg",
    "default" := "_1920x1080.jpg"]

  /** `RESOLUTION_MAP[type] || RESOLUTION_MAP.default`. */
  function ResolutionSuffix(kind: string): string
  {
    if kind in ResolutionSuffixes then ResolutionSuffixes[kind] else ResolutionSuffixes["default"]
  }

  /** `getResUrl`: None stands for `undefined`. */
  function ResUrl(item: Record, kind: string): Option<string>
  {
    if !Truthy(item, UrlBaseKey) then Get(item, UrlKey) else Some(item[UrlBaseKey] + ResolutionSuffix(kind))
  }

  /**
   * Without a `urlbase` the record's `url` is returned as it is; with one,
   * the URL is the `urlbase` followed by one of the map's suffixes, an
   * unknown kind getting the full-HD one, and the `urlbase` is what
   * remains when that suffix is cut off.
   */
  lemma ResUrlExact(item: Record, kind: string)
    ensures !Truthy(item, UrlBaseKey) ==> ResUrl(item, kind) == Get(item, UrlKey)
    ensures Truthy(item, UrlBaseKey) ==>
              var u := ResUrl(item, kind).value;
              u[..|item[UrlBaseKey]|] == item[UrlBaseKey]
              && u[|item[UrlBaseKey]|..] in ResolutionSuffixes.Values
              && (kind in ResolutionSuffixes ==> u == item[UrlBaseKey] + ResolutionSuffixes[kind])
              && (kind !in ResolutionSuffixes ==> u == item[UrlBaseKey] + "_1920x1080.jpg")
  {
    if Truthy(item, UrlBaseKey) {
      var u := ResUrl(item, kind).value;
      assert u[|item[UrlBaseKey]|..] == ResolutionSuffix(kind);
      assert ResolutionSuffixes["default"] == "_1920x1080.jpg";
    }
  }

  // --------------------------------------------------- download names

  /** `suffixMap`. */
  const DownloadSuffixes: map<string, string> := map[
    "uhd" := "UHD",
    "full" := "1080p",
    "2k" := "2K",
    "wallpaper" := "wallpaper",
    "mobile" := "mobile"]

  function DownloadSuffix(kind: string): string
  {
    if kind in DownloadSuffixes then DownloadSuffixes[kind] else "image"
  }

  /** The picture name: the `OHR.` token of `urlbase` without its trailing digits, or `BingWallpaper`. */
  function PictureName(item: Record): string
  {
    if Truthy(item, UrlBaseKey) && NameToken(item[UrlBaseKey]).Some? then StripTrailingDigits(NameToken(item[UrlBaseKey]).value)
    else "BingWallpaper"
  }

  /** `item.date` in a template string: `undefined` when it is missing. */
  function DateText(item: Record): string
  {
    if DateKey in item then item[DateKey] else "undefined"
  }

  /** `getDownloadFilename`: `${name}_${date}_${suffix}.jpg`. */
  function DownloadFilename(item: Record, kind: string): (r: string)
  {
    PictureName(item) + "_" + DateText(item) + "_" + DownloadSuffix(kind) + ".jpg"
  }

  /**
   * The file name ends in `.jpg` after one of the six suffixes (`image` for
   * an unknown kind). Its name part is `BingWallpaper` when `urlbase` has no
   * `OHR.` token; otherwise it is that token minus its trailing digits, so
   * it uses only `[a-zA-Z0-9_-]` and does not end with a digit.
   */
  lemma DownloadFilenameExact(item: Record, kind: string)
    ensures var r := DownloadFilename(item, kind);
            |r| >= 4 && r[|r| - 4..] == ".jpg"
    ensures DownloadSuffix(kind) in {"UHD", "1080p", "2K", "wallpaper", "mobile", "image"}
    ensures kind !in DownloadSuffixes ==> DownloadSuffix(kind) == "image"
    ensures !Truthy(item, UrlBaseKey) || !Contains(item[UrlBaseKey], "OHR.") ==> PictureName(item) == "BingWallpaper"
    ensures Truthy(item, UrlBaseKey) && NameToken(item[UrlBaseKey]).Some? ==>
              var token, name := NameToken(item[UrlBaseKey]).value, PictureName(item);
              name <= token && IsDigits(token[|name|..]) && AllIn(name, TokenChar)
              && (name == [] || !IsDigit(name[|name| - 1]))
              && Contains(item[UrlBaseKey], "OHR." + token)
  {
    var r := DownloadFilename(item, kind);
    assert r[|r| - 4..] == ".jpg";
    if Truthy(item, UrlBaseKey) && NameToken(item[UrlBaseKey]).Some? {
      var token := NameToken(item[UrlBaseKey]).value;
      var name := StripTrailingDigits(token);
      assert forall i | 0 <= i < |name| :: name[i] == token[i];
    }
  }

  // ------------------------------------------------------ page state

  /** The globals the gallery page keeps between renders. */
  class GalleryPage {
    var allData: seq<Record>
    var filteredData: seq<Record>
    var currentPage: int

    constructor ()
      ensures allData == [] && filteredData == [] && currentPage == 1
    {
      allData := [];
      filteredData := [];
      currentPage := 1;
    }

    /** `loadData` after the fetch: the parsed list with one record per `date`. */
    method LoadData(fetched: seq<Record>)
      modifies this
      ensures allData == DedupByDate(fetched)
      ensures filteredData == old(filteredData) && currentPage == old(currentPage)
    {
      allData := DedupByDate(fetched);
    }

    /**
     * `filterData`: the month filter, then the search filter; a record
     * without `date` under a month filter throws before anything changes.
     */
    method FilterData(monthVal: string, searchQuery: string, page: int) returns (error: Option<PyError>)
      modifies this
      ensures allData == old(allData)
      ensures MonthFilter(allData, monthVal).Err? ==>
                error == Some(MonthFilter(allData, monthVal).error)
                && filteredData == old(filteredData) && currentPage == old(currentPage)
      ensures MonthFilter(allData, monthVal).Ok? ==>
                error == None && filteredData == SearchFilter(MonthFilter(allData, monthVal).value, searchQuery)
                && currentPage == (if page == 0 then 1 else page)
    {
      var data := MonthFilter(allData, monthVal);
      if data.Err? {
        return Some(data.error);
      }
      filteredData := SearchFilter(data.value, searchQuery);
      currentPage := if page == 0 then 1 else page;
      return None;
    }

    /** `renderGallery`'s `pageItems`. */
    function PageItems(): seq<Record>
      reads this
    {
      PageSlice(filteredData, currentPage)
    }
  }
}
