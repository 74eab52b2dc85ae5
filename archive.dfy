/**
 * assets/archive.js: the archive page, which loads one yearly file at a
 * time. `data_index.json` gives, per year, the number of records of each
 * region file; from it the page lays the years out as one virtual list
 * (newest year first), works out which years a page needs, merges the
 * loaded years into `allData`, and keeps the URL's query in step.
 *
 * Year keys are the index's canonical decimal numerals, modelled as `nat`.
 * A region map of the index is kept as its list of entries, so that the
 * order of its keys (`Object.keys`) is part of the model.
 */
module Archive {
  import opened Wrappers
  import opened Text
  import opened Records
  import opened Lists
  import opened Gallery

  /** The region the page falls back to when a year lacks the chosen one. */
  const FallbackRegion: string := "bing_en-US"

  // ------------------------------------------------------------ the index

  /** One entry `"regionCode": count` of a year's `regions`. */
  datatype RegionCount = RegionCount(region: string, count: nat)

  /** `dataIndex.years[y]`: its `regions`, None when missing or null. */
  datatype YearInfo = YearInfo(regions: Option<seq<RegionCount>>)

  type Index = map<nat, YearInfo>

  /** `Object.keys(regions)`. */
  function RegionKeys(rs: seq<RegionCount>): (keys: seq<string>)
    ensures |keys| == |rs| && forall i | 0 <= i < |rs| :: keys[i] == rs[i].region
  {
    if rs == [] then [] else [rs[0].region] + RegionKeys(rs[1..])
  }

  /** `regions[k]`: the count of the first entry with key `k`. */
  function Lookup(rs: seq<RegionCount>, k: string): (r: Option<nat>)
    ensures r.Some? <==> k in RegionKeys(rs)
    ensures r.Some? ==> RegionCount(k, r.value) in rs
  {
    if rs == [] then None
    else if rs[0].region == k then Some(rs[0].count)
    else Lookup(rs[1..], k)
  }

  /** The regions of a year, when the index has the year and its `regions`. */
  predicate HasRegions(index: Index, year: nat)
  {
    year in index && index[year].regions.Some?
  }

  /**
   * `getEffectiveRegion`: the chosen region if the year has it, else
   * `bing_en-US` if it has that, else its first region; None for `null`.
   */
  function EffectiveRegion(index: Index, year: nat, region: string): (r: Option<string>)
    ensures r.Some? ==> HasRegions(index, year) && r.value in RegionKeys(index[year].regions.value)
    ensures HasRegions(index, year) && region in RegionKeys(index[year].regions.value) ==> r == Some(region)
    ensures (HasRegions(index, year) && region !in RegionKeys(index[year].regions.value)
             && FallbackRegion in RegionKeys(index[year].regions.value)) ==> r == Some(FallbackRegion)
    ensures r.None? <==>
              (!HasRegions(index, year)
               || (var keys := RegionKeys(index[year].regions.value);
                   region !in keys && FallbackRegion !in keys && (keys == [] || keys[0] == "")))
  {
    if !HasRegions(index, year) then None
    else
      var keys := RegionKeys(index[year].regions.value);
      if region in keys then Some(region)
      else if FallbackRegion in keys then Some(FallbackRegion)
      else if keys != [] && keys[0] != "" then Some(keys[0])
      else None
  }

  /** A region the script can use: not `null` and not the empty string. */
  predicate Usable(r: Option<string>)
  {
    r.Some? && r.value != ""
  }

  /**
   * `getYearRegionCount`: 0 without the year, its regions or a usable
   * region; otherwise the count the index gives the effective region.
   */
  function YearRegionCount(index: Index, year: nat, region: string): (n: nat)
    ensures !HasRegions(index, year) ==> n == 0
    ensures n > 0 ==>
              (Usable(EffectiveRegion(index, year, region))
               && Lookup(index[year].regions.value, EffectiveRegion(index, year, region).value) == Some(n))
    ensures HasRegions(index, year) && region != "" && region in RegionKeys(index[year].regions.value) ==>
              Some(n) == Lookup(index[year].regions.value, region)
  {
    if !HasRegions(index, year) then 0
    else
      var eff := EffectiveRegion(index, year, region);
      if !Usable(eff) then 0
      else
        Lookup(index[year].regions.value, eff.value).value
  }

  // ------------------------------------------------------------ years

  /** Strictly descending. */
  predicate NewestFirst(s: seq<nat>)
  {
    forall i, j | 0 <= i < j < |s| :: s[i] > s[j]
  }

  predicate IsMax(m: nat, s: set<nat>)
  {
    m in s && forall x | x in s :: x <= m
  }

  lemma MaxExists(s: set<nat>)
    requires s != {}
    ensures exists m :: IsMax(m, s)
  {
    var x :| x in s;
    if s != {x} {
      MaxExists(s - {x});
      var m :| IsMax(m, s - {x});
      if x <= m {
        assert forall y | y in s :: y == x || y in s - {x};
        assert IsMax(m, s);
      } else {
        assert forall y | y in s :: y == x || y in s - {x};
        assert IsMax(x, s);
      }
    } else {
      assert IsMax(x, s);
    }
  }

  /** `Object.keys(dataIndex.years).sort((a, b) => b - a)`. */
  function SortedYears(s: set<nat>): (r: seq<nat>)
    ensures |r| == |s|
    ensures forall y :: y in r <==> y in s
    ensures NewestFirst(r)
    decreases |s|
  {
    if s == {} then []
    else
      MaxExists(s);
      var m :| IsMax(m, s);
      var rest := SortedYears(s - {m});
      PrependMax(m, s, rest);
      [m] + rest
  }

  /** The largest year put in front of the sorted others gives the sorted whole. */
  lemma PrependMax(m: nat, s: set<nat>, rest: seq<nat>)
    requires IsMax(m, s)
    requires |rest| == |s - {m}| && (forall y :: y in rest <==> y in s - {m}) && NewestFirst(rest)
    ensures |[m] + rest| == |s| && (forall y :: y in [m] + rest <==> y in s) && NewestFirst([m] + rest)
  {
    var r := [m] + rest;
    forall i, j | 0 <= i < j < |r| ensures r[i] > r[j] {
      assert r[j] == rest[j - 1] && rest[j - 1] in s - {m};
      if i > 0 {
        assert r[i] == rest[i - 1];
      }
    }
  }

  /** A newest-first list of years never repeats a year. */
  lemma NewestFirstDistinct(s: seq<nat>)
    requires NewestFirst(s)
    ensures forall i, j | 0 <= i < |s| && 0 <= j < |s| && s[i] == s[j] :: i == j
  {
  }

  // ------------------------------------------------------ virtual layout

  /** The place of one year in the virtual list: `{ start, count }`. */
  datatype Span = Span(start: nat, count: nat)

  /** The number of records the years of `order` hold, for the region. */
  function SumCounts(index: Index, order: seq<nat>, region: string): nat
  {
    if order == [] then 0
    else SumCounts(index, order[..|order| - 1], region) + YearRegionCount(index, order[|order| - 1], region)
  }

  /** `yearOffsets` as `computeYearOffsets` leaves it: a later year overwrites an earlier one. */
  function OffsetsOf(index: Index, order: seq<nat>, region: string): map<nat, Span>
  {
    if order == [] then map[]
    else
      var init := order[..|order| - 1];
      OffsetsOf(index, init, region)[order[|order| - 1] := Span(SumCounts(index, init, region), YearRegionCount(index, order[|order| - 1], region))]
  }

  /** The start of the `i`-th year: the records of the years before it. */
  function StartOf(index: Index, order: seq<nat>, region: string, i: nat): nat
    requires i <= |order|
  {
    SumCounts(index, order[..i], region)
  }

  lemma StartStep(index: Index, order: seq<nat>, region: string, i: nat)
    requires i < |order|
    ensures StartOf(index, order, region, i + 1) == StartOf(index, order, region, i) + YearRegionCount(index, order[i], region)
  {
    assert order[..i + 1][..i] == order[..i];
  }

  lemma {:induction false} StartMonotone(index: Index, order: seq<nat>, region: string, i: nat, j: nat)
    requires i <= j <= |order|
    ensures StartOf(index, order, region, i) <= StartOf(index, order, region, j)
    decreases j - i
  {
    if i < j {
      StartStep(index, order, region, j - 1);
      StartMonotone(index, order, region, i, j - 1);
    }
  }

  /** The years with a span are the years of the order. */
  lemma {:induction false} OffsetsKeys(index: Index, order: seq<nat>, region: string)
    ensures forall y :: y in OffsetsOf(index, order, region) <==> y in order
    decreases |order|
  {
    if order != [] {
      var k := |order| - 1;
      OffsetsKeys(index, order[..k], region);
      assert forall y :: y in order <==> y in order[..k] || y == order[k] by {
        assert order == order[..k] + [order[k]];
      }
    }
  }

  /**
   * Over years without repetition, every year's span starts after the
   * records of the years before it and holds the year's count.
   */
  lemma {:induction false} OffsetsExact(index: Index, order: seq<nat>, region: string, i: nat)
    requires forall a, b | 0 <= a < b < |order| :: order[a] != order[b]
    requires i < |order|
    ensures order[i] in OffsetsOf(index, order, region)
    ensures OffsetsOf(index, order, region)[order[i]] == Span(StartOf(index, order, region, i), YearRegionCount(index, order[i], region))
    decreases |order|
  {
    var k := |order| - 1;
    var init := order[..k];
    if i < k {
      assert init[i] == order[i] && init[..i] == order[..i];
      OffsetsExact(index, init, region, i);
      assert order[i] != order[k];
    } else {
      assert order[..i] == init;
    }
  }

  /** Record `n` of the virtual list belongs to the `i`-th year. */
  predicate Holds(index: Index, order: seq<nat>, region: string, i: nat, n: int)
    requires i < |order|
  {
    StartOf(index, order, region, i) <= n < StartOf(index, order, region, i) + YearRegionCount(index, order[i], region)
  }

  /** The spans tile the virtual list: every record of it lies in exactly one year's span. */
  lemma SpansPartition(index: Index, order: seq<nat>, region: string, n: int)
    requires 0 <= n < SumCounts(index, order, region)
    ensures exists i | 0 <= i < |order| :: Holds(index, order, region, i, n)
    ensures forall i, j | 0 <= i < |order| && 0 <= j < |order| && Holds(index, order, region, i, n) && Holds(index, order, region, j, n) :: i == j
  {
    SpanExists(index, order, region, n, 0);
    forall i, j | 0 <= i < |order| && 0 <= j < |order| && Holds(index, order, region, i, n) && Holds(index, order, region, j, n)
      ensures i == j
    {
      if i < j {
        SpanBefore(index, order, region, i, j, n);
      } else if j < i {
        SpanBefore(index, order, region, j, i, n);
      }
    }
  }

  /** A record in an earlier year's span is not in a later one's. */
  lemma SpanBefore(index: Index, order: seq<nat>, region: string, i: nat, j: nat, n: int)
    requires i < j < |order| && Holds(index, order, region, i, n)
    ensures !Holds(index, order, region, j, n)
  {
    StartStep(index, order, region, i);
    StartMonotone(index, order, region, i + 1, j);
  }

  lemma {:induction false} SpanExists(index: Index, order: seq<nat>, region: string, n: int, i: nat)
    requires i < |order| && StartOf(index, order, region, i) <= n < SumCounts(index, order, region)
    ensures exists k | 0 <= k < |order| :: Holds(index, order, region, k, n)
    decreases |order| - i
  {
    StartStep(index, order, region, i);
    StartEnd(index, order, region);
    if !Holds(index, order, region, i, n) {
      SpanExists(index, order, region, n, i + 1);
    }
  }

  lemma StartEnd(index: Index, order: seq<nat>, region: string)
    ensures StartOf(index, order, region, |order|) == SumCounts(index, order, region)
  {
    assert order[..|order|] == order;
  }

  /** `[(p - 1) * 31, p * 31)` meets `[start, start + count)`. */
  function OverlapsPage(offsets: map<nat, Span>, pageNum: int): nat -> bool
  {
    y => y in offsets
         && (pageNum - 1) * ItemsPerPage < offsets[y].start + offsets[y].count
         && (pageNum - 1) * ItemsPerPage + ItemsPerPage > offsets[y].start
  }

  function Identity(y: nat): nat { y }

  /** `getYearsForPage`: the years met by the page, in `yearOrder` order, through a `Set`. */
  function YearsForPage(order: seq<nat>, offsets: map<nat, Span>, pageNum: int): seq<nat>
    requires forall i | 0 <= i < |order| :: order[i] in offsets
  {
    Dedup(Filter(order, OverlapsPage(offsets, pageNum)), Identity)
  }

  /**
   * With the offsets `computeYearOffsets` leaves, every year has its span,
   * and the years of page `p` are exactly those whose span meets the page.
   */
  lemma YearsForPageExact(index: Index, order: seq<nat>, region: string, pageNum: int)
    ensures var offsets := OffsetsOf(index, order, region);
            (forall i | 0 <= i < |order| :: order[i] in offsets)
            && (forall y :: y in YearsForPage(order, offsets, pageNum) <==> y in order && OverlapsPage(offsets, pageNum)(y))
            && IsSubsequence(YearsForPage(order, offsets, pageNum), order)
            && var r := YearsForPage(order, offsets, pageNum); forall i, j | 0 <= i < j < |r| :: r[i] != r[j]
  {
    var offsets := OffsetsOf(index, order, region);
    OffsetsKeys(index, order, region);
    var kept := Filter(order, OverlapsPage(offsets, pageNum));
    DedupFromFacts(kept, Identity, {});
    FilterSubsequence(order, OverlapsPage(offsets, pageNum));
    SubsequenceTrans(YearsForPage(order, offsets, pageNum), kept, order);
    var r := YearsForPage(order, offsets, pageNum);
    forall i, j | 0 <= i < j < |r| ensures r[i] != r[j] {
      assert Identity(r[i]) != Identity(r[j]);
    }
    forall y ensures y in YearsForPage(order, offsets, pageNum) <==> y in order && OverlapsPage(offsets, pageNum)(y) {
      FilterMembers(order, OverlapsPage(offsets, pageNum), y);
      KeySetIdentity(kept, y);
      KeySetIdentity(YearsForPage(order, offsets, pageNum), y);
    }
  }

  /**
   * Over years newest first, every record of the virtual list that page
   * `p` shows lies in a year `getYearsForPage(p)` returns, so loading
   * those years is enough to show the page.
   */
  lemma YearsForPageCover(index: Index, order: seq<nat>, region: string, pageNum: int, n: int, i: nat)
    requires NewestFirst(order)
    requires (pageNum - 1) * ItemsPerPage <= n < pageNum * ItemsPerPage
    requires i < |order| && Holds(index, order, region, i, n)
    ensures var offsets := OffsetsOf(index, order, region);
            (forall j | 0 <= j < |order| :: order[j] in offsets) && order[i] in YearsForPage(order, offsets, pageNum)
  {
    var offsets := OffsetsOf(index, order, region);
    YearsForPageExact(index, order, region, pageNum);
    OffsetsExact(index, order, region, i);
    assert OverlapsPage(offsets, pageNum)(order[i]);
  }

  lemma KeySetIdentity(s: seq<nat>, y: nat)
    ensures y in KeySet(s, Identity) <==> y in s
  {
    if y in s {
      var i :| 0 <= i < |s| && s[i] == y;
      assert Identity(s[i]) == y;
    }
  }

  // ------------------------------------------------------------ the URL

  /** A value of `updateQuery`'s argument: `null` or a string (numbers as their text). */
  datatype QueryValue = Null | Text(text: string)

  /** `URLSearchParams`: its name-value pairs in order. */
  type Params = seq<(string, string)>

  /** `params.get(k)`: the value of the first pair named `k`. */
  function GetParam(ps: Params, k: string): Option<string>
  {
    if ps == [] then None else if ps[0].0 == k then Some(ps[0].1) else GetParam(ps[1..], k)
  }

  /** `params.delete(k)`: every pair named `k` goes. */
  function DeleteParam(ps: Params, k: string): Params
  {
    if ps == [] then [] else (if ps[0].0 == k then [] else [ps[0]]) + DeleteParam(ps[1..], k)
  }

  /** `params.set(k, v)`: the first pair named `k` takes the value and the others go; else a pair is appended. */
  function SetParam(ps: Params, k: string, v: string): Params
  {
    if ps == [] then [(k, v)]
    else if ps[0].0 == k then [(k, v)] + DeleteParam(ps[1..], k)
    else [ps[0]] + SetParam(ps[1..], k, v)
  }

  lemma {:induction false} DeleteParamGet(ps: Params, k: string, k': string)
    ensures GetParam(DeleteParam(ps, k), k') == if k' == k then None else GetParam(ps, k')
  {
    if ps != [] {
      DeleteParamGet(ps[1..], k, k');
      var rest := DeleteParam(ps[1..], k);
      if ps[0].0 != k {
        assert ([ps[0]] + rest)[0] == ps[0] && ([ps[0]] + rest)[1..] == rest;
      } else {
        assert [] + rest == rest;
      }
    }
  }

  lemma {:induction false} SetParamGet(ps: Params, k: string, v: string, k': string)
    ensures GetParam(SetParam(ps, k, v), k') == if k' == k then Some(v) else GetParam(ps, k')
  {
    if ps != [] {
      if ps[0].0 == k {
        DeleteParamGet(ps[1..], k, k');
      } else {
        SetParamGet(ps[1..], k, v, k');
      }
    }
  }

  /** One entry of `updateQuery`: `null`, and `'all'` for `date`, delete; anything else is set. */
  function ApplyUpdate(ps: Params, u: (string, QueryValue)): Params
  {
    match u.1
    case Null => DeleteParam(ps, u.0)
    case Text(v) => if u.0 == "date" && v == "all" then DeleteParam(ps, u.0) else SetParam(ps, u.0, v)
  }

  function ApplyUpdates(ps: Params, updates: seq<(string, QueryValue)>): Params
  {
    if updates == [] then ps else ApplyUpdate(ApplyUpdates(ps, updates[..|updates| - 1]), updates[|updates| - 1])
  }

  /** The digits `parseInt` reads at the front of a string. */
  function LeadingDigits(s: string): (d: string)
    ensures d <= s && IsDigits(d)
  {
    if s != [] && IsDigit(s[0]) then [s[0]] + LeadingDigits(s[1..]) else []
  }

  /** `parseInt(s) === 1`. */
  predicate ParsesToOne(s: string)
  {
    LeadingDigits(s) != [] && DigitsValue(LeadingDigits(s)) == 1
  }

  /** The query `updateQuery` leaves: the updates in order, then `page` dropped when it reads as 1. */
  function QueryAfter(ps: Params, updates: seq<(string, QueryValue)>): Params
  {
    var q := ApplyUpdates(ps, updates);
    if GetParam(q, "page").Some? && ParsesToOne(GetParam(q, "page").value) then DeleteParam(q, "page") else q
  }

  /** The value the last update of a key leaves it with. */
  function Resolved(k: string, v: QueryValue): Option<string>
  {
    match v
    case Null => None
    case Text(s) => if k == "date" && s == "all" then None else Some(s)
  }

  /** The last update of key `k`, if any. */
  function LastUpdate(updates: seq<(string, QueryValue)>, k: string): Option<QueryValue>
  {
    if updates == [] then None
    else if updates[|updates| - 1].0 == k then Some(updates[|updates| - 1].1)
    else LastUpdate(updates[..|updates| - 1], k)
  }

  /**
   * After the updates, a key's value is decided by its last update: gone
   * for `null` and for `date` set to `'all'`, the given text otherwise; a
   * key no update names keeps its value.
   */
  lemma {:induction false} ApplyUpdatesGet(ps: Params, updates: seq<(string, QueryValue)>, k: string)
    ensures GetParam(ApplyUpdates(ps, updates), k) ==
              match LastUpdate(updates, k) case None => GetParam(ps, k) case Some(v) => Resolved(k, v)
  {
    if updates != [] {
      var init := updates[..|updates| - 1];
      var u := updates[|updates| - 1];
      ApplyUpdatesGet(ps, init, k);
      var q := ApplyUpdates(ps, init);
      match u.1
      case Null => DeleteParamGet(q, u.0, k);
      case Text(v) =>
        if u.0 == "date" && v == "all" {
          DeleteParamGet(q, u.0, k);
        } else {
          SetParamGet(q, u.0, v, k);
        }
    }
  }

  /**
   * `updateQuery` as a whole: `page` is absent whenever its value reads as
   * 1, and every other key has the value its last update gave it.
   */
  lemma QueryAfterExact(ps: Params, updates: seq<(string, QueryValue)>, k: string)
    ensures var r := GetParam(QueryAfter(ps, updates), "page");
            r.None? || !ParsesToOne(r.value)
    ensures k != "page" ==>
              GetParam(QueryAfter(ps, updates), k) ==
              match LastUpdate(updates, k) case None => GetParam(ps, k) case Some(v) => Resolved(k, v)
  {
    var q := ApplyUpdates(ps, updates);
    ApplyUpdatesGet(ps, updates, k);
    DeleteParamGet(q, "page", k);
    DeleteParamGet(q, "page", "page");
  }

  /** `updateQuery`'s loop over `Object.entries(updates)` and the final `page` check. */
  method UpdateQuery(params: Params, updates: seq<(string, QueryValue)>) returns (r: Params)
    ensures r == QueryAfter(params, updates)
  {
    r := params;
    var i := 0;
    while i < |updates|
      invariant 0 <= i <= |updates|
      invariant r == ApplyUpdates(params, updates[..i])
    {
      assert updates[..i + 1][..i] == updates[..i];
      var (key, value) := updates[i];
      if value.Null? || value == Text("all") {
        if key == "date" && value == Text("all") {
          r := DeleteParam(r, key);
        } else if value.Null? {
          r := DeleteParam(r, key);
        } else {
          r := SetParam(r, key, value.text);
        }
      } else {
        r := SetParam(r, key, value.text);
      }
      i := i + 1;
    }
    assert updates[..i] == updates;
    var page := GetParam(r, "page");
    if page.Some? && ParsesToOne(page.value) {
      r := DeleteParam(r, "page");
    }
  }

  // ------------------------------------------------------- loaded data

  /** `isYearLoaded`: the cache has the year's list for the region (an empty list counts). */
  predicate IsLoaded(cache: map<nat, map<string, seq<Record>>>, year: nat, region: string)
  {
    year in cache && region in cache[year]
  }

  /** The loaded lists of the region, year by year in `order`. */
  function LoadedData(order: seq<nat>, cache: map<nat, map<string, seq<Record>>>, region: string): seq<Record>
  {
    if order == [] then []
    else
      var y := order[|order| - 1];
      LoadedData(order[..|order| - 1], cache, region) + (if IsLoaded(cache, y, region) then cache[y][region] else [])
  }

  /** A record is in the merged list exactly when a loaded year of the order holds it. */
  lemma {:induction false} LoadedDataMembers(order: seq<nat>, cache: map<nat, map<string, seq<Record>>>, region: string, x: Record)
    ensures x in LoadedData(order, cache, region) <==>
              exists i | 0 <= i < |order| :: IsLoaded(cache, order[i], region) && x in cache[order[i]][region]
  {
    if order != [] {
      var k := |order| - 1;
      LoadedDataMembers(order[..k], cache, region, x);
      if exists i | 0 <= i < |order| :: IsLoaded(cache, order[i], region) && x in cache[order[i]][region] {
        var i :| 0 <= i < |order| && IsLoaded(cache, order[i], region) && x in cache[order[i]][region];
        if i < k {
          assert order[..k][i] == order[i];
        }
      }
      if exists i | 0 <= i < k :: IsLoaded(cache, order[..k][i], region) && x in cache[order[..k][i]][region] {
        var i :| 0 <= i < k && IsLoaded(cache, order[..k][i], region) && x in cache[order[..k][i]][region];
        assert order[..k][i] == order[i];
      }
    }
  }

  /**
   * `rebuildAllData`'s result is sorted by `date`, latest first, keeps
   * records of equal `date` in their merged order, and is a permutation
   * of the loaded lists of the region.
   */
  lemma RebuiltExact(order: seq<nat>, cache: map<nat, map<string, seq<Record>>>, region: string)
    ensures var merged := LoadedData(order, cache, region);
            Descending(SortDesc(merged))
            && multiset(SortDesc(merged)) == multiset(merged)
            && (forall d :: WithDate(SortDesc(merged), d) == WithDate(merged, d))
            && forall x :: x in SortDesc(merged) <==>
                 exists i | 0 <= i < |order| :: IsLoaded(cache, order[i], region) && x in cache[order[i]][region]
  {
    var merged := LoadedData(order, cache, region);
    SortDescFacts(merged);
    forall x ensures x in SortDesc(merged) <==>
                 exists i | 0 <= i < |order| :: IsLoaded(cache, order[i], region) && x in cache[order[i]][region]
    {
      LoadedDataMembers(order, cache, region, x);
      assert x in SortDesc(merged) <==> x in multiset(SortDesc(merged));
      assert x in merged <==> x in multiset(merged);
    }
  }

  // ------------------------------------------------------------ months

  /** The months of the loaded records: the first six characters of a `date` of six or more. */
  function RecordMonths(data: seq<Record>): set<string>
  {
    set x | x in data && DateKey in x && |x[DateKey]| >= 6 :: x[DateKey][..6]
  }

  /** `${y}${String(m).padStart(2, '0')}` for the twelve months of every unloaded year with a usable region. */
  function IndexMonths(index: Index, order: seq<nat>, cache: map<nat, map<string, seq<Record>>>, region: string): set<string>
  {
    set y, m: nat | y in order && 1 <= m <= 12 && !IsLoaded(cache, y, region) && Usable(EffectiveRegion(index, y, region)) ::
      NatToString(y) + PadDigits(m, 2)
  }

  function Reverse(s: seq<string>): (r: seq<string>)
    ensures |r| == |s| && forall i | 0 <= i < |s| :: r[i] == s[|s| - 1 - i]
  {
    if s == [] then [] else Reverse(s[1..]) + [s[0]]
  }

  /** The options of `populateMonthDropdown` after "All Months": `Array.from(months).sort().reverse()`. */
  function MonthOptions(data: seq<Record>, index: Index, order: seq<nat>, cache: map<nat, map<string, seq<Record>>>, region: string): seq<string>
  {
    Reverse(SortedStrings(RecordMonths(data) + IndexMonths(index, order, cache, region)))
  }

  /** Reversing an ascending list gives a descending one with the same members. */
  lemma ReverseAscending(s: seq<string>)
    requires StrictlyAscending(s)
    ensures forall i, j | 0 <= i < j < |Reverse(s)| :: LexLt(Reverse(s)[j], Reverse(s)[i])
    ensures forall x :: x in Reverse(s) <==> x in s
  {
    forall x | x in s ensures x in Reverse(s) {
      var i :| 0 <= i < |s| && s[i] == x;
      assert Reverse(s)[|s| - 1 - i] == x;
    }
  }

  /**
   * The month list holds the month of every loaded record with a long
   * enough `date`, the twelve months of every year not loaded yet that has
   * a usable region, and nothing else.
   */
  lemma MonthOptionsExact(data: seq<Record>, index: Index, order: seq<nat>, cache: map<nat, map<string, seq<Record>>>, region: string)
    ensures var r := MonthOptions(data, index, order, cache, region);
            (forall x | x in data && DateKey in x && |x[DateKey]| >= 6 :: x[DateKey][..6] in r)
            && (forall y, m: nat | y in order && 1 <= m <= 12 && !IsLoaded(cache, y, region) && Usable(EffectiveRegion(index, y, region)) ::
                  NatToString(y) + PadDigits(m, 2) in r)
            && (forall s | s in r :: s in RecordMonths(data) || s in IndexMonths(index, order, cache, region))
  {
    MonthOptionsMembers(data, index, order, cache, region);
    forall y, m: nat | y in order && 1 <= m <= 12 && !IsLoaded(cache, y, region) && Usable(EffectiveRegion(index, y, region))
      ensures NatToString(y) + PadDigits(m, 2) in MonthOptions(data, index, order, cache, region)
    {
      assert NatToString(y) + PadDigits(m, 2) in IndexMonths(index, order, cache, region);
    }
    forall x | x in data && DateKey in x && |x[DateKey]| >= 6
      ensures x[DateKey][..6] in MonthOptions(data, index, order, cache, region)
    {
      assert x[DateKey][..6] in RecordMonths(data);
    }
  }

  /** The month list is strictly descending, newest month first. */
  lemma MonthOptionsDescending(data: seq<Record>, index: Index, order: seq<nat>, cache: map<nat, map<string, seq<Record>>>, region: string)
    ensures var r := MonthOptions(data, index, order, cache, region);
            forall i, j | 0 <= i < j < |r| :: LexLt(r[j], r[i])
  {
    ReverseAscending(SortedStrings(RecordMonths(data) + IndexMonths(index, order, cache, region)));
  }

  lemma MonthOptionsMembers(data: seq<Record>, index: Index, order: seq<nat>, cache: map<nat, map<string, seq<Record>>>, region: string)
    ensures forall s :: s in MonthOptions(data, index, order, cache, region) <==>
              s in RecordMonths(data) || s in IndexMonths(index, order, cache, region)
  {
    ReverseAscending(SortedStrings(RecordMonths(data) + IndexMonths(index, order, cache, region)));
  }

  // ------------------------------------------------------------ the page

  /** The globals of the archive page. */
  class ArchivePage {
    var years: Index
    var yearOrder: seq<nat>
    var yearOffsets: map<nat, Span>
    var totalItemCount: nat
    var currentRegion: string
    var yearCache: map<nat, map<string, seq<Record>>>
    var allData: seq<Record>

    constructor (region: string)
      ensures years == map[] && yearOrder == [] && yearOffsets == map[] && totalItemCount == 0
      ensures currentRegion == region && yearCache == map[] && allData == []
    {
      years := map[];
      yearOrder := [];
      yearOffsets := map[];
      totalItemCount := 0;
      currentRegion := region;
      yearCache := map[];
      allData := [];
    }

    /** `loadIndex` after the fetch: the index and its years, newest first. */
    method LoadIndex(index: Index)
      modifies this
      ensures years == index && yearOrder == SortedYears(index.Keys)
      ensures yearOffsets == old(yearOffsets) && totalItemCount == old(totalItemCount)
      ensures currentRegion == old(currentRegion) && yearCache == old(yearCache) && allData == old(allData)
    {
      years := index;
      yearOrder := SortedYears(index.Keys);
    }

    /** `computeTotalItemCount`: the counts of all years for the current region, added up. */
    method ComputeTotalItemCount()
      modifies this
      ensures totalItemCount == SumCounts(years, yearOrder, currentRegion)
      ensures years == old(years) && yearOrder == old(yearOrder) && yearOffsets == old(yearOffsets)
      ensures currentRegion == old(currentRegion) && yearCache == old(yearCache) && allData == old(allData)
    {
      var total := 0;
      var i := 0;
      while i < |yearOrder|
        invariant 0 <= i <= |yearOrder|
        invariant total == SumCounts(years, yearOrder[..i], currentRegion)
      {
        assert yearOrder[..i + 1][..i] == yearOrder[..i];
        total := total + YearRegionCount(years, yearOrder[i], currentRegion);
        i := i + 1;
      }
      assert yearOrder[..i] == yearOrder;
      totalItemCount := total;
    }

    /** `computeYearOffsets`: a running offset gives every year its span, then the total is taken. */
    method ComputeYearOffsets()
      modifies this
      ensures yearOffsets == OffsetsOf(years, yearOrder, currentRegion)
      ensures totalItemCount == SumCounts(years, yearOrder, currentRegion)
      ensures years == old(years) && yearOrder == old(yearOrder)
      ensures currentRegion == old(currentRegion) && yearCache == old(yearCache) && allData == old(allData)
    {
      var offsets: map<nat, Span> := map[];
      var offset := 0;
      var i := 0;
      while i < |yearOrder|
        invariant 0 <= i <= |yearOrder|
        invariant offset == SumCounts(years, yearOrder[..i], currentRegion)
        invariant offsets == OffsetsOf(years, yearOrder[..i], currentRegion)
      {
        assert yearOrder[..i + 1][..i] == yearOrder[..i];
        var y := yearOrder[i];
        var count := YearRegionCount(years, y, currentRegion);
        offsets := offsets[y := Span(offset, count)];
        offset := offset + count;
        i := i + 1;
      }
      assert yearOrder[..i] == yearOrder;
      yearOffsets := offsets;
      ComputeTotalItemCount();
    }

    /** `getYearsForPage`. */
    function GetYearsForPage(pageNum: int): seq<nat>
      reads this
      requires forall i | 0 <= i < |yearOrder| :: yearOrder[i] in yearOffsets
    {
      YearsForPage(yearOrder, yearOffsets, pageNum)
    }

    /**
     * `loadYearData` with the file's parsed contents (None when fetching or
     * parsing fails). Without a usable region nothing happens; a cached
     * list is returned as it is; a fetched list loses its repeated dates,
     * is cached under the requested region, and its length becomes that
     * region's count in the index; a failure caches an empty list.
     */
    method LoadYearData(year: nat, regionCode: string, fetched: Option<seq<Record>>) returns (data: seq<Record>)
      modifies this
      ensures yearOrder == old(yearOrder) && yearOffsets == old(yearOffsets) && totalItemCount == old(totalItemCount)
      ensures currentRegion == old(currentRegion) && allData == old(allData)
      ensures !Usable(EffectiveRegion(old(years), year, regionCode)) ==>
                data == [] && years == old(years) && yearCache == old(yearCache)
      ensures Usable(EffectiveRegion(old(years), year, regionCode)) && IsLoaded(old(yearCache), year, regionCode) ==>
                data == old(yearCache)[year][regionCode] && years == old(years) && yearCache == old(yearCache)
      ensures Usable(EffectiveRegion(old(years), year, regionCode)) && !IsLoaded(old(yearCache), year, regionCode) ==>
                data == (if fetched.Some? then DedupByDate(fetched.value) else [])
                && yearCache == old(yearCache)[year := CacheYear(old(yearCache), year)[regionCode := data]]
                && years == (if fetched.Some? then WithCount(old(years), year, regionCode, |data|) else old(years))
    {
      var eff := EffectiveRegion(years, year, regionCode);
      if !Usable(eff) {
        return [];
      }
      if IsLoaded(yearCache, year, regionCode) {
        return yearCache[year][regionCode];
      }
      if fetched.None? {
        yearCache := yearCache[year := CacheYear(yearCache, year)[regionCode := []]];
        return [];
      }
      data := DedupByDate(fetched.value);
      yearCache := yearCache[year := CacheYear(yearCache, year)[regionCode := data]];
      years := WithCount(years, year, regionCode, |data|);
    }

    /** `rebuildAllData`: the loaded lists of the current region in year order, then sorted by `date`, latest first. */
    method RebuildAllData()
      modifies this
      ensures allData == SortDesc(LoadedData(yearOrder, yearCache, currentRegion))
      ensures years == old(years) && yearOrder == old(yearOrder) && yearOffsets == old(yearOffsets)
      ensures totalItemCount == old(totalItemCount) && currentRegion == old(currentRegion) && yearCache == old(yearCache)
    {
      var data: seq<Record> := [];
      var i := 0;
      while i < |yearOrder|
        invariant 0 <= i <= |yearOrder|
        invariant data == LoadedData(yearOrder[..i], yearCache, currentRegion)
      {
        assert yearOrder[..i + 1][..i] == yearOrder[..i];
        var y := yearOrder[i];
        if y in yearCache && currentRegion in yearCache[y] {
          data := data + yearCache[y][currentRegion];
        }
        i := i + 1;
      }
      assert yearOrder[..i] == yearOrder;
      allData := SortDesc(data);
    }

    /** The month options `populateMonthDropdown` offers. */
    function Months(): seq<string>
      reads this
    {
      MonthOptions(allData, years, yearOrder, yearCache, currentRegion)
    }
  }

  /** `yearCache[year]`, or the `{}` the script creates for it. */
  function CacheYear(cache: map<nat, map<string, seq<Record>>>, year: nat): map<string, seq<Record>>
  {
    if year in cache then cache[year] else map[]
  }

  /** `regions[k] = n` on a region list: the entry's count changes in place, or a new entry is appended. */
  function SetCount(rs: seq<RegionCount>, k: string, n: nat): seq<RegionCount>
  {
    if rs == [] then [RegionCount(k, n)]
    else if rs[0].region == k then [RegionCount(k, n)] + rs[1..]
    else [rs[0]] + SetCount(rs[1..], k, n)
  }

  /** `dataIndex.years[year].regions[regionCode] = n`, creating `regions` when it is missing. */
  function WithCount(index: Index, year: nat, region: string, n: nat): Index
  {
    var rs := if HasRegions(index, year) then index[year].regions.value else [];
    index[year := YearInfo(Some(SetCount(rs, region, n)))]
  }

  /** The written count is the one the region now has; no other region's count changes. */
  lemma {:induction false} SetCountLookup(rs: seq<RegionCount>, k: string, n: nat, k': string)
    ensures Lookup(SetCount(rs, k, n), k') == if k' == k then Some(n) else Lookup(rs, k')
  {
    if rs != [] {
      SetCountLookup(rs[1..], k, n, k');
      if rs[0].region != k {
        assert SetCount(rs, k, n)[1..] == SetCount(rs[1..], k, n);
      }
    }
  }

  /** The regions keep their order; a new one goes last. */
  lemma {:induction false} SetCountKeys(rs: seq<RegionCount>, k: string, n: nat)
    ensures k in RegionKeys(rs) ==> RegionKeys(SetCount(rs, k, n)) == RegionKeys(rs)
    ensures k !in RegionKeys(rs) ==> RegionKeys(SetCount(rs, k, n)) == RegionKeys(rs) + [k]
  {
    if rs != [] {
      SetCountKeys(rs[1..], k, n);
      assert k in RegionKeys(rs) <==> rs[0].region == k || k in RegionKeys(rs[1..]);
    }
  }

  /**
   * Once a year is loaded for a region, the index gives that region the
   * loaded length: it becomes the year's effective region (if it is not
   * the empty string) and its count is the deduplicated length.
   */
  lemma LoadedCountWrittenBack(index: Index, year: nat, region: string, n: nat)
    requires region != ""
    ensures EffectiveRegion(WithCount(index, year, region, n), year, region) == Some(region)
    ensures YearRegionCount(WithCount(index, year, region, n), year, region) == n
    ensures forall y | y != year :: YearRegionCount(WithCount(index, year, region, n), y, region) == YearRegionCount(index, y, region)
  {
    var rs := if HasRegions(index, year) then index[year].regions.value else [];
    SetCountLookup(rs, region, n, region);
    SetCountKeys(rs, region, n);
    if region in RegionKeys(rs) {
      assert region in RegionKeys(SetCount(rs, region, n));
    } else {
      assert RegionKeys(SetCount(rs, region, n)) == RegionKeys(rs) + [region];
      assert RegionKeys(SetCount(rs, region, n))[|rs|] == region;
    }
  }
}
