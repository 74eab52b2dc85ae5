/**
 * python/Similarity-Retrieval.py: how far each market's archive shares its
 * pictures with the "rest of the world" (ROW) archive. A picture is
 * identified by its theme, the `OHR.<name>` part of its `urlbase`.
 */
module Similarity {
  import opened Wrappers
  import opened Text
  import opened Records
  import opened Lists
  import opened Scanners

  /** The archive the others are compared with. */
  const RowLocale: string := "ROW"

  /** The locales of the thirteen archive files the script reads. */
  const Locales: seq<string> :=
    ["ROW", "de-DE", "en-CA", "en-GB", "en-IN", "en-US", "es-ES", "fr-CA", "fr-FR", "it-IT", "ja-JP", "pt-BR", "zh-CN"]

  // ------------------------------------------------------------- themes

  /**
   * The themes a theme extractor finds in the records' `urlbase` fields;
   * KeyError at the first record without one. The lemmas below hold for
   * any extractor, so that reasoning about the list never has to look
   * inside the regular expression.
   */
  function ThemesWith(items: seq<Record>, theme: string -> Option<string>): Result<set<string>>
  {
    if items == [] then Ok({})
    else
      match ThemesWith(items[..|items| - 1], theme)
      case Err(e) => Err(e)
      case Ok(earlier) =>
        var last := items[|items| - 1];
        if UrlBaseKey in last then Ok(earlier + OptionSet(theme(last[UrlBaseKey])))
        else Err(KeyError(UrlBaseKey))
  }

  /** The theme set of one archive: the themes `extract_image_theme` finds. */
  function Themes(items: seq<Record>): Result<set<string>>
  {
    ThemesWith(items, ExtractImageTheme)
  }

  function OptionSet(o: Option<string>): set<string>
  {
    if o.Some? then {o.value} else {}
  }

  lemma ThemesStep(items: seq<Record>, theme: string -> Option<string>, k: nat)
    requires k < |items|
    ensures var before, after := ThemesWith(items[..k], theme), ThemesWith(items[..k + 1], theme);
            (before.Err? ==> after == before)
            && (before.Ok? && UrlBaseKey !in items[k] ==> after == Err(KeyError(UrlBaseKey)))
            && (before.Ok? && UrlBaseKey in items[k] ==>
                  after == Ok(before.value + OptionSet(theme(items[k][UrlBaseKey]))))
  {
    assert items[..k + 1][..k] == items[..k];
  }

  /** The theme set fails exactly when a record has no `urlbase`, and then with KeyError. */
  lemma {:induction false} ThemesErrors(items: seq<Record>, theme: string -> Option<string>)
    ensures ThemesWith(items, theme).Err? <==> exists i | 0 <= i < |items| :: UrlBaseKey !in items[i]
    ensures ThemesWith(items, theme).Err? ==> ThemesWith(items, theme).error == KeyError(UrlBaseKey)
    decreases |items|
  {
    if items != [] {
      var k := |items| - 1;
      ThemesErrors(items[..k], theme);
      ThemesStep(items, theme, k);
      assert items[..k + 1] == items;
      assert forall i | 0 <= i < k :: items[..k][i] == items[i];
    }
  }

  /** Otherwise it holds the theme of every record ... */
  lemma {:induction false} ThemesHaveAll(items: seq<Record>, theme: string -> Option<string>, i: nat)
    requires ThemesWith(items, theme).Ok? && i < |items|
    ensures UrlBaseKey in items[i]
    ensures OptionSet(theme(items[i][UrlBaseKey])) <= ThemesWith(items, theme).value
    decreases |items|
  {
    var k := |items| - 1;
    ThemesStep(items, theme, k);
    assert items[..k + 1] == items;
    if i < k {
      ThemesHaveAll(items[..k], theme, i);
      assert items[..k][i] == items[i];
    }
  }

  /** ... and nothing else. */
  lemma {:induction false} ThemesHaveOnly(items: seq<Record>, theme: string -> Option<string>, t: string)
    requires ThemesWith(items, theme).Ok? && t in ThemesWith(items, theme).value
    ensures exists i | 0 <= i < |items| :: UrlBaseKey in items[i] && t in OptionSet(theme(items[i][UrlBaseKey]))
    decreases |items|
  {
    var k := |items| - 1;
    ThemesStep(items, theme, k);
    assert items[..k + 1] == items;
    if t !in OptionSet(theme(items[k][UrlBaseKey])) {
      ThemesHaveOnly(items[..k], theme, t);
      var i :| 0 <= i < k && UrlBaseKey in items[..k][i] && t in OptionSet(theme(items[..k][i][UrlBaseKey]));
      assert items[..k][i] == items[i];
    }
  }

  /**
   * The loop `for item in data[locale]` that fills a theme set, with the
   * extractor as a parameter; the script's own loop is this one with
   * `ExtractImageTheme`, as `ThemesOfArchive` states.
   */
  method CollectThemes(items: seq<Record>, theme: string -> Option<string>) returns (r: Result<set<string>>)
    ensures r == ThemesWith(items, theme)
  {
    var themes: set<string> := {};
    var k := 0;
    while k < |items|
      invariant 0 <= k <= |items|
      invariant ThemesWith(items[..k], theme) == Ok(themes)
    {
      ThemesStep(items, theme, k);
      if UrlBaseKey !in items[k] {
        ThemesPrefixErr(items, theme, k + 1);
        return Err(KeyError(UrlBaseKey));
      }
      var t := theme(items[k][UrlBaseKey]);
      assert ThemesWith(items[..k + 1], theme) == Ok(themes + OptionSet(t));
      if t.Some? {
        themes := themes + {t.value};
      } else {
        assert themes + OptionSet(t) == themes;
      }
      k := k + 1;
    }
    assert items[..k] == items;
    return Ok(themes);
  }

  /** The theme set of one archive, as the script computes it. */
  method ThemesOfArchive(items: seq<Record>) returns (r: Result<set<string>>)
    ensures r == Themes(items)
  {
    r := CollectThemes(items, ExtractImageTheme);
  }

  lemma {:induction false} ThemesPrefixErr(items: seq<Record>, theme: string -> Option<string>, k: nat)
    requires k <= |items| && ThemesWith(items[..k], theme).Err?
    ensures ThemesWith(items, theme) == ThemesWith(items[..k], theme)
    decreases |items| - k
  {
    if k < |items| {
      ThemesStep(items, theme, k);
      ThemesPrefixErr(items, theme, k + 1);
    } else {
      assert items[..k] == items;
    }
  }

  // ------------------------------------------------------------ comparison

  /**
   * The figures of one market: its number of themes, the ROW themes it
   * lacks, the themes only it has, and the percentage of ROW themes it has.
   */
  datatype Comparison = Comparison(total: nat, missing: set<string>, extra: set<string>, matchRate: real)

  /** `match_rate`, computed on exact rationals. */
  function MatchRate(row: set<string>, local: set<string>): real
  {
    if row == {} then 0.0 else (|local * row| as real) / (|row| as real) * 100.0
  }

  function Compare(row: set<string>, local: set<string>): Comparison
  {
    Comparison(|local|, row - local, local - row, MatchRate(row, local))
  }

  /**
   * Every ROW theme is either shared or missing, every market theme either
   * shared or extra; missing and extra have nothing in common, and the
   * market's total is its shared plus its extra themes.
   */
  lemma CompareFacts(row: set<string>, local: set<string>)
    ensures var c := Compare(row, local);
            c.missing * c.extra == {}
            && c.missing <= row && c.extra <= local
            && (forall t :: t in row <==> t in local * row || t in c.missing)
            && (forall t :: t in local <==> t in local * row || t in c.extra)
            && c.total == |local * row| + |c.extra|
            && |row| == |local * row| + |c.missing|
            && (c.missing == {} && c.extra == {} <==> row == local)
  {
    assert local == (local * row) + (local - row);
    assert row == (local * row) + (row - local);
  }

  /** The rate lies between 0 and 100. */
  lemma MatchRateBounds(row: set<string>, local: set<string>)
    ensures 0.0 <= MatchRate(row, local) <= 100.0
  {
    if row != {} {
      var x, y := |local * row| as real, |row| as real;
      assert |local * row| <= |row| by { assert local * row <= row; SubsetCard(local * row, row); }
      assert x / y <= 1.0;
    }
  }

  lemma SubsetCard(a: set<string>, b: set<string>)
    requires a <= b
    ensures |a| <= |b|
    ensures |a| == |b| ==> a == b
  {
    assert b == a + (b - a);
  }

  /** How the script sorts a market. */
  datatype Category = Identical | MostlySame | Independent

  function CategoryOf(c: Comparison): Category
  {
    if c.matchRate == 100.0 then Identical else if c.matchRate >= 80.0 then MostlySame else Independent
  }

  /**
   * A market is identical to ROW exactly when ROW has themes and the market
   * lacks none of them; it is mostly the same when it has at least four
   * fifths of them but not all; an empty ROW makes every market independent.
   */
  lemma CategoryExact(row: set<string>, local: set<string>)
    ensures CategoryOf(Compare(row, local)) == Identical <==> row != {} && row - local == {}
    ensures CategoryOf(Compare(row, local)) == MostlySame <==>
              row != {} && row - local != {} && 5 * |local * row| >= 4 * |row|
    ensures row == {} ==> CategoryOf(Compare(row, local)) == Independent
  {
    if row != {} {
      var x, y := |local * row| as real, |row| as real;
      var rate := x / y * 100.0;
      assert rate * y == 100.0 * x;
      SubsetCard(local * row, row);
      assert row - local == {} <==> local * row == row;
      RateHundred(x, y);
      RateEighty(x, y);
    }
  }

  lemma RateHundred(x: real, y: real)
    requires y > 0.0
    ensures x / y * 100.0 == 100.0 <==> x == y
  {
  }

  lemma RateEighty(x: real, y: real)
    requires y > 0.0
    ensures x / y * 100.0 >= 80.0 <==> 5.0 * x >= 4.0 * y
  {
    var q := x / y;
    assert q * y == x;
    if q * 100.0 >= 80.0 {
      assert q >= 0.8;
      assert q * y >= 0.8 * y;
    } else {
      assert q < 0.8;
      assert q * y < 0.8 * y;
    }
  }

  // ------------------------------------------------------------ the report

  /**
   * `results`: the comparison of every market but ROW with ROW. The ROW
   * themes are collected first; the first archive with a record lacking
   * `urlbase` stops the script.
   */
  function Analyze(data: map<string, seq<Record>>): Result<map<string, Comparison>>
  {
    if RowLocale !in data then Err(KeyError(RowLocale))
    else
      var row :- Themes(data[RowLocale]);
      if exists l | l in data :: Themes(data[l]).Err? then Err(KeyError(UrlBaseKey))
      else Ok(map l | l in data && l != RowLocale :: Compare(row, Themes(data[l]).value))
  }

  /**
   * Without a ROW archive the script stops; otherwise it stops exactly when
   * some archive has a record without `urlbase`, and else compares every
   * other market with ROW.
   */
  lemma AnalyzeExact(data: map<string, seq<Record>>)
    ensures RowLocale !in data ==> Analyze(data) == Err(KeyError(RowLocale))
    ensures Analyze(data).Ok? <==>
              RowLocale in data && forall l | l in data :: forall i | 0 <= i < |data[l]| :: UrlBaseKey in data[l][i]
    ensures Analyze(data).Err? && RowLocale in data ==> Analyze(data).error == KeyError(UrlBaseKey)
    ensures Analyze(data).Ok? ==> Analyze(data).value.Keys == data.Keys - {RowLocale}
    ensures Analyze(data).Ok? ==> forall l | l in Analyze(data).value ::
              Analyze(data).value[l] == Compare(Themes(data[RowLocale]).value, Themes(data[l]).value)
  {
    forall l | l in data {
      ThemesErrors(data[l], ExtractImageTheme);
    }
  }

  /**
   * The thirteen files the script opens give exactly the keys of `Locales`,
   * ROW among them; so the script can stop only at a record without
   * `urlbase`, and otherwise compares every other market with ROW.
   */
  lemma ScriptFilesAnalyze(data: map<string, seq<Record>>)
    requires data.Keys == set l | l in Locales
    ensures Analyze(data).Err? ==> Analyze(data).error == KeyError(UrlBaseKey)
    ensures Analyze(data).Ok? ==> Analyze(data).value.Keys == (set l | l in Locales) - {RowLocale}
  {
    assert RowLocale == Locales[0];
    AnalyzeExact(data);
  }

  /** The markets of one category, in `results` order (sorted by locale). */
  function InCategory(results: map<string, Comparison>, cat: Category): seq<string>
  {
    Filter(SortedStrings(results.Keys), (l: string) => l in results && CategoryOf(results[l]) == cat)
  }

  /**
   * `identical`, `mostly_same` and `independent`: each list is in ascending
   * locale order and holds exactly the markets of its category, so every
   * market appears in exactly one of the three.
   */
  lemma InCategoryExact(results: map<string, Comparison>, c: Category)
    ensures StrictlyAscending(InCategory(results, c))
    ensures forall l :: l in InCategory(results, c) <==> l in results && CategoryOf(results[l]) == c
  {
    var all := SortedStrings(results.Keys);
    var p := (l: string) => l in results && CategoryOf(results[l]) == c;
    assert InCategory(results, c) == Filter(all, p);
    FilterAscending(all, p);
    forall l ensures l in Filter(all, p) <==> l in results && CategoryOf(results[l]) == c {
      FilterMembers(all, p, l);
    }
  }
}
