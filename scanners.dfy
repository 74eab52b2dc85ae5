/**
 * The few regular expressions of the scripts, written out as scanners.
 *
 * Each pattern is a literal prefix, one or two greedy runs of a character
 * class, and possibly a literal after the run. The character after a
 * greedy run is never in the run's class, so no backtracking can produce
 * another match: a pattern matches at a position exactly when the
 * maximal runs there satisfy it. Python's `re.search` and JavaScript's
 * `String.prototype.match` (without the `g` flag) both return the match
 * that starts leftmost.
 */
module Scanners {
  import opened Wrappers
  import opened Text

  // ------------------------------------------------------ character classes

  datatype CharClass =
    | CoordChar      // [0-9.-]
    | IdChar         // [A-Za-z0-9.]
    | AlnumChar      // [A-Za-z0-9]
    | TokenChar      // [a-zA-Z0-9_-]
    | NotUnderscore  // [^_]

  predicate IsAsciiLetter(c: char) { 'A' <= c <= 'Z' || 'a' <= c <= 'z' }

  predicate InClass(c: char, k: CharClass)
  {
    match k
    case CoordChar => IsDigit(c) || c == '.' || c == '-'
    case IdChar => IsAsciiLetter(c) || IsDigit(c) || c == '.'
    case AlnumChar => IsAsciiLetter(c) || IsDigit(c)
    case TokenChar => IsAsciiLetter(c) || IsDigit(c) || c == '_' || c == '-'
    case NotUnderscore => c != '_'
  }

  predicate AllIn(s: string, k: CharClass)
  {
    forall m | 0 <= m < |s| :: InClass(s[m], k)
  }

  /** The end of the longest run of class `k` that starts at `i` (a greedy `k*`). */
  function RunEnd(s: string, i: nat, k: CharClass): (j: nat)
    requires i <= |s|
    ensures i <= j <= |s|
    ensures forall m | i <= m < j :: InClass(s[m], k)
    ensures j == |s| || !InClass(s[j], k)
    decreases |s| - i
  {
    if i < |s| && InClass(s[i], k) then RunEnd(s, i + 1, k) else i
  }

  lemma RunEndAllIn(s: string, i: nat, k: CharClass)
    requires i <= |s|
    ensures AllIn(s[i..RunEnd(s, i, k)], k)
  {
    var j := RunEnd(s, i, k);
    forall m | 0 <= m < j - i ensures InClass(s[i..j][m], k) {
      assert s[i..j][m] == s[i + m];
    }
  }

  // ----------------------------------------------------------- the patterns

  datatype Pattern =
    | MapLinkPattern     // [&?]pp=([0-9.-]+,[0-9.-]+)           group 1
    | ImageIdPattern     // id=([A-Za-z0-9\.]+)_                  group 1
    | ThemePattern       // OHR\.([^_]+)                          group 0
    | KeywordPattern     // OHR\.([A-Za-z0-9]+)                   group 1
    | NameTokenPattern   // OHR\.([a-zA-Z0-9_-]+)                 group 1

  /** Does the literal `lit` occur in `s` at position `i`? */
  predicate LiteralAt(s: string, i: nat, lit: string)
  {
    i + |lit| <= |s| && s[i..i + |lit|] == lit
  }

  /** `OHR.` followed by a non-empty greedy run of `k`: the run's end. */
  function OhrRunAt(s: string, i: nat, k: CharClass): (r: Option<nat>)
    requires i <= |s|
    ensures r.Some? ==> i + 4 < r.value <= |s|
  {
    if LiteralAt(s, i, "OHR.") && RunEnd(s, i + 4, k) > i + 4 then Some(RunEnd(s, i + 4, k)) else None
  }

  /** The group the pattern reports when it matches at position `i`. */
  function MatchAt(p: Pattern, s: string, i: nat): Option<string>
    requires i <= |s|
  {
    match p
    case MapLinkPattern =>
      if i + 4 <= |s| && (s[i] == '&' || s[i] == '?') && s[i + 1..i + 4] == "pp=" then
        var a := RunEnd(s, i + 4, CoordChar);
        if a > i + 4 && a < |s| && s[a] == ',' && RunEnd(s, a + 1, CoordChar) > a + 1
        then Some(s[i + 4..RunEnd(s, a + 1, CoordChar)])
        else None
      else None
    case ImageIdPattern =>
      if LiteralAt(s, i, "id=") then
        var a := RunEnd(s, i + 3, IdChar);
        if a > i + 3 && a < |s| && s[a] == '_' then Some(s[i + 3..a]) else None
      else None
    case ThemePattern =>
      var e := OhrRunAt(s, i, NotUnderscore);
      if e.Some? then Some(s[i..e.value]) else None
    case KeywordPattern =>
      var e := OhrRunAt(s, i, AlnumChar);
      if e.Some? then Some(s[i + 4..e.value]) else None
    case NameTokenPattern =>
      var e := OhrRunAt(s, i, TokenChar);
      if e.Some? then Some(s[i + 4..e.value]) else None
  }

  /** The leftmost position at or after `from` where the pattern matches. */
  function FindMatch(p: Pattern, s: string, from: nat): (r: Option<nat>)
    requires from <= |s|
    ensures r.Some? ==> from <= r.value <= |s| && MatchAt(p, s, r.value).Some?
    ensures forall j | from <= j <= |s| && (r.None? || j < r.value) :: MatchAt(p, s, j).None?
    decreases |s| - from
  {
    if MatchAt(p, s, from).Some? then Some(from)
    else if from == |s| then None
    else FindMatch(p, s, from + 1)
  }

  /** The pattern matches somewhere in `s`. */
  predicate HasMatch(p: Pattern, s: string)
  {
    exists i | 0 <= i <= |s| :: MatchAt(p, s, i).Some?
  }

  /** `v` is what the pattern yields at its leftmost match in `s`. */
  predicate IsLeftmostMatch(p: Pattern, s: string, v: string)
  {
    exists i | 0 <= i <= |s| :: MatchAt(p, s, i) == Some(v) && forall j | 0 <= j < i :: MatchAt(p, s, j).None?
  }

  /** `re.search(pattern, s)` and `s.match(pattern)`: the group of the leftmost match. */
  function Search(p: Pattern, s: string): (r: Option<string>)
    ensures r.Some? <==> HasMatch(p, s)
    ensures r.Some? ==> IsLeftmostMatch(p, s, r.value)
  {
    match FindMatch(p, s, 0)
    case None => None
    case Some(i) => MatchAt(p, s, i)
  }

  /** A match at `i` means the pattern's literal occurs at `i`. */
  lemma MatchNeedsLiteral(p: Pattern, s: string, i: nat)
    requires i <= |s| && MatchAt(p, s, i).Some?
    ensures p == ImageIdPattern ==> LiteralAt(s, i, "id=")
    ensures p.ThemePattern? || p.KeywordPattern? || p.NameTokenPattern? ==> LiteralAt(s, i, "OHR.")
    ensures p == MapLinkPattern ==> LiteralAt(s, i + 1, "pp=")
  {
  }

  lemma NoLiteralNoMatch(p: Pattern, s: string, lit: string)
    requires p == ImageIdPattern ==> lit == "id="
    requires p.ThemePattern? || p.KeywordPattern? || p.NameTokenPattern? ==> lit == "OHR."
    requires p == MapLinkPattern ==> lit == "pp="
    requires !Contains(s, lit)
    ensures Search(p, s) == None
  {
    var found := FindMatch(p, s, 0);
    if found.Some? {
      var i := found.value;
      MatchNeedsLiteral(p, s, i);
      if p == MapLinkPattern {
        ContainsAt(s, lit, i + 1);
      } else {
        ContainsAt(s, lit, i);
      }
    }
  }

  // ---------------------------------------------------------- the extractors

  /** Two non-empty runs of `[0-9.-]` joined by one comma. */
  predicate IsCoordinatePair(v: string)
  {
    exists k | 0 < k < |v| - 1 :: v[k] == ',' && AllIn(v[..k], CoordChar) && AllIn(v[k + 1..], CoordChar)
  }

  lemma MapLinkMatchShape(s: string, i: nat)
    requires i <= |s| && MatchAt(MapLinkPattern, s, i).Some?
    ensures IsCoordinatePair(MatchAt(MapLinkPattern, s, i).value)
  {
    var a := RunEnd(s, i + 4, CoordChar);
    var b := RunEnd(s, a + 1, CoordChar);
    var v := s[i + 4..b];
    var k := a - (i + 4);
    assert v[k] == ',';
    RunEndAllIn(s, i + 4, CoordChar);
    RunEndAllIn(s, a + 1, CoordChar);
    assert v[..k] == s[i + 4..a];
    assert v[k + 1..] == s[a + 1..b];
  }

  lemma MapLinkMatchIn(s: string, i: nat)
    requires i <= |s| && MatchAt(MapLinkPattern, s, i).Some?
    ensures Contains(s, MatchAt(MapLinkPattern, s, i).value)
  {
    var a := RunEnd(s, i + 4, CoordChar);
    var b := RunEnd(s, a + 1, CoordChar);
    var v := s[i + 4..b];
    assert MatchAt(MapLinkPattern, s, i) == Some(v);
    assert |v| == b - (i + 4);
    assert s[i + 4..i + 4 + |v|] == v;
    ContainsAt(s, v, i + 4);
  }

  lemma MapLinkSearchFacts(url: string)
    requires Search(MapLinkPattern, url).Some?
    ensures IsCoordinatePair(Search(MapLinkPattern, url).value) && Contains(url, Search(MapLinkPattern, url).value)
  {
    var i := FindMatch(MapLinkPattern, url, 0).value;
    assert Search(MapLinkPattern, url) == MatchAt(MapLinkPattern, url, i);
    MapLinkMatchShape(url, i);
    MapLinkMatchIn(url, i);
  }

  /**
   * `extract_maplink_coordinates`: None for an empty string or no match,
   * otherwise the coordinate pair of the leftmost `&pp=` or `?pp=`.
   */
  function ExtractMapLinkCoordinates(url: string): (r: Option<string>)
    ensures url == "" ==> r.None?
    ensures !Contains(url, "pp=") ==> r.None?
    ensures r.Some? ==> IsCoordinatePair(r.value) && Contains(url, r.value)
    ensures url != "" ==> (r.Some? <==> HasMatch(MapLinkPattern, url))
    ensures r.Some? ==> IsLeftmostMatch(MapLinkPattern, url, r.value)
  {
    if url == "" then None
    else
      if !Contains(url, "pp=") then NoLiteralNoMatch(MapLinkPattern, url, "pp="); None
      else if Search(MapLinkPattern, url).None? then None
      else MapLinkSearchFacts(url); Search(MapLinkPattern, url)
  }

  lemma ImageIdMatchShape(s: string, i: nat)
    requires i <= |s| && MatchAt(ImageIdPattern, s, i).Some?
    ensures var v := MatchAt(ImageIdPattern, s, i).value;
            v != [] && AllIn(v, IdChar) && i + |v| + 4 <= |s| && s[i..i + |v| + 4] == "id=" + v + "_"
  {
    var a := RunEnd(s, i + 3, IdChar);
    RunEndAllIn(s, i + 3, IdChar);
    assert s[i..a + 1] == s[i..i + 3] + s[i + 3..a] + [s[a]];
  }

  lemma ImageIdSearchFacts(url: string)
    ensures !Contains(url, "id=") ==> Search(ImageIdPattern, url).None?
    ensures Search(ImageIdPattern, url).Some? ==>
              var v := Search(ImageIdPattern, url).value;
              v != [] && AllIn(v, IdChar) && Contains(url, "id=" + v + "_")
  {
    if !Contains(url, "id=") { NoLiteralNoMatch(ImageIdPattern, url, "id="); }
    var r := Search(ImageIdPattern, url);
    if r.Some? {
      var i := FindMatch(ImageIdPattern, url, 0).value;
      ImageIdMatchShape(url, i);
      ContainsAt(url, "id=" + r.value + "_", i);
    }
  }

  /**
   * `get_image_id_from_url`: None for an empty string or no match,
   * otherwise the leftmost non-empty `[A-Za-z0-9.]` run after `id=` that is
   * followed by `_`.
   */
  function ImageIdFromUrl(url: string): (r: Option<string>)
    ensures url == "" ==> r.None?
    ensures !Contains(url, "id=") ==> r.None?
    ensures r.Some? ==> r.value != [] && AllIn(r.value, IdChar) && Contains(url, "id=" + r.value + "_")
    ensures url != "" ==> (r.Some? <==> HasMatch(ImageIdPattern, url))
    ensures r.Some? ==> IsLeftmostMatch(ImageIdPattern, url, r.value)
  {
    if url == "" then None
    else ImageIdSearchFacts(url); Search(ImageIdPattern, url)
  }

  lemma ThemeMatchShape(s: string, i: nat)
    requires i <= |s| && MatchAt(ThemePattern, s, i).Some?
    ensures var v := MatchAt(ThemePattern, s, i).value;
            |v| > 4 && v[..4] == "OHR." && AllIn(v[4..], NotUnderscore)
  {
    var e := RunEnd(s, i + 4, NotUnderscore);
    assert OhrRunAt(s, i, NotUnderscore) == Some(e);
    RunEndAllIn(s, i + 4, NotUnderscore);
    assert s[i..e][4..] == s[i + 4..e];
  }

  lemma ThemeMatchIn(s: string, i: nat)
    requires i <= |s| && MatchAt(ThemePattern, s, i).Some?
    ensures Contains(s, MatchAt(ThemePattern, s, i).value)
  {
    var e := RunEnd(s, i + 4, NotUnderscore);
    assert OhrRunAt(s, i, NotUnderscore) == Some(e);
    var v := s[i..e];
    assert MatchAt(ThemePattern, s, i) == Some(v);
    assert s[i..i + |v|] == v;
    ContainsAt(s, v, i);
  }

  lemma ThemeSearchFacts(s: string)
    requires Search(ThemePattern, s).Some?
    ensures var v := Search(ThemePattern, s).value;
            |v| > 4 && v[..4] == "OHR." && AllIn(v[4..], NotUnderscore) && Contains(s, v)
  {
    var i := FindMatch(ThemePattern, s, 0).value;
    assert Search(ThemePattern, s) == MatchAt(ThemePattern, s, i);
    ThemeMatchShape(s, i);
    ThemeMatchIn(s, i);
  }

  /**
   * `extract_image_theme`: the whole leftmost match of `OHR.` and a
   * non-empty run without `_`, or None.
   */
  function ExtractImageTheme(s: string): (r: Option<string>)
    ensures !Contains(s, "OHR.") ==> r.None?
    ensures r.Some? ==> |r.value| > 4 && r.value[..4] == "OHR." && AllIn(r.value[4..], NotUnderscore)
    ensures r.Some? ==> Contains(s, r.value)
    ensures r.Some? <==> HasMatch(ThemePattern, s)
    ensures r.Some? ==> IsLeftmostMatch(ThemePattern, s, r.value)
  {
    if !Contains(s, "OHR.") then NoLiteralNoMatch(ThemePattern, s, "OHR."); None
    else if Search(ThemePattern, s).None? then None
    else ThemeSearchFacts(s); Search(ThemePattern, s)
  }

  lemma OhrGroupShape(p: Pattern, k: CharClass, s: string, i: nat)
    requires (p == KeywordPattern && k == AlnumChar) || (p == NameTokenPattern && k == TokenChar)
    requires i <= |s| && MatchAt(p, s, i).Some?
    ensures var v := MatchAt(p, s, i).value;
            v != [] && AllIn(v, k) && i + |v| + 4 <= |s| && s[i..i + |v| + 4] == "OHR." + v
  {
    var e := RunEnd(s, i + 4, k);
    assert OhrRunAt(s, i, k) == Some(e);
    RunEndAllIn(s, i + 4, k);
    assert s[i..e] == s[i..i + 4] + s[i + 4..e];
  }

  lemma OhrGroupFacts(p: Pattern, k: CharClass, s: string)
    requires (p == KeywordPattern && k == AlnumChar) || (p == NameTokenPattern && k == TokenChar)
    ensures !Contains(s, "OHR.") ==> Search(p, s).None?
    ensures Search(p, s).Some? ==>
              var v := Search(p, s).value;
              v != [] && AllIn(v, k) && Contains(s, "OHR." + v)
  {
    if !Contains(s, "OHR.") { NoLiteralNoMatch(p, s, "OHR."); }
    var r := Search(p, s);
    if r.Some? {
      var i := FindMatch(p, s, 0).value;
      OhrGroupShape(p, k, s, i);
      ContainsAt(s, "OHR." + r.value, i);
    }
  }

  /** The group of `OHR\.([A-Za-z0-9]+)`, which the search filter lower-cases. */
  function UrlKeyword(s: string): (r: Option<string>)
    ensures !Contains(s, "OHR.") ==> r.None?
    ensures r.Some? ==> r.value != [] && AllIn(r.value, AlnumChar) && Contains(s, "OHR." + r.value)
    ensures r.Some? <==> HasMatch(KeywordPattern, s)
    ensures r.Some? ==> IsLeftmostMatch(KeywordPattern, s, r.value)
  {
    OhrGroupFacts(KeywordPattern, AlnumChar, s); Search(KeywordPattern, s)
  }

  /** The group of `OHR\.([a-zA-Z0-9_-]+)` used for download names. */
  function NameToken(s: string): (r: Option<string>)
    ensures !Contains(s, "OHR.") ==> r.None?
    ensures r.Some? ==> r.value != [] && AllIn(r.value, TokenChar) && Contains(s, "OHR." + r.value)
    ensures r.Some? <==> HasMatch(NameTokenPattern, s)
    ensures r.Some? ==> IsLeftmostMatch(NameTokenPattern, s, r.value)
  {
    OhrGroupFacts(NameTokenPattern, TokenChar, s); Search(NameTokenPattern, s)
  }

  /** `s.replace(/\d+$/, '')`: drops the longest run of digits at the end. */
  function StripTrailingDigits(s: string): (r: string)
    ensures r <= s
    ensures IsDigits(s[|r|..])
    ensures r == [] || !IsDigit(r[|r| - 1])
  {
    if s != [] && IsDigit(s[|s| - 1]) then
      var r := StripTrailingDigits(s[..|s| - 1]);
      assert s[|r|..] == s[..|s| - 1][|r|..] + [s[|s| - 1]];
      r
    else s
  }
}
