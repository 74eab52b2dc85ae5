/**
 * String helpers shared by the scripts: decimal digits, code-point order
 * (the order of Python's `<` on str and of JavaScript's default sort on
 * ASCII text), prefixes and substrings, and Python's replace/split.
 */
module Text {
  import opened Wrappers

  // ---------------------------------------------------------------- digits

  predicate IsDigit(c: char) { '0' <= c <= '9' }

  predicate IsDigits(s: string) { forall i | 0 <= i < |s| :: IsDigit(s[i]) }

  function DigitValue(c: char): nat
    requires IsDigit(c)
  {
    c as int - '0' as int
  }

  function DigitChar(n: nat): (c: char)
    requires n < 10
    ensures IsDigit(c) && DigitValue(c) == n
  {
    ('0' as int + n) as char
  }

  /** The value of a decimal numeral, most significant digit first. */
  function DigitsValue(s: string): nat
    requires IsDigits(s)
  {
    if s == [] then 0 else DigitsValue(s[..|s| - 1]) * 10 + DigitValue(s[|s| - 1])
  }

  function Pow10(n: nat): (p: nat)
    ensures p >= 1
  {
    if n == 0 then 1 else 10 * Pow10(n - 1)
  }

  lemma {:induction false} DigitsValueBound(s: string)
    requires IsDigits(s)
    ensures DigitsValue(s) < Pow10(|s|)
  {
    if s != [] {
      DigitsValueBound(s[..|s| - 1]);
    }
  }

  /** `n` written with exactly `width` digits, zero-padded (as strftime's %m or %Y). */
  function PadDigits(n: nat, width: nat): (s: string)
    ensures |s| == width && IsDigits(s)
  {
    if width == 0 then [] else PadDigits(n / 10, width - 1) + [DigitChar(n % 10)]
  }

  lemma {:induction false} PadDigitsValue(n: nat, width: nat)
    requires n < Pow10(width)
    ensures DigitsValue(PadDigits(n, width)) == n
  {
    if width > 0 {
      assert Pow10(width) == 10 * Pow10(width - 1);
      assert n / 10 < Pow10(width - 1);
      PadDigitsValue(n / 10, width - 1);
      PadDigitsLast(n, width);
    }
  }

  /** The last digit of a padded numeral, and the numeral before it. */
  lemma PadDigitsLast(n: nat, width: nat)
    requires width > 0
    ensures DigitsValue(PadDigits(n, width)) == DigitsValue(PadDigits(n / 10, width - 1)) * 10 + n % 10
  {
    var s := PadDigits(n, width);
    assert s[..|s| - 1] == PadDigits(n / 10, width - 1);
  }

  lemma {:induction false} DigitsPadded(s: string)
    requires IsDigits(s)
    ensures PadDigits(DigitsValue(s), |s|) == s
  {
    if s != [] {
      var init, c := s[..|s| - 1], s[|s| - 1];
      assert IsDigits(init);
      DigitsPadded(init);
      var v := DigitsValue(s);
      assert v == DigitsValue(init) * 10 + DigitValue(c);
      assert v / 10 == DigitsValue(init) && v % 10 == DigitValue(c);
      assert DigitChar(DigitValue(c)) == c;
      assert PadDigits(v, |s|) == PadDigits(v / 10, |s| - 1) + [DigitChar(v % 10)];
      assert s == init + [c];
    }
  }

  /** Two numerals of the same length with the same value are the same string. */
  lemma DigitsInjective(a: string, b: string)
    requires IsDigits(a) && IsDigits(b) && |a| == |b|
    requires DigitsValue(a) == DigitsValue(b)
    ensures a == b
  {
    DigitsPadded(a);
    DigitsPadded(b);
  }

  /** Decimal notation without leading zeros, as Python's str(int) or JavaScript's String(n). */
  function NatToString(n: nat): (s: string)
    ensures |s| >= 1 && IsDigits(s)
    ensures |s| > 1 ==> s[0] != '0'
  {
    if n < 10 then [DigitChar(n)] else NatToString(n / 10) + [DigitChar(n % 10)]
  }

  lemma {:induction false} NatToStringValue(n: nat)
    ensures DigitsValue(NatToString(n)) == n
  {
    if n >= 10 {
      var s := NatToString(n);
      assert s[..|s| - 1] == NatToString(n / 10);
      NatToStringValue(n / 10);
    }
  }

  // ---------------------------------------------------- code-point order

  /** `a <= b` on strings compared character by character (a prefix comes first). */
  predicate LexLe(a: string, b: string)
    decreases |a|
  {
    a == [] || (b != [] && (a[0] < b[0] || (a[0] == b[0] && LexLe(a[1..], b[1..]))))
  }

  predicate LexLt(a: string, b: string) { LexLe(a, b) && a != b }

  lemma {:induction false} LexLeRefl(a: string)
    ensures LexLe(a, a)
  {
    if a != [] { LexLeRefl(a[1..]); }
  }

  lemma {:induction false} LexLeAntisym(a: string, b: string)
    requires LexLe(a, b) && LexLe(b, a)
    ensures a == b
  {
    if a != [] {
      assert b != [] && a[0] == b[0];
      LexLeAntisym(a[1..], b[1..]);
      assert a == [a[0]] + a[1..] && b == [b[0]] + b[1..];
    }
  }

  lemma {:induction false} LexLeTrans(a: string, b: string, c: string)
    requires LexLe(a, b) && LexLe(b, c)
    ensures LexLe(a, c)
  {
    if a != [] && a[0] == b[0] && b[0] == c[0] {
      LexLeTrans(a[1..], b[1..], c[1..]);
    }
  }

  lemma {:induction false} LexLeTotal(a: string, b: string)
    ensures LexLe(a, b) || LexLe(b, a)
  {
    if a != [] && b != [] && a[0] == b[0] {
      LexLeTotal(a[1..], b[1..]);
    }
  }

  /** Comparing two concatenations whose first parts have the same length. */
  lemma {:induction false} LexLeConcat(p: string, q: string, p': string, q': string)
    requires |p| == |p'|
    ensures LexLe(p + q, p' + q') <==> LexLt(p, p') || (p == p' && LexLe(q, q'))
  {
    if p != [] {
      assert (p + q)[1..] == p[1..] + q && (p' + q')[1..] == p'[1..] + q';
      LexLeConcat(p[1..], q, p'[1..], q');
      assert p == [p[0]] + p[1..] && p' == [p'[0]] + p'[1..];
    } else {
      assert p + q == q && p' + q' == q';
    }
  }

  lemma {:induction false} LexLeSnoc(p: string, x: char, p': string, y: char)
    requires |p| == |p'|
    ensures LexLe(p + [x], p' + [y]) <==> LexLt(p, p') || (p == p' && x <= y)
  {
    LexLeConcat(p, [x], p', [y]);
  }

  /** On numerals of one length, code-point order is numeric order. */
  lemma {:induction false} LexLeDigits(a: string, b: string)
    requires IsDigits(a) && IsDigits(b) && |a| == |b|
    ensures LexLe(a, b) <==> DigitsValue(a) <= DigitsValue(b)
    decreases |a|
  {
    if a != [] {
      var a', b' := a[..|a| - 1], b[..|b| - 1];
      var x, y := a[|a| - 1], b[|b| - 1];
      assert a == a' + [x] && b == b' + [y];
      LexLeSnoc(a', x, b', y);
      LexLeDigits(a', b');
      LexLeDigits(b', a');
      if DigitsValue(a') == DigitsValue(b') {
        DigitsInjective(a', b');
      }
      if a' == b' {
        LexLeRefl(a');
      }
    }
  }

  // ------------------------------------------------- prefixes, substrings

  /** `name.endswith('.json')`: the file names the scripts read and clean up. */
  predicate IsJsonName(name: string)
  {
    |name| >= 5 && name[|name| - 5..] == ".json"
  }

  /** JavaScript's `s.includes(sub)` and Python's `sub in s`. */
  predicate Contains(s: string, sub: string)
    decreases |s|
  {
    sub <= s || (s != [] && Contains(s[1..], sub))
  }

  lemma {:induction false} ContainsAt(s: string, sub: string, i: nat)
    requires i + |sub| <= |s| && s[i..i + |sub|] == sub
    ensures Contains(s, sub)
  {
    if i > 0 {
      assert s[1..][i - 1..i - 1 + |sub|] == sub;
      ContainsAt(s[1..], sub, i - 1);
    }
  }

  lemma {:induction false} ContainsWitness(s: string, sub: string) returns (i: nat)
    requires Contains(s, sub)
    ensures i + |sub| <= |s| && s[i..i + |sub|] == sub
  {
    if sub <= s {
      i := 0;
    } else {
      var j := ContainsWitness(s[1..], sub);
      i := j + 1;
      assert s[1..][j..j + |sub|] == s[i..i + |sub|];
    }
  }

  predicate OccursAt(s: string, sub: string, j: int)
  {
    0 <= j && j + |sub| <= |s| && s[j..j + |sub|] == sub
  }

  /** The index of the leftmost occurrence of a non-empty `sub` at or after `from`. */
  function IndexOf(s: string, sub: string, from: nat): (r: Option<nat>)
    requires sub != []
    ensures r.Some? ==> from <= r.value && OccursAt(s, sub, r.value)
    ensures forall j | from <= j && (r.None? || j < r.value) :: !OccursAt(s, sub, j)
    decreases |s| - from
  {
    if from + |sub| > |s| then None
    else if s[from..from + |sub|] == sub then Some(from)
    else IndexOf(s, sub, from + 1)
  }

  // ------------------------------------------------ case, replace, split

  function LowerChar(c: char): char
  {
    if 'A' <= c <= 'Z' then (c as int + 32) as char else c
  }

  /** ASCII lower-casing (`toLowerCase` on the ASCII range). */
  function ToLower(s: string): (r: string)
    ensures |r| == |s| && forall i | 0 <= i < |s| :: r[i] == LowerChar(s[i])
  {
    seq(|s|, i requires 0 <= i < |s| => LowerChar(s[i]))
  }

  /** Python's `s.replace(pat, repl)` for a non-empty `pat`: left to right, non-overlapping. */
  function ReplaceAll(s: string, pat: string, repl: string): (r: string)
    requires pat != []
    ensures !Contains(s, pat) ==> r == s
    decreases |s|
  {
    if |s| < |pat| then s
    else if pat <= s then repl + ReplaceAll(s[|pat|..], pat, repl)
    else [s[0]] + ReplaceAll(s[1..], pat, repl)
  }

  /** Python's `s.split(sep)` for a non-empty separator. */
  function Split(s: string, sep: string): (parts: seq<string>)
    requires sep != []
    ensures |parts| >= 1
    ensures forall k | 0 <= k < |parts| :: !Contains(parts[k], sep)
    decreases |s|
  {
    match IndexOf(s, sep, 0)
    case None =>
      NoEarlierOccurrence(s, sep, |s|);
      assert s[..|s|] == s;
      [s]
    case Some(k) =>
      NoEarlierOccurrence(s, sep, k);
      [s[..k]] + Split(s[k + |sep|..], sep)
  }

  lemma {:induction false} NoEarlierOccurrence(s: string, sep: string, k: nat)
    requires sep != [] && k <= |s|
    requires forall j | 0 <= j < k :: !OccursAt(s, sep, j)
    ensures !Contains(s[..k], sep)
  {
    NoOccurrenceBetween(s, sep, 0, k);
    assert s[0..k] == s[..k];
  }

  /** No occurrence starts in `[i, k)`, so `s[i..k]` does not contain `sep`. */
  lemma {:induction false} NoOccurrenceBetween(s: string, sep: string, i: nat, k: nat)
    requires sep != [] && i <= k <= |s|
    requires forall j | i <= j < k :: !OccursAt(s, sep, j)
    ensures !Contains(s[i..k], sep)
    decreases k - i
  {
    if i < k {
      if |sep| <= k - i {
        assert s[i..k][..|sep|] == s[i..i + |sep|];
      }
      assert !OccursAt(s, sep, i);
      assert !(sep <= s[i..k]);
      NoOccurrenceBetween(s, sep, i + 1, k);
      assert s[i..k][1..] == s[i + 1..k];
    }
  }

  /** Replacing one character by another rewrites each position on its own. */
  lemma {:induction false} ReplaceCharPointwise(s: string, c: char, d: char)
    ensures var r := ReplaceAll(s, [c], [d]);
            |r| == |s| && forall i | 0 <= i < |s| :: r[i] == (if s[i] == c then d else s[i])
    decreases |s|
  {
    if |s| >= 1 {
      ReplaceCharPointwise(s[1..], c, d);
    }
  }

  function Join(parts: seq<string>, sep: string): string
  {
    if |parts| <= 1 then (if parts == [] then "" else parts[0])
    else parts[0] + sep + Join(parts[1..], sep)
  }

  /**
   * Replacing works at the leftmost occurrence first: the text before it is
   * kept, the occurrence becomes `repl`, and the rest is replaced in turn.
   */
  lemma {:induction false} ReplaceAllAt(s: string, pat: string, repl: string, k: nat)
    requires pat != [] && OccursAt(s, pat, k)
    requires forall j | 0 <= j < k :: !OccursAt(s, pat, j)
    ensures ReplaceAll(s, pat, repl) == s[..k] + repl + ReplaceAll(s[k + |pat|..], pat, repl)
    decreases k
  {
    ReplaceAllStep(s, pat, repl);
    if k == 0 {
      assert OccursAt(s, pat, 0);
      assert s[..0] + repl == repl;
    } else {
      var t := s[1..];
      NoOccurrenceShift(s, pat, k);
      ReplaceAllAt(t, pat, repl, k - 1);
      var rest := ReplaceAll(s[k + |pat|..], pat, repl);
      assert t[k - 1 + |pat|..] == s[k + |pat|..];
      assert ReplaceAll(t, pat, repl) == (t[..k - 1] + repl) + rest;
      assert ReplaceAll(s, pat, repl) == [s[0]] + ReplaceAll(t, pat, repl);
      ConsConcat(s[0], t[..k - 1], repl, rest);
      assert [s[0]] + t[..k - 1] == s[..k];
    }
  }

  lemma ConsConcat(c: char, a: string, b: string, d: string)
    ensures [c] + ((a + b) + d) == (([c] + a) + b) + d
  {
  }

  /** Dropping the first character moves the occurrences of `pat` one place to the left. */
  lemma NoOccurrenceShift(s: string, pat: string, k: nat)
    requires 0 < k && OccursAt(s, pat, k)
    requires forall j | 0 <= j < k :: !OccursAt(s, pat, j)
    ensures OccursAt(s[1..], pat, k - 1) && !OccursAt(s, pat, 0)
    ensures forall j | 0 <= j < k - 1 :: !OccursAt(s[1..], pat, j)
  {
    OccursShift(s, pat, k - 1);
    forall j | 0 <= j < k - 1 ensures !OccursAt(s[1..], pat, j) {
      OccursShift(s, pat, j);
    }
  }

  /** One step of the scan: an occurrence at the front is replaced, otherwise the first character is kept. */
  lemma ReplaceAllStep(s: string, pat: string, repl: string)
    requires pat != [] && |pat| <= |s|
    ensures OccursAt(s, pat, 0) ==> ReplaceAll(s, pat, repl) == repl + ReplaceAll(s[|pat|..], pat, repl)
    ensures !OccursAt(s, pat, 0) ==> ReplaceAll(s, pat, repl) == [s[0]] + ReplaceAll(s[1..], pat, repl)
  {
    assert s[..|pat|] == s[0..|pat|];
  }

  /** An occurrence in `s[1..]` at `j` is one in `s` at `j + 1`. */
  lemma OccursShift(s: string, sub: string, j: nat)
    requires s != []
    ensures OccursAt(s[1..], sub, j) <==> OccursAt(s, sub, j + 1)
  {
    if j + 1 + |sub| <= |s| {
      assert s[1..][j..j + |sub|] == s[j + 1..j + 1 + |sub|];
    }
  }

  /** `s.replace(pat, repl)` is `repl.join(s.split(pat))`. */
  lemma {:induction false} ReplaceAllSplitJoin(s: string, pat: string, repl: string)
    requires pat != []
    ensures ReplaceAll(s, pat, repl) == Join(Split(s, pat), repl)
    decreases |s|
  {
    match IndexOf(s, pat, 0)
    case None =>
      NoEarlierOccurrence(s, pat, |s|);
      assert s[..|s|] == s;
    case Some(k) =>
      var rest := s[k + |pat|..];
      var parts := Split(s, pat);
      assert parts == [s[..k]] + Split(rest, pat);
      assert parts[1..] == Split(rest, pat);
      ReplaceAllAt(s, pat, repl, k);
      ReplaceAllSplitJoin(rest, pat, repl);
  }

  /** Splitting and joining again with the same separator gives back the string. */
  lemma {:induction false} JoinSplit(s: string, sep: string)
    requires sep != []
    ensures Join(Split(s, sep), sep) == s
    decreases |s|
  {
    var found := IndexOf(s, sep, 0);
    if found.Some? {
      var k := found.value;
      var rest := s[k + |sep|..];
      var parts := Split(s, sep);
      assert parts == [s[..k]] + Split(rest, sep);
      assert parts[1..] == Split(rest, sep);
      JoinSplit(rest, sep);
      assert Join(parts, sep) == s[..k] + sep + Join(Split(rest, sep), sep);
      assert s[k..k + |sep|] == sep;
      assert s == s[..k] + s[k..k + |sep|] + rest;
    }
  }

  /** Python's `s[a:b]` for non-negative bounds: out-of-range bounds are clamped. */
  function PySlice(s: string, a: nat, b: nat): (r: string)
    ensures a <= b && b <= |s| ==> r == s[a..b]
    ensures a >= |s| || b <= a ==> r == []
  {
    var lo := if a < |s| then a else |s|;
    var hi := if b < |s| then b else |s|;
    if hi <= lo then [] else s[lo..hi]
  }

  // ------------------------------------------------ sorted string sets

  /** Every element comes strictly before the ones after it. */
  predicate StrictlyAscending(s: seq<string>)
  {
    forall i, j | 0 <= i < j < |s| :: LexLt(s[i], s[j])
  }

  predicate IsLeast(m: string, s: set<string>)
  {
    m in s && forall y | y in s :: LexLe(m, y)
  }

  lemma LeastExists(s: set<string>)
    requires s != {}
    ensures exists m :: IsLeast(m, s)
  {
    var x :| x in s;
    if s != {x} {
      LeastExists(s - {x});
      var m' :| IsLeast(m', s - {x});
      LexLeTotal(x, m');
      if LexLe(x, m') {
        forall y | y in s ensures LexLe(x, y) {
          if y == x { LexLeRefl(x); } else { LexLeTrans(x, m', y); }
        }
        assert IsLeast(x, s);
      } else {
        assert IsLeast(m', s);
      }
    } else {
      LexLeRefl(x);
      assert IsLeast(x, s);
    }
  }

  lemma LeastUnique(s: set<string>)
    ensures forall a, b | IsLeast(a, s) && IsLeast(b, s) :: a == b
  {
    forall a, b | IsLeast(a, s) && IsLeast(b, s) ensures a == b {
      LexLeAntisym(a, b);
    }
  }

  /** Python's `sorted(s)` on a set of strings. */
  function SortedStrings(s: set<string>): (r: seq<string>)
    ensures |r| == |s|
    ensures forall x :: x in r <==> x in s
    ensures StrictlyAscending(r)
    decreases |s|
  {
    if s == {} then []
    else
      LeastExists(s);
      LeastUnique(s);
      var m :| IsLeast(m, s);
      var rest := SortedStrings(s - {m});
      PrependLeast(m, s, rest);
      [m] + rest
  }

  /** The least element followed by the sorted rest is the sorted whole. */
  lemma PrependLeast(m: string, s: set<string>, rest: seq<string>)
    requires IsLeast(m, s) && |rest| == |s - {m}| && StrictlyAscending(rest)
    requires forall x :: x in rest <==> x in s - {m}
    ensures |[m] + rest| == |s|
    ensures forall x :: x in [m] + rest <==> x in s
    ensures StrictlyAscending([m] + rest)
  {
    forall j | 0 <= j < |rest| ensures LexLt(m, rest[j]) {
      assert rest[j] in s - {m};
    }
    var r := [m] + rest;
    forall i, j | 0 <= i < j < |r| ensures LexLt(r[i], r[j]) {
      if i > 0 {
        assert r[i] == rest[i - 1] && r[j] == rest[j - 1];
      }
    }
  }

  /** A strictly ascending listing of a set is unique: it is `sorted` of that set. */
  lemma {:induction false} AscendingUnique(a: seq<string>, b: seq<string>)
    requires StrictlyAscending(a) && StrictlyAscending(b)
    requires forall x :: x in a <==> x in b
    ensures a == b
    decreases |a|
  {
    if a != [] {
      assert a[0] in b;
      assert b != [] && b[0] in a;
      var i :| 0 <= i < |b| && b[i] == a[0];
      var j :| 0 <= j < |a| && a[j] == b[0];
      if i != 0 && j != 0 {
        assert LexLt(b[0], b[i]) && LexLt(a[0], a[j]);
        LexLeAntisym(a[0], b[0]);
      }
      assert a[0] == b[0];
      forall x ensures x in a[1..] <==> x in b[1..] {
        if x in a[1..] {
          var k :| 1 <= k < |a| && a[k] == x;
          assert LexLt(a[0], a[k]);
          assert x in b;
        }
        if x in b[1..] {
          var k :| 1 <= k < |b| && b[k] == x;
          assert LexLt(b[0], b[k]);
          assert x in a;
        }
      }
      AscendingUnique(a[1..], b[1..]);
      assert a == [a[0]] + a[1..] && b == [b[0]] + b[1..];
    } else {
      NoMembersEmpty(b);
    }
  }

  lemma NoMembersEmpty(b: seq<string>)
    ensures (forall x :: x !in b) ==> b == []
  {
    if b != [] {
      assert b[0] in b;
    }
  }
}
