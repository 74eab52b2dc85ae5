/**
 * Generic list operations the scripts build on: the comprehension filter
 * `[x for x in s if p(x)]` (JavaScript's `s.filter(p)`), order-preserving
 * subsequences, and the "first occurrence of each key" filter that both
 * front-end scripts run with a `seen` set.
 */
module Lists {
  import opened Text

  /** `[x for x in s if p(x)]`. */
  function Filter<T>(s: seq<T>, p: T -> bool): (r: seq<T>)
    ensures |r| <= |s|
    ensures forall i | 0 <= i < |r| :: p(r[i])
  {
    if s == [] then [] else (if p(s[0]) then [s[0]] else []) + Filter(s[1..], p)
  }

  /** `a` is `b` with some elements deleted, the rest in their order. */
  predicate IsSubsequence<T(==)>(a: seq<T>, b: seq<T>)
    decreases |b|
  {
    a == [] || (b != [] && ((a[0] == b[0] && IsSubsequence(a[1..], b[1..])) || IsSubsequence(a, b[1..])))
  }

  /** A subsequence of a subsequence of `c` is a subsequence of `c`. */
  lemma {:induction false} SubsequenceTrans<T>(a: seq<T>, b: seq<T>, c: seq<T>)
    requires IsSubsequence(a, b) && IsSubsequence(b, c)
    ensures IsSubsequence(a, c)
    decreases |c|
  {
    if a != [] {
      if IsSubsequence(b, c[1..]) {
        SubsequenceTrans(a, b, c[1..]);
      } else if IsSubsequence(a, b[1..]) {
        SubsequenceTrans(a, b[1..], c[1..]);
      } else {
        SubsequenceTrans(a[1..], b[1..], c[1..]);
      }
    }
  }

  lemma {:induction false} FilterMembers<T>(s: seq<T>, p: T -> bool, x: T)
    ensures x in Filter(s, p) <==> x in s && p(x)
  {
    if s != [] {
      FilterMembers(s[1..], p, x);
      assert s == [s[0]] + s[1..];
    }
  }

  /** The filter keeps exactly the elements that satisfy the condition, in their order. */
  lemma {:induction false} FilterSubsequence<T>(s: seq<T>, p: T -> bool)
    ensures IsSubsequence(Filter(s, p), s)
  {
    if s != [] {
      FilterSubsequence(s[1..], p);
      var r := Filter(s, p);
      if p(s[0]) {
        assert r[0] == s[0] && r[1..] == Filter(s[1..], p);
      } else {
        assert r == Filter(s[1..], p);
      }
    }
  }

  lemma {:induction false} FilterConcat<T>(a: seq<T>, b: seq<T>, p: T -> bool)
    ensures Filter(a + b, p) == Filter(a, p) + Filter(b, p)
  {
    if a != [] {
      assert (a + b)[1..] == a[1..] + b;
      FilterConcat(a[1..], b, p);
    } else {
      assert a + b == b;
    }
  }

  /** Filtering a list whose every element passes changes nothing. */
  lemma {:induction false} FilterAllPass<T>(s: seq<T>, p: T -> bool)
    requires forall i | 0 <= i < |s| :: p(s[i])
    ensures Filter(s, p) == s
  {
    if s != [] {
      FilterAllPass(s[1..], p);
      assert s == [s[0]] + s[1..];
    }
  }

  /** Filtering twice with one condition is filtering once. */
  lemma FilterIdempotent<T>(s: seq<T>, p: T -> bool)
    ensures Filter(Filter(s, p), p) == Filter(s, p)
  {
    FilterAllPass(Filter(s, p), p);
  }

  /** The filter drops something exactly when some element fails the condition. */
  lemma {:induction false} FilterShorter<T>(s: seq<T>, p: T -> bool)
    ensures |Filter(s, p)| < |s| <==> exists i | 0 <= i < |s| :: !p(s[i])
  {
    if s != [] {
      FilterShorter(s[1..], p);
      if exists i | 0 <= i < |s| :: !p(s[i]) {
        var i :| 0 <= i < |s| && !p(s[i]);
        if i > 0 {
          assert s[1..][i - 1] == s[i];
        }
      }
      if exists i | 0 <= i < |s[1..]| :: !p(s[1..][i]) {
        var i :| 0 <= i < |s[1..]| && !p(s[1..][i]);
        assert s[i + 1] == s[1..][i];
      }
    }
  }

  // --------------------------------------------- first occurrence per key

  /** `s.filter(x => { if (seen.has(key(x))) return false; seen.add(key(x)); return true; })` with `seen` starting at `seen0`. */
  function DedupFrom<T, K(==)>(s: seq<T>, key: T -> K, seen0: set<K>): (r: seq<T>)
    ensures |r| <= |s|
    ensures forall i | 0 <= i < |r| :: key(r[i]) !in seen0
  {
    if s == [] then []
    else if key(s[0]) in seen0 then DedupFrom(s[1..], key, seen0)
    else [s[0]] + DedupFrom(s[1..], key, seen0 + {key(s[0])})
  }

  /** Keeps the first element of each key, in order. */
  function Dedup<T, K(==)>(s: seq<T>, key: T -> K): seq<T>
  {
    DedupFrom(s, key, {})
  }

  predicate DistinctKeys<T, K(==)>(s: seq<T>, key: T -> K)
  {
    forall i, j | 0 <= i < j < |s| :: key(s[i]) != key(s[j])
  }

  /** Keys of `s` as a set. */
  function KeySet<T, K(==)>(s: seq<T>, key: T -> K): (ks: set<K>)
    ensures forall i | 0 <= i < |s| :: key(s[i]) in ks
    ensures forall k | k in ks :: exists i | 0 <= i < |s| :: key(s[i]) == k
  {
    set i | 0 <= i < |s| :: key(s[i])
  }

  /**
   * What the `seen` filter keeps: an order-preserving subsequence with
   * pairwise different keys, covering every key not seen before.
   */
  lemma {:induction false} DedupFromFacts<T, K>(s: seq<T>, key: T -> K, seen0: set<K>)
    ensures IsSubsequence(DedupFrom(s, key, seen0), s)
    ensures DistinctKeys(DedupFrom(s, key, seen0), key)
    ensures KeySet(DedupFrom(s, key, seen0), key) == KeySet(s, key) - seen0
  {
    if s != [] {
      var r := DedupFrom(s, key, seen0);
      var k := key(s[0]);
      if k in seen0 {
        DedupFromFacts(s[1..], key, seen0);
        KeySetCons(s, key);
      } else {
        var t := DedupFrom(s[1..], key, seen0 + {k});
        DedupFromFacts(s[1..], key, seen0 + {k});
        assert r == [s[0]] + t && r[1..] == t;
        forall i, j | 0 <= i < j < |r| ensures key(r[i]) != key(r[j]) {
          if i > 0 {
            assert r[i] == t[i - 1] && r[j] == t[j - 1];
          } else {
            assert r[j] == t[j - 1];
          }
        }
        KeySetCons(s, key);
        KeySetCons(r, key);
      }
    }
  }

  lemma KeySetCons<T, K>(s: seq<T>, key: T -> K)
    requires s != []
    ensures KeySet(s, key) == {key(s[0])} + KeySet(s[1..], key)
  {
    forall k | k in KeySet(s, key) ensures k in {key(s[0])} + KeySet(s[1..], key) {
      var i :| 0 <= i < |s| && key(s[i]) == k;
      if i > 0 {
        assert s[1..][i - 1] == s[i];
      }
    }
  }

  /** An element no earlier element shares its key with is kept. */
  lemma {:induction false} DedupKeepsFirst<T, K>(s: seq<T>, key: T -> K, seen0: set<K>, i: nat)
    requires i < |s|
    requires key(s[i]) !in seen0 && forall j | 0 <= j < i :: key(s[j]) != key(s[i])
    ensures s[i] in DedupFrom(s, key, seen0)
  {
    if i > 0 {
      var k := key(s[0]);
      assert s[1..][i - 1] == s[i];
      if k in seen0 {
        DedupKeepsFirst(s[1..], key, seen0, i - 1);
      } else {
        DedupKeepsFirst(s[1..], key, seen0 + {k}, i - 1);
      }
    }
  }

  /** Every kept element is the first element of the list with its key. */
  lemma {:induction false} DedupOnlyFirsts<T, K>(s: seq<T>, key: T -> K, seen0: set<K>)
    ensures forall x | x in DedupFrom(s, key, seen0) :: exists i | 0 <= i < |s| ::
              s[i] == x && key(x) !in seen0 && forall j | 0 <= j < i :: key(s[j]) != key(x)
  {
    if s != [] {
      var k := key(s[0]);
      var seen1 := if k in seen0 then seen0 else seen0 + {k};
      DedupOnlyFirsts(s[1..], key, seen1);
      forall x | x in DedupFrom(s, key, seen0)
        ensures exists i | 0 <= i < |s| :: s[i] == x && key(x) !in seen0 && forall j | 0 <= j < i :: key(s[j]) != key(x)
      {
        if k !in seen0 && x == s[0] {
          assert s[0] == x;
        } else {
          assert x in DedupFrom(s[1..], key, seen1);
          var i :| 0 <= i < |s[1..]| && s[1..][i] == x && key(x) !in seen1 && forall j | 0 <= j < i :: key(s[1..][j]) != key(x);
          assert s[i + 1] == x;
          forall j | 0 <= j < i + 1 ensures key(s[j]) != key(x) {
            if j > 0 { assert s[j] == s[1..][j - 1]; }
          }
        }
      }
    }
  }

  /** Deduplicating a list whose keys are already distinct changes nothing. */
  lemma {:induction false} DedupOfDistinct<T, K>(s: seq<T>, key: T -> K, seen0: set<K>)
    requires DistinctKeys(s, key)
    requires forall i | 0 <= i < |s| :: key(s[i]) !in seen0
    ensures DedupFrom(s, key, seen0) == s
  {
    if s != [] {
      var k := key(s[0]);
      forall i | 0 <= i < |s[1..]| ensures key(s[1..][i]) !in seen0 + {k} {
        assert s[1..][i] == s[i + 1];
      }
      assert DistinctKeys(s[1..], key) by {
        forall i, j | 0 <= i < j < |s[1..]| ensures key(s[1..][i]) != key(s[1..][j]) {
          assert s[1..][i] == s[i + 1] && s[1..][j] == s[j + 1];
        }
      }
      DedupOfDistinct(s[1..], key, seen0 + {k});
      assert s == [s[0]] + s[1..];
    }
  }

  /** Deduplicating twice is deduplicating once. */
  lemma DedupIdempotent<T, K>(s: seq<T>, key: T -> K)
    ensures Dedup(Dedup(s, key), key) == Dedup(s, key)
  {
    DedupFromFacts(s, key, {});
    DedupOfDistinct(Dedup(s, key), key, {});
  }

  /** Filtering a strictly ascending list of strings keeps it strictly ascending. */
  lemma {:induction false} FilterAscending(s: seq<string>, p: string -> bool)
    requires StrictlyAscending(s)
    ensures StrictlyAscending(Filter(s, p))
  {
    if s != [] {
      FilterAscending(s[1..], p);
      var rest := Filter(s[1..], p);
      forall j | 0 <= j < |rest| ensures LexLt(s[0], rest[j]) {
        FilterMembers(s[1..], p, rest[j]);
        var k :| 0 <= k < |s[1..]| && s[1..][k] == rest[j];
        assert s[k + 1] == rest[j];
      }
    }
  }
}
