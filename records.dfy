/**
 * Wallpaper records and the in-place sort every merge ends with:
 * `list.sort(key=lambda x: datetime.strptime(x['date'], '%Y%m%d'), reverse=True)`.
 *
 * A record is one JSON object of an archive file; every value the scripts
 * store is a string. Python's sort is stable also with `reverse=True`, and
 * it computes the key of every element before comparing any two, so one
 * record without a valid `date` makes the whole sort raise.
 */
module Records {
  import opened Wrappers
  import opened Text
  import opened Dates

  type Record = map<string, string>

  const DateKey: string := "date"
  const IdKey: string := "fullstartdate"
  const DescriptionKey: string := "description"
  const MapLinkKey: string := "maplink"
  const UrlKey: string := "url"
  const UrlBaseKey: string := "urlbase"
  const CopyrightKey: string := "copyright"
  const KeywordKey: string := "copyrightKeyword"

  /** The `date` of a record, or the empty string when it has none. */
  function DateOf(r: Record): string
  {
    if DateKey in r then r[DateKey] else ""
  }

  predicate HasValidDate(r: Record)
  {
    DateKey in r && IsDate(r[DateKey])
  }

  /** Every record carries a `date` (of any form). */
  predicate AllDated(s: seq<Record>)
  {
    forall i | 0 <= i < |s| :: DateKey in s[i]
  }

  /** The parsed `date` of a record, the sort key of the merges. */
  function DateValue(r: Record): Date
    requires HasValidDate(r)
  {
    ParseDate(r[DateKey]).value
  }

  /** The record carries `fullstartdate` `id`. */
  predicate HasId(r: Record, id: string)
  {
    IdKey in r && r[IdKey] == id
  }

  /** The set comprehension `{img[f] for img in images if f in img}`. */
  function ValuesOf(s: seq<Record>, f: string): (vs: set<string>)
    ensures forall r | r in s && f in r :: r[f] in vs
    ensures forall v | v in vs :: exists r | r in s :: f in r && r[f] == v
  {
    set r | r in s && f in r :: r[f]
  }

  lemma ValuesOfAppend(s: seq<Record>, x: Record, f: string)
    ensures ValuesOf(s + [x], f) == ValuesOf(s, f) + (if f in x then {x[f]} else {})
  {
    assert forall r :: r in s + [x] <==> r in s || r == x;
  }

  lemma ValuesOfConcat(a: seq<Record>, b: seq<Record>, f: string)
    ensures ValuesOf(a + b, f) == ValuesOf(a, f) + ValuesOf(b, f)
  {
    assert forall r :: r in a + b <==> r in a || r in b;
  }

  lemma ValuesOfPrefix(a: seq<Record>, b: seq<Record>, f: string)
    requires a <= b
    ensures ValuesOf(a, f) <= ValuesOf(b, f)
  {
    assert forall r | r in a :: r in b;
  }

  lemma ValuesOfPermutation(a: seq<Record>, b: seq<Record>, f: string)
    requires multiset(a) == multiset(b)
    ensures ValuesOf(a, f) == ValuesOf(b, f)
  {
    assert forall r :: r in a <==> r in multiset(a);
    assert forall r :: r in b <==> r in multiset(b);
  }

  // ------------------------------------------------------------ the sort

  /**
   * The exception raised while the sort keys are computed, front to back:
   * KeyError for a record without `date`, ValueError for a `date` that is
   * not a `YYYYMMDD` date.
   */
  function SortKeyError(s: seq<Record>): (e: Option<PyError>)
    ensures e.None? <==> forall i | 0 <= i < |s| :: HasValidDate(s[i])
    ensures e.Some? ==> e.value == KeyError(DateKey) || e.value.ValueError?
  {
    if s == [] then None
    else if DateKey !in s[0] then Some(KeyError(DateKey))
    else if !IsDate(s[0][DateKey]) then Some(ValueError(s[0][DateKey]))
    else SortKeyError(s[1..])
  }

  /** Adjacent records are in descending `date` order. */
  predicate Descending(s: seq<Record>)
  {
    forall i | 0 < i < |s| :: LexLe(DateOf(s[i]), DateOf(s[i - 1]))
  }

  /** Inserts `x` in front of the first record whose date is not later than its own. */
  function Insert(x: Record, t: seq<Record>): seq<Record>
  {
    if t == [] || LexLe(DateOf(t[0]), DateOf(x)) then [x] + t
    else [t[0]] + Insert(x, t[1..])
  }

  /** A stable sort by `date`, latest first. */
  function SortDesc(s: seq<Record>): seq<Record>
  {
    if s == [] then [] else Insert(s[0], SortDesc(s[1..]))
  }

  /** The records whose `date` is `d`, in order. */
  function WithDate(s: seq<Record>, d: string): (r: seq<Record>)
    ensures forall x | x in r :: x in s && DateOf(x) == d
  {
    if s == [] then []
    else (if DateOf(s[0]) == d then [s[0]] else []) + WithDate(s[1..], d)
  }

  lemma {:induction false} InsertDescending(x: Record, t: seq<Record>)
    requires Descending(t)
    ensures Descending(Insert(x, t))
  {
    if t != [] && !LexLe(DateOf(t[0]), DateOf(x)) {
      var u := Insert(x, t[1..]);
      assert Descending(t[1..]);
      InsertDescending(x, t[1..]);
      LexLeTotal(DateOf(t[0]), DateOf(x));
      assert u[0] == x || u[0] == t[1];
    }
  }

  lemma {:induction false} InsertMultiset(x: Record, t: seq<Record>)
    ensures multiset(Insert(x, t)) == multiset(t) + multiset{x}
  {
    if t != [] && !LexLe(DateOf(t[0]), DateOf(x)) {
      InsertMultiset(x, t[1..]);
      assert t == [t[0]] + t[1..];
    }
  }

  lemma {:induction false} InsertWithDate(x: Record, t: seq<Record>, d: string)
    ensures WithDate(Insert(x, t), d) == (if DateOf(x) == d then [x] else []) + WithDate(t, d)
  {
    if t == [] || LexLe(DateOf(t[0]), DateOf(x)) {
      assert ([x] + t)[1..] == t;
    } else {
      if DateOf(t[0]) == DateOf(x) {
        LexLeRefl(DateOf(x));
        assert false;
      }
      var u := Insert(x, t[1..]);
      var w := WithDate(t[1..], d);
      assert Insert(x, t) == [t[0]] + u;
      InsertWithDate(x, t[1..], d);
      assert ([t[0]] + u)[1..] == u;
      assert WithDate([t[0]] + u, d) == (if DateOf(t[0]) == d then [t[0]] else []) + WithDate(u, d);
      assert WithDate(t, d) == (if DateOf(t[0]) == d then [t[0]] else []) + w;
      if DateOf(t[0]) == d {
        assert WithDate(u, d) == w;
      } else if DateOf(x) == d {
        assert WithDate(t, d) == w;
      } else {
        assert WithDate(u, d) == w;
      }
    }
  }

  lemma {:induction false} SortDescFacts(s: seq<Record>)
    ensures Descending(SortDesc(s))
    ensures multiset(SortDesc(s)) == multiset(s)
    ensures forall d :: WithDate(SortDesc(s), d) == WithDate(s, d)
  {
    if s != [] {
      SortDescFacts(s[1..]);
      InsertDescending(s[0], SortDesc(s[1..]));
      InsertMultiset(s[0], SortDesc(s[1..]));
      assert s == [s[0]] + s[1..];
      forall d ensures WithDate(SortDesc(s), d) == WithDate(s, d) {
        InsertWithDate(s[0], SortDesc(s[1..]), d);
      }
    }
  }

  /** Sorting a list that is already in order changes nothing. */
  lemma {:induction false} SortDescOfDescending(s: seq<Record>)
    requires Descending(s)
    ensures SortDesc(s) == s
  {
    if s != [] {
      assert Descending(s[1..]);
      SortDescOfDescending(s[1..]);
      assert s == [s[0]] + s[1..];
    }
  }

  lemma PermutationKeepsDates(s: seq<Record>, t: seq<Record>)
    requires multiset(s) == multiset(t)
    requires forall i | 0 <= i < |s| :: HasValidDate(s[i])
    ensures forall k | 0 <= k < |t| :: HasValidDate(t[k])
  {
    forall k | 0 <= k < |t| ensures HasValidDate(t[k]) {
      assert t[k] in multiset(s);
      var i :| 0 <= i < |s| && s[i] == t[k];
    }
  }

  /** Adjacent order implies order between any two positions. */
  lemma {:induction false} DescendingPairwise(s: seq<Record>, i: nat, j: nat)
    requires Descending(s) && i <= j < |s|
    ensures LexLe(DateOf(s[j]), DateOf(s[i]))
    decreases j - i
  {
    if i == j {
      LexLeRefl(DateOf(s[i]));
    } else {
      DescendingPairwise(s, i, j - 1);
      LexLeTrans(DateOf(s[j]), DateOf(s[j - 1]), DateOf(s[i]));
    }
  }

  /**
   * The sort at the end of every merge: the error of the first record
   * without a valid date, or the records ordered latest first, with the
   * records of one date in their original order.
   */
  function SortByDate(s: seq<Record>): (r: Result<seq<Record>>)
    ensures r.Ok? <==> forall i | 0 <= i < |s| :: HasValidDate(s[i])
    ensures r.Err? ==> r.error == SortKeyError(s).value
    ensures r.Ok? ==> multiset(r.value) == multiset(s)
    ensures r.Ok? ==> forall k | 0 <= k < |r.value| :: HasValidDate(r.value[k])
    ensures r.Ok? ==> forall i, j | 0 <= i < j < |r.value| ::
                        DateLe(DateValue(r.value[j]), DateValue(r.value[i]))
    ensures r.Ok? ==> forall d :: WithDate(r.value, d) == WithDate(s, d)
  {
    match SortKeyError(s)
    case Some(e) => Err(e)
    case None =>
      var t := SortDesc(s);
      SortDescFacts(s);
      PermutationKeepsDates(s, t);
      forall i, j | 0 <= i < j < |t|
        ensures DateLe(DateValue(t[j]), DateValue(t[i]))
      {
        DescendingPairwise(t, i, j);
        DateStringOrder(DateOf(t[j]), DateOf(t[i]));
      }
      Ok(t)
  }

  /** A list already in order and fully dated comes back unchanged. */
  lemma SortByDateOfDescending(s: seq<Record>)
    requires Descending(s) && forall i | 0 <= i < |s| :: HasValidDate(s[i])
    ensures SortByDate(s) == Ok(s)
  {
    SortDescOfDescending(s);
  }

  /** The result of the sort is in order, so sorting it again changes nothing. */
  lemma SortByDateIdempotent(s: seq<Record>)
    requires SortByDate(s).Ok?
    ensures SortByDate(SortByDate(s).value) == SortByDate(s)
  {
    SortDescFacts(s);
    var t := SortDesc(s);
    PermutationKeepsDates(s, t);
    SortDescOfDescending(t);
  }

  // ------------------------------------------------------- distinct ids

  /** No two records that carry field `f` share its value. */
  predicate DistinctOn(s: seq<Record>, f: string)
  {
    forall i, j | 0 <= i < j < |s| && f in s[i] && f in s[j] :: s[i][f] != s[j][f]
  }

  /** No two records share a `fullstartdate`. */
  predicate DistinctIds(s: seq<Record>)
  {
    DistinctOn(s, IdKey)
  }

  lemma DistinctOnCons(x: Record, t: seq<Record>, f: string)
    ensures DistinctOn([x] + t, f) <==> DistinctOn(t, f) && (f in x ==> x[f] !in ValuesOf(t, f))
  {
    if DistinctOn([x] + t, f) {
      DistinctOnTail(x, t, f);
    }
    if DistinctOn(t, f) && (f in x ==> x[f] !in ValuesOf(t, f)) {
      DistinctOnPrepend(x, t, f);
    }
  }

  lemma DistinctOnTail(x: Record, t: seq<Record>, f: string)
    requires DistinctOn([x] + t, f)
    ensures DistinctOn(t, f) && (f in x ==> x[f] !in ValuesOf(t, f))
  {
    var s := [x] + t;
    forall i, j | 0 <= i < j < |t| && f in t[i] && f in t[j] ensures t[i][f] != t[j][f] {
      assert s[i + 1] == t[i] && s[j + 1] == t[j];
    }
    forall r | r in t && f in r && f in x ensures r[f] != x[f] {
      var j :| 0 <= j < |t| && t[j] == r;
      assert s[0] == x && s[j + 1] == r;
    }
  }

  lemma DistinctOnPrepend(x: Record, t: seq<Record>, f: string)
    requires DistinctOn(t, f) && (f in x ==> x[f] !in ValuesOf(t, f))
    ensures DistinctOn([x] + t, f)
  {
    var s := [x] + t;
    forall i, j | 0 <= i < j < |s| && f in s[i] && f in s[j] ensures s[i][f] != s[j][f] {
      if i == 0 {
        assert s[j] == t[j - 1];
      } else {
        assert s[i] == t[i - 1] && s[j] == t[j - 1];
      }
    }
  }

  lemma DistinctOnSnoc(s: seq<Record>, x: Record, f: string)
    requires DistinctOn(s, f) && (f in x ==> x[f] !in ValuesOf(s, f))
    ensures DistinctOn(s + [x], f)
  {
    var t := s + [x];
    forall i, j | 0 <= i < j < |t| && f in t[i] && f in t[j] ensures t[i][f] != t[j][f] {
      if j == |s| {
        assert t[i] in s;
      } else {
        assert t[i] == s[i] && t[j] == s[j];
      }
    }
  }

  lemma {:induction false} DistinctOnInsert(x: Record, t: seq<Record>, f: string)
    requires DistinctOn(t, f) && (f in x ==> x[f] !in ValuesOf(t, f))
    ensures DistinctOn(Insert(x, t), f)
  {
    if t == [] || LexLe(DateOf(t[0]), DateOf(x)) {
      DistinctOnCons(x, t, f);
    } else {
      var rest := t[1..];
      assert t == [t[0]] + rest;
      DistinctOnCons(t[0], rest, f);
      ValuesOfConcat([t[0]], rest, f);
      DistinctOnInsert(x, rest, f);
      InsertValues(x, rest, f);
      assert Insert(x, t) == [t[0]] + Insert(x, rest);
      DistinctOnCons(t[0], Insert(x, rest), f);
    }
  }

  /** Inserting a record adds its value of `f`, if it has one, to the values of the list. */
  lemma InsertValues(x: Record, t: seq<Record>, f: string)
    ensures ValuesOf(Insert(x, t), f) == ValuesOf(t, f) + (if f in x then {x[f]} else {})
  {
    InsertMultiset(x, t);
    assert multiset(Insert(x, t)) == multiset(t + [x]);
    ValuesOfPermutation(Insert(x, t), t + [x], f);
    ValuesOfAppend(t, x, f);
  }

  /** Sorting keeps the values of a field distinct. */
  lemma {:induction false} DistinctOnSort(s: seq<Record>, f: string)
    requires DistinctOn(s, f)
    ensures DistinctOn(SortDesc(s), f)
  {
    if s != [] {
      var rest := s[1..];
      assert s == [s[0]] + rest;
      DistinctOnCons(s[0], rest, f);
      DistinctOnSort(rest, f);
      SortDescFacts(rest);
      ValuesOfPermutation(SortDesc(rest), rest, f);
      DistinctOnInsert(s[0], SortDesc(rest), f);
    }
  }
}
