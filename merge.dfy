/**
 * `update_and_merge_images` (python/bing_260204.py and, without the
 * `maplink` backfill, python/bing_251117.py): merge a freshly fetched
 * batch into the records of an archive file.
 *
 * 1. Existing records whose `fullstartdate` occurs in the batch get a
 *    missing `description` (and `maplink`) from the LAST batch record with
 *    that id; a value already present is never replaced.
 * 2. Batch records are appended in order: one with an id when the id is not
 *    yet known (the id set grows as records are appended); one without an
 *    id when no record of the current list has its `date`; one with neither
 *    is dropped.
 * 3. The whole list is sorted by `date`, latest first.
 *
 * The identity field is always `fullstartdate` and the date field `date`:
 * every caller passes the defaults.
 */
module ArchiveMerge {
  import opened Wrappers
  import opened Text
  import opened Dates
  import opened Records

  /** The keys the backfill may fill: `description`, and `maplink` in the later revision. */
  function BackfillKeys(withMapLink: bool): (keys: seq<string>)
    ensures DescriptionKey in keys && (MapLinkKey in keys <==> withMapLink)
    ensures IdKey !in keys && DateKey !in keys
  {
    if withMapLink then [DescriptionKey, MapLinkKey] else [DescriptionKey]
  }

  /** `new_images_map`: each batch id mapped to a batch record carrying it. */
  function BatchIndex(batch: seq<Record>): (m: map<string, Record>)
    ensures forall id | id in m :: HasId(m[id], id) && m[id] in batch
    ensures forall x | x in batch && IdKey in x :: x[IdKey] in m
  {
    if batch == [] then map[]
    else
      var init := batch[..|batch| - 1];
      var x := batch[|batch| - 1];
      assert batch == init + [x];
      assert forall y | y in batch :: y in init || y == x;
      if IdKey in x then BatchIndex(init)[x[IdKey] := x] else BatchIndex(init)
  }

  /** Dictionary assignment keeps the last write: the id maps to the last batch record carrying it. */
  lemma {:induction false} BatchIndexLastWins(batch: seq<Record>, i: nat)
    requires i < |batch| && IdKey in batch[i]
    requires forall j | i < j < |batch| :: !HasId(batch[j], batch[i][IdKey])
    ensures BatchIndex(batch)[batch[i][IdKey]] == batch[i]
  {
    var init := batch[..|batch| - 1];
    if i < |batch| - 1 {
      assert init[i] == batch[i];
      BatchIndexLastWins(init, i);
    }
  }

  /** Copies each of `keys` from `src` into `rec` when `rec` lacks it and `src` has it. */
  function Fill(rec: Record, src: Record, keys: seq<string>): (r: Record)
    ensures forall f | f in rec :: f in r && r[f] == rec[f]
    ensures forall f | f in r && f !in rec :: f in keys && f in src && r[f] == src[f]
    ensures forall f | f in keys && f in src :: f in r
    decreases |keys|
  {
    if keys == [] then rec
    else
      var f := keys[0];
      Fill(if f !in rec && f in src then rec[f := src[f]] else rec, src, keys[1..])
  }

  /** Filling twice from the same source changes nothing more. */
  lemma FillIdempotent(rec: Record, src: Record, keys: seq<string>)
    ensures Fill(Fill(rec, src, keys), src, keys) == Fill(rec, src, keys)
  {
    var r1 := Fill(rec, src, keys);
    var r2 := Fill(r1, src, keys);
    assert r2.Keys == r1.Keys;
  }

  /** A record filled from itself is unchanged. */
  lemma FillFromSelf(rec: Record, keys: seq<string>)
    ensures Fill(rec, rec, keys) == rec
  {
    var r := Fill(rec, rec, keys);
    assert r.Keys == rec.Keys;
  }

  /** Step 1 for one existing record. */
  function Backfill(rec: Record, index: map<string, Record>, keys: seq<string>): Record
  {
    if IdKey in rec && rec[IdKey] in index then Fill(rec, index[rec[IdKey]], keys) else rec
  }

  /**
   * Step 1 for the whole list: values already present are kept, and a key
   * is added only when it is a backfill key, the record's id is in the
   * batch, and the batch record for that id has the key.
   */
  function BackfillAll(existing: seq<Record>, index: map<string, Record>, keys: seq<string>): (s: seq<Record>)
    ensures |s| == |existing|
    ensures forall i, f | 0 <= i < |s| && f in existing[i] :: f in s[i] && s[i][f] == existing[i][f]
    ensures forall i, f | 0 <= i < |s| && f in s[i] && f !in existing[i] ::
              f in keys && IdKey in existing[i] && existing[i][IdKey] in index
              && f in index[existing[i][IdKey]] && s[i][f] == index[existing[i][IdKey]][f]
    ensures forall i, f | 0 <= i < |s| && IdKey in existing[i] && existing[i][IdKey] in index
              && f in keys && f in index[existing[i][IdKey]] :: f in s[i]
  {
    seq(|existing|, i requires 0 <= i < |existing| => Backfill(existing[i], index, keys))
  }

  /** Step 2: the list after the batch records are considered in order. */
  function Appended(list: seq<Record>, ids: set<string>, batch: seq<Record>): seq<Record>
    decreases |batch|
  {
    if batch == [] then list
    else
      var x := batch[0];
      if IdKey in x then
        (if x[IdKey] !in ids then Appended(list + [x], ids + {x[IdKey]}, batch[1..])
         else Appended(list, ids, batch[1..]))
      else if DateKey in x && x[DateKey] !in ValuesOf(list, DateKey) then Appended(list + [x], ids, batch[1..])
      else Appended(list, ids, batch[1..])
  }

  /** Does step 2 append `x` to `list`? */
  predicate Appends(list: seq<Record>, ids: set<string>, x: Record)
  {
    if IdKey in x then x[IdKey] !in ids else DateKey in x && x[DateKey] !in ValuesOf(list, DateKey)
  }

  lemma AppendedUnfold(list: seq<Record>, ids: set<string>, batch: seq<Record>)
    requires batch != []
    ensures var x := batch[0];
            Appended(list, ids, batch) ==
              if Appends(list, ids, x) then Appended(list + [x], if IdKey in x then ids + {x[IdKey]} else ids, batch[1..])
              else Appended(list, ids, batch[1..])
  {
  }

  /**
   * Step 2 only appends: it keeps the list as a prefix, appends only batch
   * records that carry an id or a date, and afterwards every batch id is
   * known and every date of an id-less batch record is in the list.
   */
  lemma {:induction false} AppendedFacts(list: seq<Record>, ids: set<string>, batch: seq<Record>)
    ensures var r := Appended(list, ids, batch);
            list <= r
            && (forall x | x in r[|list|..] :: x in batch && (IdKey in x || DateKey in x))
            && (forall x | x in batch && IdKey in x :: x[IdKey] in ids || x[IdKey] in ValuesOf(r, IdKey))
            && (forall x | x in batch && IdKey !in x && DateKey in x :: x[DateKey] in ValuesOf(r, DateKey))
    decreases |batch|
  {
    if batch != [] {
      var x := batch[0];
      var rest := batch[1..];
      var r := Appended(list, ids, batch);
      assert batch == [x] + rest;
      assert forall y | y in batch :: y == x || y in rest;
      AppendedUnfold(list, ids, batch);
      if Appends(list, ids, x) {
        var list' := list + [x];
        var ids' := if IdKey in x then ids + {x[IdKey]} else ids;
        assert r == Appended(list', ids', rest);
        AppendedFacts(list', ids', rest);
        assert list' <= r;
        assert r[|list|] == x;
        assert r[|list|..] == [x] + r[|list'|..];
        ValuesOfPrefix(list', r, IdKey);
        ValuesOfPrefix(list', r, DateKey);
        ValuesOfConcat(list, [x], IdKey);
        ValuesOfConcat(list, [x], DateKey);
      } else {
        AppendedFacts(list, ids, rest);
        ValuesOfPrefix(list, r, DateKey);
      }
    }
  }

  /**
   * The id-less rule of step 2: a record without an id is appended only with
   * a date that no record before it carries, counting the records appended
   * earlier from the same batch.
   */
  lemma {:induction false} AppendedDateRule(list: seq<Record>, ids: set<string>, batch: seq<Record>)
    ensures var r := Appended(list, ids, batch);
            forall k | |list| <= k < |r| && IdKey !in r[k] ::
              DateKey in r[k] && r[k][DateKey] !in ValuesOf(r[..k], DateKey)
    decreases |batch|
  {
    if batch != [] {
      var x := batch[0];
      var r := Appended(list, ids, batch);
      AppendedUnfold(list, ids, batch);
      if Appends(list, ids, x) {
        var list' := list + [x];
        var ids' := if IdKey in x then ids + {x[IdKey]} else ids;
        AppendedDateRule(list', ids', batch[1..]);
        AppendedFacts(list', ids', batch[1..]);
        assert r[..|list|] == list' [..|list|] == list;
        assert r[|list|] == x;
      } else {
        AppendedDateRule(list, ids, batch[1..]);
      }
    }
  }

  /**
   * Hence the id-less records step 2 appends carry dates the list did not
   * have, and no two of them share a date.
   */
  lemma AppendedIdlessDates(list: seq<Record>, ids: set<string>, batch: seq<Record>)
    ensures var r := Appended(list, ids, batch);
            forall k | |list| <= k < |r| && IdKey !in r[k] ::
              DateKey in r[k] && r[k][DateKey] !in ValuesOf(list, DateKey)
    ensures var r := Appended(list, ids, batch);
            forall i, k | |list| <= i < k < |r| && IdKey !in r[i] && IdKey !in r[k]
                          && DateKey in r[i] && DateKey in r[k] :: r[i][DateKey] != r[k][DateKey]
  {
    var r := Appended(list, ids, batch);
    AppendedDateRule(list, ids, batch);
    AppendedFacts(list, ids, batch);
    forall k | |list| <= k < |r| && IdKey !in r[k]
      ensures DateKey in r[k] && r[k][DateKey] !in ValuesOf(list, DateKey)
    {
      assert list <= r[..k];
      ValuesOfPrefix(list, r[..k], DateKey);
    }
    forall i, k | |list| <= i < k < |r| && IdKey !in r[i] && IdKey !in r[k] && DateKey in r[i] && DateKey in r[k]
      ensures r[i][DateKey] != r[k][DateKey]
    {
      assert r[i] in r[..k];
    }
  }

  /** The ids known to step 2 after it has considered `batch`. */
  function KnownIds(list: seq<Record>, ids: set<string>, batch: seq<Record>): (known: set<string>)
    ensures ids <= known
    decreases |batch|
  {
    if batch == [] then ids
    else
      var x := batch[0];
      if Appends(list, ids, x) then KnownIds(list + [x], if IdKey in x then ids + {x[IdKey]} else ids, batch[1..])
      else KnownIds(list, ids, batch[1..])
  }

  /** Step 2 over `a + b` is step 2 over `a`, then over `b` from where `a` left off. */
  lemma {:induction false} AppendedSplit(list: seq<Record>, ids: set<string>, a: seq<Record>, b: seq<Record>)
    ensures Appended(list, ids, a + b) == Appended(Appended(list, ids, a), KnownIds(list, ids, a), b)
    decreases |a|
  {
    if a == [] {
      assert a + b == b;
    } else {
      var x := a[0];
      assert (a + b)[0] == x && (a + b)[1..] == a[1..] + b;
      AppendedUnfold(list, ids, a + b);
      AppendedUnfold(list, ids, a);
      if Appends(list, ids, x) {
        AppendedSplit(list + [x], if IdKey in x then ids + {x[IdKey]} else ids, a[1..], b);
      } else {
        AppendedSplit(list, ids, a[1..], b);
      }
    }
  }

  /**
   * The turn of `batch[j]`: step 2 meets it with the list
   * `Appended(list, ids, batch[..j])` and the ids `KnownIds(list, ids, batch[..j])`,
   * appends it exactly when `Appends` holds for these, and the later records
   * only append after it.
   */
  lemma AppendedTurn(list: seq<Record>, ids: set<string>, batch: seq<Record>, j: nat)
    requires j < |batch|
    ensures var before := Appended(list, ids, batch[..j]);
            var after := Appended(list, ids, batch[..j + 1]);
            after == (if Appends(before, KnownIds(list, ids, batch[..j]), batch[j]) then before + [batch[j]] else before)
            && after <= Appended(list, ids, batch)
  {
    var before := Appended(list, ids, batch[..j]);
    var known := KnownIds(list, ids, batch[..j]);
    var after := Appended(list, ids, batch[..j + 1]);
    assert batch[..j] + [batch[j]] == batch[..j + 1];
    AppendedSplit(list, ids, batch[..j], [batch[j]]);
    AppendedUnfold(before, known, [batch[j]]);
    assert [batch[j]][1..] == [];
    assert batch[..j + 1] + batch[j + 1..] == batch;
    AppendedSplit(list, ids, batch[..j + 1], batch[j + 1..]);
    AppendedFacts(after, KnownIds(list, ids, batch[..j + 1]), batch[j + 1..]);
  }

  /**
   * The date rule at a turn, both ways: an id-less batch record with a date
   * is appended at its turn exactly when that date is not yet in the list,
   * the list including the records appended before it from the same batch.
   */
  lemma AppendedIdlessTurn(list: seq<Record>, ids: set<string>, batch: seq<Record>, j: nat)
    requires j < |batch| && IdKey !in batch[j] && DateKey in batch[j]
    ensures var before := Appended(list, ids, batch[..j]);
            var after := Appended(list, ids, batch[..j + 1]);
            (batch[j][DateKey] !in ValuesOf(before, DateKey) ==> before + [batch[j]] <= Appended(list, ids, batch))
            && (after == before + [batch[j]] <==> batch[j][DateKey] !in ValuesOf(before, DateKey))
            && (after == before <==> batch[j][DateKey] in ValuesOf(before, DateKey))
  {
    AppendedTurn(list, ids, batch, j);
  }

  /**
   * Of two id-less records with the same date, new to the list, step 2
   * appends only the first: the second meets the date the first brought.
   */
  lemma LaterMergeAppendsDateOnce(list: seq<Record>, ids: set<string>, a: Record, b: Record)
    requires IdKey !in a && IdKey !in b && DateKey in a && DateKey in b
    requires a[DateKey] == b[DateKey] && a[DateKey] !in ValuesOf(list, DateKey)
    ensures Appended(list, ids, [a, b]) == list + [a]
  {
    var batch := [a, b];
    assert batch[..0] == [] && batch[..2] == batch;
    AppendedIdlessTurn(list, ids, batch, 0);
    ValuesOfAppend(list, a, DateKey);
    AppendedIdlessTurn(list, ids, batch, 1);
  }

  /** The existing records after step 1. */
  function Filled(existing: seq<Record>, batch: seq<Record>, withMapLink: bool): seq<Record>
  {
    BackfillAll(existing, BatchIndex(batch), BackfillKeys(withMapLink))
  }

  /** Steps 1 and 2, before the sort. */
  function MergedUnsorted(existing: seq<Record>, batch: seq<Record>, withMapLink: bool): seq<Record>
  {
    Appended(Filled(existing, batch, withMapLink), ValuesOf(existing, IdKey), batch)
  }

  lemma BackfillKeepsValues(existing: seq<Record>, index: map<string, Record>, keys: seq<string>, f: string)
    requires f !in keys
    ensures ValuesOf(BackfillAll(existing, index, keys), f) == ValuesOf(existing, f)
  {
    var s := BackfillAll(existing, index, keys);
    forall v | v in ValuesOf(s, f) ensures v in ValuesOf(existing, f) {
      var r :| r in s && f in r && r[f] == v;
      var i :| 0 <= i < |s| && s[i] == r;
      assert existing[i] in existing;
    }
    forall v | v in ValuesOf(existing, f) ensures v in ValuesOf(s, f) {
      var r :| r in existing && f in r && r[f] == v;
      var i :| 0 <= i < |existing| && existing[i] == r;
      assert s[i] in s;
    }
  }

  lemma MergedUnsortedFacts(existing: seq<Record>, batch: seq<Record>, withMapLink: bool)
    ensures var filled := Filled(existing, batch, withMapLink);
            var u := MergedUnsorted(existing, batch, withMapLink);
            filled <= u
            && (forall x | x in batch && IdKey in x :: x[IdKey] in ValuesOf(u, IdKey))
            && (forall x | x in batch && IdKey !in x && DateKey in x :: x[DateKey] in ValuesOf(u, DateKey))
  {
    var filled := Filled(existing, batch, withMapLink);
    var u := MergedUnsorted(existing, batch, withMapLink);
    AppendedFacts(filled, ValuesOf(existing, IdKey), batch);
    BackfillKeepsValues(existing, BatchIndex(batch), BackfillKeys(withMapLink), IdKey);
    ValuesOfPrefix(filled, u, IdKey);
  }

  /** Steps 1 and 2 add nothing but batch records. */
  lemma MergedUnsortedOnly(existing: seq<Record>, batch: seq<Record>, withMapLink: bool)
    ensures var filled := Filled(existing, batch, withMapLink);
            forall x | x in MergedUnsorted(existing, batch, withMapLink) :: x in batch || x in filled
  {
    var filled := Filled(existing, batch, withMapLink);
    var u := MergedUnsorted(existing, batch, withMapLink);
    AppendedFacts(filled, ValuesOf(existing, IdKey), batch);
    assert filled <= u;
    forall x | x in u ensures x in batch || x in filled {
      var k :| 0 <= k < |u| && u[k] == x;
      if k >= |filled| {
        assert x == u[|filled|..][k - |filled|];
      } else {
        assert x == filled[k];
      }
    }
  }

  /** The backfill never touches `date`, so a filled record is dated exactly when the original is. */
  lemma FilledDates(existing: seq<Record>, batch: seq<Record>, withMapLink: bool)
    ensures forall k | 0 <= k < |existing| ::
              HasValidDate(Filled(existing, batch, withMapLink)[k]) == HasValidDate(existing[k])
  {
    var filled := Filled(existing, batch, withMapLink);
    assert DateKey !in BackfillKeys(withMapLink);
    assert forall k | 0 <= k < |existing| :: DateKey in filled[k] <==> DateKey in existing[k];
  }

  /**
   * The whole merge: the error the sort raises, or the merged list. Every
   * backfilled existing record is kept, each batch id and each batch date
   * of an id-less record is present afterwards, nothing else is added, an
   * id-less record is added only with a date not yet present (so at most
   * once per date), and the list is ordered latest first. It fails when an existing record has
   * no valid date, and succeeds when every record involved has one.
   */
  function MergeResult(existing: seq<Record>, batch: seq<Record>, withMapLink: bool): (r: Result<seq<Record>>)
    ensures r.Ok? ==> multiset(Filled(existing, batch, withMapLink)) <= multiset(r.value)
    ensures r.Ok? ==> forall x | x in r.value :: x in batch || x in Filled(existing, batch, withMapLink)
    ensures r.Ok? ==> forall x | x in batch && IdKey in x :: x[IdKey] in ValuesOf(r.value, IdKey)
    ensures r.Ok? ==> forall x | x in batch && IdKey !in x && DateKey in x :: x[DateKey] in ValuesOf(r.value, DateKey)
    ensures r.Ok? ==> forall x | x in r.value && IdKey !in x && x !in Filled(existing, batch, withMapLink) ::
                        x in batch && DateKey in x && x[DateKey] !in ValuesOf(Filled(existing, batch, withMapLink), DateKey)
                        && multiset(r.value)[x] == 1
    ensures r.Ok? ==> forall x, y | x in r.value && y in r.value && IdKey !in x && IdKey !in y
                                    && x !in Filled(existing, batch, withMapLink) && y !in Filled(existing, batch, withMapLink)
                                    && DateKey in x && DateKey in y && x[DateKey] == y[DateKey] :: x == y
    ensures r.Ok? ==> forall j | 0 <= j < |batch| && IdKey !in batch[j] && DateKey in batch[j]
                                 && batch[j][DateKey] !in ValuesOf(Appended(Filled(existing, batch, withMapLink), ValuesOf(existing, IdKey), batch[..j]), DateKey)
                                 :: batch[j] in r.value
    ensures r.Ok? ==> forall k | 0 <= k < |r.value| :: HasValidDate(r.value[k])
    ensures r.Ok? ==> forall i, j | 0 <= i < j < |r.value| :: DateLe(DateValue(r.value[j]), DateValue(r.value[i]))
    ensures (exists k | 0 <= k < |existing| :: !HasValidDate(existing[k])) ==> r.Err?
    ensures ((forall k | 0 <= k < |existing| :: HasValidDate(existing[k]))
             && (forall k | 0 <= k < |batch| :: HasValidDate(batch[k]))) ==> r.Ok?
  {
    MergeContents(existing, batch, withMapLink);
    MergeDateRule(existing, batch, withMapLink);
    MergeErrorCases(existing, batch, withMapLink);
    SortByDate(MergedUnsorted(existing, batch, withMapLink))
  }

  lemma MergeContents(existing: seq<Record>, batch: seq<Record>, withMapLink: bool)
    ensures var r := SortByDate(MergedUnsorted(existing, batch, withMapLink));
            var filled := Filled(existing, batch, withMapLink);
            r.Ok? ==>
              multiset(filled) <= multiset(r.value)
              && (forall x | x in r.value :: x in batch || x in filled)
              && (forall x | x in batch && IdKey in x :: x[IdKey] in ValuesOf(r.value, IdKey))
              && (forall x | x in batch && IdKey !in x && DateKey in x :: x[DateKey] in ValuesOf(r.value, DateKey))
  {
    var u := MergedUnsorted(existing, batch, withMapLink);
    MergedKeepsFilled(existing, batch, withMapLink);
    MergedUnsortedFacts(existing, batch, withMapLink);
    MergedUnsortedOnly(existing, batch, withMapLink);
    SortKeepsMembers(u);
  }

  /** A record found at one position of `s` and at no other occurs once in `s`. */
  lemma {:induction false} OccursOnce(s: seq<Record>, k: nat)
    requires k < |s|
    requires forall i | 0 <= i < |s| && i != k :: s[i] != s[k]
    ensures multiset(s)[s[k]] == 1
    decreases |s|
  {
    assert s == [s[0]] + s[1..];
    if k == 0 {
      assert s[0] !in s[1..];
    } else {
      OccursOnce(s[1..], k - 1);
    }
  }

  /** An id-less record that step 2 adds is a batch record with a new date, and occurs once. */
  lemma MergedIdlessNew(existing: seq<Record>, batch: seq<Record>, withMapLink: bool)
    ensures var u := MergedUnsorted(existing, batch, withMapLink);
            var filled := Filled(existing, batch, withMapLink);
            forall x | x in u && IdKey !in x && x !in filled ::
              x in batch && DateKey in x && x[DateKey] !in ValuesOf(filled, DateKey) && multiset(u)[x] == 1
  {
    var filled := Filled(existing, batch, withMapLink);
    var ids := ValuesOf(existing, IdKey);
    var u := MergedUnsorted(existing, batch, withMapLink);
    AppendedFacts(filled, ids, batch);
    AppendedIdlessDates(filled, ids, batch);
    assert forall k | 0 <= k < |filled| :: u[k] == filled[k];
    forall x | x in u && IdKey !in x && x !in filled
      ensures x in batch && DateKey in x && x[DateKey] !in ValuesOf(filled, DateKey) && multiset(u)[x] == 1
    {
      var k :| 0 <= k < |u| && u[k] == x;
      assert x in u[|filled|..];
      OccursOnce(u, k);
    }
  }

  /** No two different id-less records that step 2 adds share a date. */
  lemma MergedIdlessDistinct(existing: seq<Record>, batch: seq<Record>, withMapLink: bool)
    ensures var u := MergedUnsorted(existing, batch, withMapLink);
            var filled := Filled(existing, batch, withMapLink);
            forall x, y | x in u && y in u && IdKey !in x && IdKey !in y && x !in filled && y !in filled
                          && DateKey in x && DateKey in y && x[DateKey] == y[DateKey] :: x == y
  {
    var filled := Filled(existing, batch, withMapLink);
    var ids := ValuesOf(existing, IdKey);
    var u := MergedUnsorted(existing, batch, withMapLink);
    AppendedFacts(filled, ids, batch);
    AppendedIdlessDates(filled, ids, batch);
    assert forall k | 0 <= k < |filled| :: u[k] == filled[k];
    forall x, y | x in u && y in u && IdKey !in x && IdKey !in y && x !in filled && y !in filled
                  && DateKey in x && DateKey in y && x[DateKey] == y[DateKey]
      ensures x == y
    {
      var kx :| 0 <= kx < |u| && u[kx] == x;
      var ky :| 0 <= ky < |u| && u[ky] == y;
    }
  }

  /** A dated id-less batch record whose date is not in the list at its turn is added. */
  lemma MergedIdlessTurn(existing: seq<Record>, batch: seq<Record>, withMapLink: bool)
    ensures var u := MergedUnsorted(existing, batch, withMapLink);
            var filled := Filled(existing, batch, withMapLink);
            forall j | 0 <= j < |batch| && IdKey !in batch[j] && DateKey in batch[j]
                       && batch[j][DateKey] !in ValuesOf(Appended(filled, ValuesOf(existing, IdKey), batch[..j]), DateKey)
                       :: batch[j] in u
  {
    var filled := Filled(existing, batch, withMapLink);
    var ids := ValuesOf(existing, IdKey);
    var u := MergedUnsorted(existing, batch, withMapLink);
    forall j | 0 <= j < |batch| && IdKey !in batch[j] && DateKey in batch[j]
               && batch[j][DateKey] !in ValuesOf(Appended(filled, ids, batch[..j]), DateKey)
      ensures batch[j] in u
    {
      AppendedIdlessTurn(filled, ids, batch, j);
      var before := Appended(filled, ids, batch[..j]);
      assert u[|before|] == batch[j];
    }
  }

  /**
   * The id-less date rule, carried through the sort: a record of the result
   * without an id that is not a backfilled existing record is a batch
   * record whose date no existing record has; it occurs once, and no other
   * such record shares its date. A dated id-less batch record whose date is
   * not in the list when its turn comes is in the result.
   */
  lemma MergeDateRule(existing: seq<Record>, batch: seq<Record>, withMapLink: bool)
    ensures var r := SortByDate(MergedUnsorted(existing, batch, withMapLink));
            var filled := Filled(existing, batch, withMapLink);
            r.Ok? ==>
              (forall x | x in r.value && IdKey !in x && x !in filled ::
                 x in batch && DateKey in x && x[DateKey] !in ValuesOf(filled, DateKey)
                 && multiset(r.value)[x] == 1)
              && (forall x, y | x in r.value && y in r.value && IdKey !in x && IdKey !in y
                                && x !in filled && y !in filled && DateKey in x && DateKey in y
                                && x[DateKey] == y[DateKey] :: x == y)
              && (forall j | 0 <= j < |batch| && IdKey !in batch[j] && DateKey in batch[j]
                             && batch[j][DateKey] !in ValuesOf(Appended(filled, ValuesOf(existing, IdKey), batch[..j]), DateKey)
                             :: batch[j] in r.value)
  {
    var u := MergedUnsorted(existing, batch, withMapLink);
    var r := SortByDate(u);
    if r.Ok? {
      var filled := Filled(existing, batch, withMapLink);
      assert multiset(r.value) == multiset(u);
      MergedIdlessNew(existing, batch, withMapLink);
      forall x | x in r.value && IdKey !in x && x !in filled
        ensures x in batch && DateKey in x && x[DateKey] !in ValuesOf(filled, DateKey) && multiset(r.value)[x] == 1
      {
        assert x in multiset(u);
      }
      MergedIdlessDistinct(existing, batch, withMapLink);
      forall x, y | x in r.value && y in r.value && IdKey !in x && IdKey !in y && x !in filled && y !in filled
                    && DateKey in x && DateKey in y && x[DateKey] == y[DateKey]
        ensures x == y
      {
        assert x in multiset(u) && y in multiset(u);
      }
      MergedIdlessTurn(existing, batch, withMapLink);
      forall j | 0 <= j < |batch| && IdKey !in batch[j] && DateKey in batch[j]
                 && batch[j][DateKey] !in ValuesOf(Appended(filled, ValuesOf(existing, IdKey), batch[..j]), DateKey)
        ensures batch[j] in r.value
      {
        assert batch[j] in multiset(u);
      }
    }
  }

  lemma MergedKeepsFilled(existing: seq<Record>, batch: seq<Record>, withMapLink: bool)
    ensures multiset(Filled(existing, batch, withMapLink)) <= multiset(MergedUnsorted(existing, batch, withMapLink))
  {
    var u := MergedUnsorted(existing, batch, withMapLink);
    var filled := Filled(existing, batch, withMapLink);
    MergedUnsortedFacts(existing, batch, withMapLink);
    assert u == filled + u[|filled|..];
  }

  lemma MergeErrorCases(existing: seq<Record>, batch: seq<Record>, withMapLink: bool)
    ensures var u := MergedUnsorted(existing, batch, withMapLink);
            ((exists k | 0 <= k < |existing| :: !HasValidDate(existing[k])) ==> SortByDate(u).Err?)
            && (((forall k | 0 <= k < |existing| :: HasValidDate(existing[k]))
                 && (forall k | 0 <= k < |batch| :: HasValidDate(batch[k]))) ==> SortByDate(u).Ok?)
  {
    if exists k | 0 <= k < |existing| :: !HasValidDate(existing[k]) {
      var k :| 0 <= k < |existing| && !HasValidDate(existing[k]);
      MergeFailsOnUndated(existing, batch, withMapLink, k);
    }
    if (forall k | 0 <= k < |existing| :: HasValidDate(existing[k]))
       && (forall k | 0 <= k < |batch| :: HasValidDate(batch[k])) {
      MergeSucceedsWhenDated(existing, batch, withMapLink);
    }
  }

  /** An existing record without a valid `date` makes the sort fail. */
  lemma MergeFailsOnUndated(existing: seq<Record>, batch: seq<Record>, withMapLink: bool, k: nat)
    requires k < |existing| && !HasValidDate(existing[k])
    ensures SortByDate(MergedUnsorted(existing, batch, withMapLink)).Err?
  {
    var filled := Filled(existing, batch, withMapLink);
    var u := MergedUnsorted(existing, batch, withMapLink);
    MergedUnsortedFacts(existing, batch, withMapLink);
    FilledDates(existing, batch, withMapLink);
    assert u[k] == filled[k];
    assert !HasValidDate(u[k]);
  }

  /** When every record involved has a valid `date`, the sort succeeds. */
  lemma MergeSucceedsWhenDated(existing: seq<Record>, batch: seq<Record>, withMapLink: bool)
    requires forall k | 0 <= k < |existing| :: HasValidDate(existing[k])
    requires forall k | 0 <= k < |batch| :: HasValidDate(batch[k])
    ensures SortByDate(MergedUnsorted(existing, batch, withMapLink)).Ok?
  {
    var filled := Filled(existing, batch, withMapLink);
    var u := MergedUnsorted(existing, batch, withMapLink);
    MergedUnsortedOnly(existing, batch, withMapLink);
    FilledDates(existing, batch, withMapLink);
    forall k | 0 <= k < |u| ensures HasValidDate(u[k]) {
      assert u[k] in u;
      if u[k] in filled {
        var i :| 0 <= i < |filled| && filled[i] == u[k];
      } else {
        var i :| 0 <= i < |batch| && batch[i] == u[k];
      }
    }
  }

  lemma SortKeepsMembers(s: seq<Record>)
    ensures SortByDate(s).Ok? ==>
              ValuesOf(SortByDate(s).value, IdKey) == ValuesOf(s, IdKey)
              && ValuesOf(SortByDate(s).value, DateKey) == ValuesOf(s, DateKey)
              && (forall x | x in SortByDate(s).value :: x in s)
              && multiset(s) <= multiset(SortByDate(s).value)
  {
    var r := SortByDate(s);
    if r.Ok? {
      ValuesOfPermutation(s, r.value, IdKey);
      ValuesOfPermutation(s, r.value, DateKey);
      assert forall x | x in r.value :: x in multiset(s);
    }
  }

  // ---------------------------------------------------- merge properties

  lemma {:induction false} AppendedDistinct(list: seq<Record>, ids: set<string>, batch: seq<Record>)
    requires DistinctIds(list) && ValuesOf(list, IdKey) <= ids
    ensures DistinctIds(Appended(list, ids, batch))
    decreases |batch|
  {
    if batch != [] {
      var x := batch[0];
      AppendedUnfold(list, ids, batch);
      if Appends(list, ids, x) {
        var ids' := if IdKey in x then ids + {x[IdKey]} else ids;
        DistinctOnSnoc(list, x, IdKey);
        ValuesOfConcat(list, [x], IdKey);
        AppendedDistinct(list + [x], ids', batch[1..]);
      } else {
        AppendedDistinct(list, ids, batch[1..]);
      }
    }
  }

  lemma FilledDistinct(existing: seq<Record>, batch: seq<Record>, withMapLink: bool)
    requires DistinctIds(existing)
    ensures DistinctIds(Filled(existing, batch, withMapLink))
  {
    var filled := Filled(existing, batch, withMapLink);
    assert IdKey !in BackfillKeys(withMapLink);
    assert forall k | 0 <= k < |existing| :: IdKey in filled[k] <==> IdKey in existing[k];
  }

  /**
   * An archive without repeated ids stays without repeated ids: the
   * merge adds no `fullstartdate` twice and none already present.
   */
  lemma MergeNoDuplicateIds(existing: seq<Record>, batch: seq<Record>, withMapLink: bool)
    requires DistinctIds(existing)
    requires MergeResult(existing, batch, withMapLink).Ok?
    ensures DistinctIds(MergeResult(existing, batch, withMapLink).value)
  {
    var filled := Filled(existing, batch, withMapLink);
    FilledDistinct(existing, batch, withMapLink);
    BackfillKeepsValues(existing, BatchIndex(batch), BackfillKeys(withMapLink), IdKey);
    AppendedDistinct(filled, ValuesOf(existing, IdKey), batch);
    DistinctOnSort(MergedUnsorted(existing, batch, withMapLink), IdKey);
  }

  /** A step-2 run over records that are all known already appends nothing. */
  lemma {:induction false} AppendedSaturated(list: seq<Record>, ids: set<string>, batch: seq<Record>)
    requires forall x | x in batch && IdKey in x :: x[IdKey] in ids
    requires forall x | x in batch && IdKey !in x && DateKey in x :: x[DateKey] in ValuesOf(list, DateKey)
    ensures Appended(list, ids, batch) == list
    decreases |batch|
  {
    if batch != [] {
      assert batch[0] in batch;
      assert forall y | y in batch[1..] :: y in batch;
      AppendedSaturated(list, ids, batch[1..]);
    }
  }

  /** In a batch without repeated ids, each batch record is its own index entry. */
  lemma BatchIndexOfDistinct(batch: seq<Record>, x: Record)
    requires DistinctIds(batch) && x in batch && IdKey in x
    ensures BatchIndex(batch)[x[IdKey]] == x
  {
    var i :| 0 <= i < |batch| && batch[i] == x;
    BatchIndexLastWins(batch, i);
  }

  /** Every record of a merge result is unchanged by a second backfill from the same batch. */
  lemma RefillChangesNothing(existing: seq<Record>, batch: seq<Record>, withMapLink: bool, x: Record)
    requires DistinctIds(batch)
    requires x in batch || x in Filled(existing, batch, withMapLink)
    ensures Backfill(x, BatchIndex(batch), BackfillKeys(withMapLink)) == x
  {
    var index := BatchIndex(batch);
    var keys := BackfillKeys(withMapLink);
    if x in batch {
      if IdKey in x {
        BatchIndexOfDistinct(batch, x);
        FillFromSelf(x, keys);
      }
    } else {
      var filled := Filled(existing, batch, withMapLink);
      var i :| 0 <= i < |filled| && filled[i] == x;
      var e := existing[i];
      if IdKey in e && e[IdKey] in index {
        FillIdempotent(e, index[e[IdKey]], keys);
      }
    }
  }

  /**
   * Re-running the merge with the same batch changes nothing, provided
   * the batch repeats no id. (With a repeated id the first record is the
   * one appended while the last one is the backfill source, so a second
   * run can still fill keys.)
   */
  lemma MergeIdempotent(existing: seq<Record>, batch: seq<Record>, withMapLink: bool)
    requires DistinctIds(batch)
    requires MergeResult(existing, batch, withMapLink).Ok?
    ensures MergeResult(MergeResult(existing, batch, withMapLink).value, batch, withMapLink)
            == MergeResult(existing, batch, withMapLink)
  {
    var u := MergedUnsorted(existing, batch, withMapLink);
    var m := MergeResult(existing, batch, withMapLink).value;
    assert m == SortDesc(u);
    // Step 1 on the result fills nothing.
    forall k | 0 <= k < |m| ensures Backfill(m[k], BatchIndex(batch), BackfillKeys(withMapLink)) == m[k] {
      assert m[k] in m;
      RefillChangesNothing(existing, batch, withMapLink, m[k]);
    }
    assert Filled(m, batch, withMapLink) == m;
    // Step 2 on the result appends nothing.
    AppendedSaturated(m, ValuesOf(m, IdKey), batch);
    // The result is already in order.
    SortDescFacts(u);
    SortByDateOfDescending(m);
  }

  // ------------------------------------------------------------ the loops

  /** A later record with the same id replaces the earlier one in the index. */
  lemma BatchIndexSnoc(prefix: seq<Record>, x: Record)
    ensures BatchIndex(prefix + [x]) == if IdKey in x then BatchIndex(prefix)[x[IdKey] := x] else BatchIndex(prefix)
  {
    var s := prefix + [x];
    assert s[..|s| - 1] == prefix && s[|s| - 1] == x;
  }

  /** Builds `new_images_map` with a loop over the batch. */
  method BuildIndex(batch: seq<Record>) returns (index: map<string, Record>)
    ensures index == BatchIndex(batch)
  {
    index := map[];
    var i := 0;
    while i < |batch|
      invariant 0 <= i <= |batch|
      invariant index == BatchIndex(batch[..i])
    {
      assert batch[..i + 1] == batch[..i] + [batch[i]];
      BatchIndexSnoc(batch[..i], batch[i]);
      if IdKey in batch[i] {
        index := index[batch[i][IdKey] := batch[i]];
      }
      i := i + 1;
    }
    assert batch[..|batch|] == batch;
  }

  /** Step 1: the loop over the existing records that fills missing keys. */
  method BackfillExisting(existing: seq<Record>, index: map<string, Record>, withMapLink: bool)
    returns (images: seq<Record>)
    ensures images == BackfillAll(existing, index, BackfillKeys(withMapLink))
  {
    ghost var keys := BackfillKeys(withMapLink);
    images := existing;
    var j := 0;
    while j < |images|
      invariant 0 <= j <= |existing| == |images|
      invariant forall k | 0 <= k < j :: images[k] == Backfill(existing[k], index, keys)
      invariant images[j..] == existing[j..]
    {
      var img := images[j];
      assert img == existing[j];
      if IdKey in img && img[IdKey] in index {
        var src := index[img[IdKey]];
        if DescriptionKey !in img && DescriptionKey in src {
          img := img[DescriptionKey := src[DescriptionKey]];
        }
        ghost var afterDescription := img;
        if withMapLink && MapLinkKey !in img && MapLinkKey in src {
          img := img[MapLinkKey := src[MapLinkKey]];
        }
        assert img == Backfill(existing[j], index, keys) by {
          if withMapLink {
            assert keys[1..] == [MapLinkKey] && keys[1..][1..] == [];
            assert Fill(afterDescription, src, keys[1..]) == img;
          } else {
            assert keys[1..] == [];
          }
        }
      }
      images := images[j := img];
      j := j + 1;
    }
  }

  /** Step 2: the loop over the batch that appends new records. */
  method AppendNew(filled: seq<Record>, ids0: set<string>, batch: seq<Record>) returns (images: seq<Record>)
    ensures images == Appended(filled, ids0, batch)
  {
    images := filled;
    var ids := ids0;
    var k := 0;
    while k < |batch|
      invariant 0 <= k <= |batch|
      invariant Appended(images, ids, batch[k..]) == Appended(filled, ids0, batch)
    {
      var x := batch[k];
      assert batch[k..][0] == x && batch[k..][1..] == batch[k + 1..];
      AppendedUnfold(images, ids, batch[k..]);
      if IdKey in x {
        if x[IdKey] !in ids {
          images := images + [x];
          ids := ids + {x[IdKey]};
        }
      } else if DateKey in x {
        var dates := ValuesOf(images, DateKey);
        if x[DateKey] !in dates {
          images := images + [x];
        }
      }
      k := k + 1;
    }
  }

  /** `update_and_merge_images`: build the index, backfill, append, sort. */
  method UpdateAndMergeImages(existing: seq<Record>, batch: seq<Record>, withMapLink: bool) returns (r: Result<seq<Record>>)
    ensures r == MergeResult(existing, batch, withMapLink)
  {
    var index := BuildIndex(batch);
    var ids := ValuesOf(existing, IdKey);
    var images := BackfillExisting(existing, index, withMapLink);
    images := AppendNew(images, ids, batch);
    r := SortByDate(images);
  }
}
