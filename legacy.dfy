/**
 * The earlier merge revisions, kept as simpler variants of
 * `update_and_merge_images`:
 *
 * - `merge_images` (python/bing_all_langs_fullstartdate.py): identity by an
 *   optional id field, falling back to `date`; no backfill.
 * - the inline date-only merges of python/bing_all_langs.py (into the
 *   current and the yearly list, both sorted) and python/bing.py (one list,
 *   not sorted), whose date sets are built once before the loop.
 */
module LegacyMerge {
  import opened Wrappers
  import opened Text
  import opened Dates
  import opened Records
  import opened Lists
  import ArchiveMerge

  // --------------------------------------------------------- merge_images

  /** `if unique_field and ...`: the id field is in use when given and non-empty. */
  predicate UsesId(idField: Option<string>)
  {
    idField.Some? && idField.value != ""
  }

  /** Does the loop take the id branch for `x`? */
  predicate OnIdPath(x: Record, idField: Option<string>)
  {
    UsesId(idField) && idField.value in x
  }

  /**
   * The loop of `merge_images` from the given state: an id-bearing record
   * is appended when its id is new (and the id recorded), any other record
   * when its `date` is new (and the date recorded); reading the `date` of a
   * record that has none raises KeyError.
   */
  function MergeLoop(list: seq<Record>, ids: set<string>, dates: set<string>, batch: seq<Record>,
                     idField: Option<string>): Result<seq<Record>>
    decreases |batch|
  {
    if batch == [] then Ok(list)
    else
      var x := batch[0];
      if OnIdPath(x, idField) then
        var id := x[idField.value];
        if id !in ids then MergeLoop(list + [x], ids + {id}, dates, batch[1..], idField)
        else MergeLoop(list, ids, dates, batch[1..], idField)
      else if DateKey !in x then Err(KeyError(DateKey))
      else if x[DateKey] !in dates then MergeLoop(list + [x], ids, dates + {x[DateKey]}, batch[1..], idField)
      else MergeLoop(list, ids, dates, batch[1..], idField)
  }

  /** One step of the loop, spelled out. */
  lemma MergeLoopUnfold(list: seq<Record>, ids: set<string>, dates: set<string>, batch: seq<Record>,
                        idField: Option<string>)
    requires batch != []
    ensures var x := batch[0];
            MergeLoop(list, ids, dates, batch, idField) ==
              if OnIdPath(x, idField) then
                (if x[idField.value] !in ids then MergeLoop(list + [x], ids + {x[idField.value]}, dates, batch[1..], idField)
                 else MergeLoop(list, ids, dates, batch[1..], idField))
              else if DateKey !in x then Err(KeyError(DateKey))
              else if x[DateKey] !in dates then MergeLoop(list + [x], ids, dates + {x[DateKey]}, batch[1..], idField)
              else MergeLoop(list, ids, dates, batch[1..], idField)
  {
  }

  /** The id set `merge_images` starts from. */
  function InitialIds(existing: seq<Record>, idField: Option<string>): set<string>
  {
    if UsesId(idField) then ValuesOf(existing, idField.value) else {}
  }

  /** `merge_images(existing, batch, 'date', idField)`: the loop, then the sort. */
  function MergeImagesSpec(existing: seq<Record>, batch: seq<Record>, idField: Option<string>): Result<seq<Record>>
  {
    match MergeLoop(existing, InitialIds(existing, idField), ValuesOf(existing, DateKey), batch, idField)
    case Err(e) => Err(e)
    case Ok(u) => SortByDate(u)
  }

  /** The loop raises exactly when a record off the id path has no `date`, and then it is KeyError. */
  lemma {:induction false} MergeLoopError(list: seq<Record>, ids: set<string>, dates: set<string>,
                                          batch: seq<Record>, idField: Option<string>)
    ensures var r := MergeLoop(list, ids, dates, batch, idField);
            (r.Err? <==> exists x | x in batch :: !OnIdPath(x, idField) && DateKey !in x)
            && (r.Err? ==> r.error == KeyError(DateKey))
    decreases |batch|
  {
    if batch != [] {
      var x := batch[0];
      assert forall y | y in batch :: y == x || y in batch[1..];
      if OnIdPath(x, idField) {
        var id := x[idField.value];
        if id !in ids {
          MergeLoopError(list + [x], ids + {id}, dates, batch[1..], idField);
        } else {
          MergeLoopError(list, ids, dates, batch[1..], idField);
        }
      } else if DateKey in x {
        if x[DateKey] !in dates {
          MergeLoopError(list + [x], ids, dates + {x[DateKey]}, batch[1..], idField);
        } else {
          MergeLoopError(list, ids, dates, batch[1..], idField);
        }
      }
    }
  }

  /** The loop only appends: the list it started from is a prefix, and only batch records follow it. */
  lemma {:induction false} MergeLoopPrefix(list: seq<Record>, ids: set<string>, dates: set<string>,
                                           batch: seq<Record>, idField: Option<string>)
    requires MergeLoop(list, ids, dates, batch, idField).Ok?
    ensures var r := MergeLoop(list, ids, dates, batch, idField).value;
            list <= r && forall x | x in r[|list|..] :: x in batch
    decreases |batch|
  {
    if batch != [] {
      var x := batch[0];
      var rest := batch[1..];
      var r := MergeLoop(list, ids, dates, batch, idField).value;
      assert forall y | y in rest :: y in batch;
      if OnIdPath(x, idField) {
        var f := idField.value;
        if x[f] !in ids {
          var list' := list + [x];
          MergeLoopPrefix(list', ids + {x[f]}, dates, rest, idField);
          assert r[|list|..] == [x] + r[|list'|..];
        } else {
          MergeLoopPrefix(list, ids, dates, rest, idField);
        }
      } else if x[DateKey] !in dates {
        var list' := list + [x];
        MergeLoopPrefix(list', ids, dates + {x[DateKey]}, rest, idField);
        assert r[|list|..] == [x] + r[|list'|..];
      } else {
        MergeLoopPrefix(list, ids, dates, rest, idField);
      }
    }
  }

  /** Every batch id on the id path is known once the loop is done. */
  lemma {:induction false} MergeLoopKnowsIds(list: seq<Record>, ids: set<string>, dates: set<string>,
                                             batch: seq<Record>, idField: Option<string>)
    requires MergeLoop(list, ids, dates, batch, idField).Ok?
    ensures var r := MergeLoop(list, ids, dates, batch, idField).value;
            forall x | x in batch && OnIdPath(x, idField) ::
              x[idField.value] in ids || x[idField.value] in ValuesOf(r, idField.value)
    decreases |batch|
  {
    if batch != [] {
      var x := batch[0];
      var rest := batch[1..];
      var r := MergeLoop(list, ids, dates, batch, idField).value;
      assert forall y | y in batch :: y == x || y in rest;
      if OnIdPath(x, idField) {
        var f := idField.value;
        if x[f] !in ids {
          var list' := list + [x];
          MergeLoopKnowsIds(list', ids + {x[f]}, dates, rest, idField);
          MergeLoopPrefix(list', ids + {x[f]}, dates, rest, idField);
          ValuesOfPrefix(list', r, f);
          assert x in list';
        } else {
          MergeLoopKnowsIds(list, ids, dates, rest, idField);
        }
      } else if x[DateKey] !in dates {
        var list' := list + [x];
        MergeLoopKnowsIds(list', ids, dates + {x[DateKey]}, rest, idField);
      } else {
        MergeLoopKnowsIds(list, ids, dates, rest, idField);
      }
    }
  }

  /** Every batch record off the id path has a `date`, and that date is known once the loop is done. */
  lemma {:induction false} MergeLoopKnowsDates(list: seq<Record>, ids: set<string>, dates: set<string>,
                                               batch: seq<Record>, idField: Option<string>)
    requires MergeLoop(list, ids, dates, batch, idField).Ok?
    ensures var r := MergeLoop(list, ids, dates, batch, idField).value;
            forall x | x in batch && !OnIdPath(x, idField) ::
              DateKey in x && (x[DateKey] in dates || x[DateKey] in ValuesOf(r, DateKey))
    decreases |batch|
  {
    if batch != [] {
      var x := batch[0];
      var rest := batch[1..];
      var r := MergeLoop(list, ids, dates, batch, idField).value;
      assert forall y | y in batch :: y == x || y in rest;
      if OnIdPath(x, idField) {
        var f := idField.value;
        if x[f] !in ids {
          MergeLoopKnowsDates(list + [x], ids + {x[f]}, dates, rest, idField);
        } else {
          MergeLoopKnowsDates(list, ids, dates, rest, idField);
        }
      } else if x[DateKey] !in dates {
        var list' := list + [x];
        MergeLoopKnowsDates(list', ids, dates + {x[DateKey]}, rest, idField);
        MergeLoopPrefix(list', ids, dates + {x[DateKey]}, rest, idField);
        ValuesOfPrefix(list', r, DateKey);
        assert x in list';
      } else {
        MergeLoopKnowsDates(list, ids, dates, rest, idField);
      }
    }
  }

  /**
   * No id is appended twice: a list whose ids are distinct and all
   * recorded stays so.
   */
  lemma {:induction false} MergeLoopDistinctIds(list: seq<Record>, ids: set<string>, dates: set<string>,
                                                batch: seq<Record>, idField: Option<string>)
    requires UsesId(idField)
    requires DistinctOn(list, idField.value) && ValuesOf(list, idField.value) <= ids
    requires MergeLoop(list, ids, dates, batch, idField).Ok?
    ensures DistinctOn(MergeLoop(list, ids, dates, batch, idField).value, idField.value)
    decreases |batch|
  {
    if batch != [] {
      var x := batch[0];
      var f := idField.value;
      ValuesOfAppend(list, x, f);
      if OnIdPath(x, idField) {
        if x[f] !in ids {
          DistinctOnSnoc(list, x, f);
          MergeLoopDistinctIds(list + [x], ids + {x[f]}, dates, batch[1..], idField);
        } else {
          MergeLoopDistinctIds(list, ids, dates, batch[1..], idField);
        }
      } else if x[DateKey] !in dates {
        DistinctOnSnoc(list, x, f);
        MergeLoopDistinctIds(list + [x], ids, dates + {x[DateKey]}, batch[1..], idField);
      } else {
        MergeLoopDistinctIds(list, ids, dates, batch[1..], idField);
      }
    }
  }

  /** Without an id field identity is the `date`: no date is appended twice. */
  lemma {:induction false} MergeLoopDistinctDates(list: seq<Record>, ids: set<string>, dates: set<string>,
                                                  batch: seq<Record>, idField: Option<string>)
    requires !UsesId(idField)
    requires DistinctOn(list, DateKey) && ValuesOf(list, DateKey) <= dates
    requires MergeLoop(list, ids, dates, batch, idField).Ok?
    ensures DistinctOn(MergeLoop(list, ids, dates, batch, idField).value, DateKey)
    decreases |batch|
  {
    if batch != [] {
      var x := batch[0];
      ValuesOfAppend(list, x, DateKey);
      if x[DateKey] !in dates {
        DistinctOnSnoc(list, x, DateKey);
        MergeLoopDistinctDates(list + [x], ids, dates + {x[DateKey]}, batch[1..], idField);
      } else {
        MergeLoopDistinctDates(list, ids, dates, batch[1..], idField);
      }
    }
  }

  /**
   * Only the date path records dates: a new id-bearing record and a later
   * id-less record with the same new `date` are both appended.
   */
  lemma IdPathRecordsNoDate(list: seq<Record>, ids: set<string>, dates: set<string>,
                            a: Record, b: Record, idField: Option<string>)
    requires OnIdPath(a, idField) && a[idField.value] !in ids
    requires !OnIdPath(b, idField) && DateKey in a && DateKey in b
    requires a[DateKey] == b[DateKey] && a[DateKey] !in dates
    ensures MergeLoop(list, ids, dates, [a, b], idField) == Ok(list + [a, b])
  {
    var f := idField.value;
    assert [a, b][1..] == [b] && [b][1..] == [];
    assert MergeLoop(list, ids, dates, [a, b], idField) == MergeLoop(list + [a], ids + {a[f]}, dates, [b], idField);
    assert MergeLoop(list + [a], ids + {a[f]}, dates, [b], idField)
        == MergeLoop(list + [a] + [b], ids + {a[f]}, dates + {b[DateKey]}, [], idField);
    assert list + [a] + [b] == list + [a, b];
  }

  /** `merge_images` raises KeyError when a record off the id path has no `date`. */
  lemma MergeImagesError(existing: seq<Record>, batch: seq<Record>, idField: Option<string>)
    requires exists x | x in batch :: !OnIdPath(x, idField) && DateKey !in x
    ensures MergeImagesSpec(existing, batch, idField) == Err(KeyError(DateKey))
  {
    MergeLoopError(existing, InitialIds(existing, idField), ValuesOf(existing, DateKey), batch, idField);
  }

  /**
   * `merge_images` keeps every existing record unchanged, adds only batch
   * records, leaves every batch id and every batch date it saw present,
   * and sorts the result latest first.
   */
  lemma MergeImagesContents(existing: seq<Record>, batch: seq<Record>, idField: Option<string>)
    requires MergeImagesSpec(existing, batch, idField).Ok?
    ensures var r := MergeImagesSpec(existing, batch, idField).value;
            multiset(existing) <= multiset(r)
            && (forall x | x in r :: x in existing || x in batch)
            && (forall x | x in batch && OnIdPath(x, idField) :: x[idField.value] in ValuesOf(r, idField.value))
            && (forall x | x in batch && !OnIdPath(x, idField) :: DateKey in x && x[DateKey] in ValuesOf(r, DateKey))
            && (forall i, j | 0 <= i < j < |r| :: DateLe(DateValue(r[j]), DateValue(r[i])))
  {
    var ids0 := InitialIds(existing, idField);
    var dates0 := ValuesOf(existing, DateKey);
    MergeLoopError(existing, ids0, dates0, batch, idField);
    var u := MergeLoop(existing, ids0, dates0, batch, idField).value;
    var r := MergeImagesSpec(existing, batch, idField).value;
    LoopResultFacts(existing, batch, idField);
    ArchiveMerge.SortKeepsMembers(u);
    if UsesId(idField) {
      ValuesOfPermutation(u, r, idField.value);
    }
  }

  /** The facts of `MergeImagesContents` for the list before the sort. */
  lemma LoopResultFacts(existing: seq<Record>, batch: seq<Record>, idField: Option<string>)
    requires MergeLoop(existing, InitialIds(existing, idField), ValuesOf(existing, DateKey), batch, idField).Ok?
    ensures var u := MergeLoop(existing, InitialIds(existing, idField), ValuesOf(existing, DateKey), batch, idField).value;
            multiset(existing) <= multiset(u)
            && (forall x | x in u :: x in existing || x in batch)
            && (forall x | x in batch && OnIdPath(x, idField) :: x[idField.value] in ValuesOf(u, idField.value))
            && (forall x | x in batch && !OnIdPath(x, idField) :: DateKey in x && x[DateKey] in ValuesOf(u, DateKey))
  {
    var ids0 := InitialIds(existing, idField);
    var dates0 := ValuesOf(existing, DateKey);
    var u := MergeLoop(existing, ids0, dates0, batch, idField).value;
    MergeLoopPrefix(existing, ids0, dates0, batch, idField);
    MergeLoopKnowsIds(existing, ids0, dates0, batch, idField);
    MergeLoopKnowsDates(existing, ids0, dates0, batch, idField);
    assert u == existing + u[|existing|..];
    ValuesOfPrefix(existing, u, DateKey);
    if UsesId(idField) {
      ValuesOfPrefix(existing, u, idField.value);
    }
    forall x | x in u ensures x in existing || x in batch {
      var k :| 0 <= k < |u| && u[k] == x;
      if k >= |existing| {
        assert x == u[|existing|..][k - |existing|];
      }
    }
  }

  /** With distinct ids on disk, `merge_images` adds no id twice. */
  lemma MergeImagesDistinctIds(existing: seq<Record>, batch: seq<Record>, idField: Option<string>)
    requires UsesId(idField) && DistinctOn(existing, idField.value)
    requires MergeImagesSpec(existing, batch, idField).Ok?
    ensures DistinctOn(MergeImagesSpec(existing, batch, idField).value, idField.value)
  {
    var ids0 := InitialIds(existing, idField);
    var dates0 := ValuesOf(existing, DateKey);
    MergeLoopError(existing, ids0, dates0, batch, idField);
    MergeLoopDistinctIds(existing, ids0, dates0, batch, idField);
    DistinctOnSort(MergeLoop(existing, ids0, dates0, batch, idField).value, idField.value);
  }

  /** With `unique_field=None`, an archive with distinct dates keeps distinct dates. */
  lemma MergeImagesDistinctDates(existing: seq<Record>, batch: seq<Record>)
    requires DistinctOn(existing, DateKey)
    requires MergeImagesSpec(existing, batch, None).Ok?
    ensures DistinctOn(MergeImagesSpec(existing, batch, None).value, DateKey)
  {
    var dates0 := ValuesOf(existing, DateKey);
    MergeLoopError(existing, {}, dates0, batch, None);
    MergeLoopDistinctDates(existing, {}, dates0, batch, None);
    DistinctOnSort(MergeLoop(existing, {}, dates0, batch, None).value, DateKey);
  }

  /** `merge_images`, with its loop. */
  method MergeImages(existing: seq<Record>, batch: seq<Record>, idField: Option<string>) returns (r: Result<seq<Record>>)
    ensures r == MergeImagesSpec(existing, batch, idField)
  {
    var dates := ValuesOf(existing, DateKey);
    var ids: set<string> := {};
    if UsesId(idField) {
      ids := ValuesOf(existing, idField.value);
    }
    var images := RunMergeLoop(existing, ids, dates, batch, idField);
    if images.Err? {
      return Err(images.error);
    }
    r := SortByDate(images.value);
  }

  /** The loop of `merge_images` over the batch, from the given list, id set and date set. */
  method RunMergeLoop(list: seq<Record>, ids0: set<string>, dates0: set<string>, batch: seq<Record>,
                      idField: Option<string>)
    returns (r: Result<seq<Record>>)
    ensures r == MergeLoop(list, ids0, dates0, batch, idField)
  {
    var images, ids, dates := list, ids0, dates0;
    var k := 0;
    while k < |batch|
      invariant 0 <= k <= |batch|
      invariant MergeLoop(images, ids, dates, batch[k..], idField) == MergeLoop(list, ids0, dates0, batch, idField)
    {
      var x := batch[k];
      assert batch[k..][0] == x && batch[k..][1..] == batch[k + 1..];
      MergeLoopUnfold(images, ids, dates, batch[k..], idField);
      if UsesId(idField) && idField.value in x {
        if x[idField.value] !in ids {
          images := images + [x];
          ids := ids + {x[idField.value]};
        }
      } else if DateKey !in x {
        return Err(KeyError(DateKey));
      } else if x[DateKey] !in dates {
        images := images + [x];
        dates := dates + {x[DateKey]};
      }
      k := k + 1;
    }
    assert batch[k..] == [];
    r := Ok(images);
  }

  // ------------------------------------------------- date-only merges

  /** The test of the date-only loop: the record's `date` is not in `dates`. */
  function IsNewDate(dates: set<string>): Record -> bool
  {
    x => DateKey in x && x[DateKey] !in dates
  }

  /** The batch records whose `date` is not in `dates`, in fetch order. */
  function NewByDate(batch: seq<Record>, dates: set<string>): seq<Record>
  {
    Filter(batch, IsNewDate(dates))
  }

  lemma AllDatedSnoc(s: seq<Record>, x: Record)
    requires AllDated(s) && DateKey in x
    ensures AllDated(s + [x])
  {
    assert forall i | 0 <= i < |s| :: (s + [x])[i] == s[i];
  }

  /** Extending the batch by one dated record extends the new records by it exactly when its date is new. */
  lemma NewByDateStep(prefix: seq<Record>, x: Record, dates: set<string>)
    requires DateKey in x
    ensures NewByDate(prefix + [x], dates) == NewByDate(prefix, dates) + (if x[DateKey] !in dates then [x] else [])
  {
    FilterConcat(prefix, [x], IsNewDate(dates));
    assert [x][1..] == [];
    assert NewByDate([x], dates) == (if x[DateKey] !in dates then [x] else []);
  }

  /**
   * The date-only append: the date set is built once from the existing
   * records (KeyError when one has no `date`), and each batch record whose
   * `date` is not in it is appended. The set is not updated in the loop.
   */
  function AppendByDate(existing: seq<Record>, batch: seq<Record>): Result<seq<Record>>
  {
    if !AllDated(existing) || !AllDated(batch) then Err(KeyError(DateKey))
    else Ok(existing + NewByDate(batch, ValuesOf(existing, DateKey)))
  }

  /**
   * The existing list is kept as it is, and the appended records are the
   * batch records with a date absent from it, in fetch order.
   */
  lemma AppendByDateFacts(existing: seq<Record>, batch: seq<Record>)
    ensures var r := AppendByDate(existing, batch);
            (r.Ok? <==> AllDated(existing) && AllDated(batch))
            && (r.Err? ==> r.error == KeyError(DateKey))
            && (r.Ok? ==>
                  existing <= r.value
                  && IsSubsequence(r.value[|existing|..], batch)
                  && forall x | x in batch :: x in r.value[|existing|..] <==> x[DateKey] !in ValuesOf(existing, DateKey))
  {
    var r := AppendByDate(existing, batch);
    if r.Ok? {
      var dates := ValuesOf(existing, DateKey);
      var p := IsNewDate(dates);
      assert r.value[|existing|..] == Filter(batch, p);
      FilterSubsequence(batch, p);
      forall x | x in batch ensures x in Filter(batch, p) <==> x[DateKey] !in dates {
        FilterMembers(batch, p, x);
        var i :| 0 <= i < |batch| && batch[i] == x;
      }
    }
  }

  /** Two batch records with the same new date are both appended. */
  lemma RepeatedNewDateAppendedTwice(existing: seq<Record>, a: Record, b: Record)
    requires AllDated(existing) && DateKey in a && DateKey in b
    requires a[DateKey] == b[DateKey] && a[DateKey] !in ValuesOf(existing, DateKey)
    ensures AppendByDate(existing, [a, b]) == Ok(existing + [a, b])
  {
    var p := IsNewDate(ValuesOf(existing, DateKey));
    assert p(a) && p(b);
    assert [a, b][1..] == [b] && [b][1..] == [];
    assert Filter([b], p) == [b];
    assert Filter([a, b], p) == [a, b];
    assert AllDated([a, b]);
  }

  /** python/bing_all_langs.py: both lists merged by the same rule, then each sorted. */
  function AllLangsMergeSpec(current: seq<Record>, yearly: seq<Record>, batch: seq<Record>)
    : Result<(seq<Record>, seq<Record>)>
  {
    if !AllDated(current) || !AllDated(yearly) || !AllDated(batch) then Err(KeyError(DateKey))
    else
      var c := current + NewByDate(batch, ValuesOf(current, DateKey));
      var y := yearly + NewByDate(batch, ValuesOf(yearly, DateKey));
      match SortByDate(c)
      case Err(e) => Err(e)
      case Ok(sc) =>
        match SortByDate(y)
        case Err(e) => Err(e)
        case Ok(sy) => Ok((sc, sy))
  }

  /**
   * The two lists are merged independently: each result is the date-only
   * append into that list, sorted latest first.
   */
  lemma AllLangsIndependent(current: seq<Record>, yearly: seq<Record>, batch: seq<Record>)
    requires AllLangsMergeSpec(current, yearly, batch).Ok?
    ensures var r := AllLangsMergeSpec(current, yearly, batch).value;
            AppendByDate(current, batch).Ok? && AppendByDate(yearly, batch).Ok?
            && Ok(r.0) == SortByDate(AppendByDate(current, batch).value)
            && Ok(r.1) == SortByDate(AppendByDate(yearly, batch).value)
            && multiset(current) <= multiset(r.0) && multiset(yearly) <= multiset(r.1)
  {
    var c := AppendByDate(current, batch).value;
    var y := AppendByDate(yearly, batch).value;
    assert c == current + c[|current|..] && y == yearly + y[|yearly|..];
  }

  /** The inline merge of python/bing_all_langs.py: the loop over the batch, then both lists sorted. */
  method AllLangsMerge(current: seq<Record>, yearly: seq<Record>, batch: seq<Record>)
    returns (r: Result<(seq<Record>, seq<Record>)>)
    ensures r == AllLangsMergeSpec(current, yearly, batch)
  {
    if !AllDated(current) || !AllDated(yearly) {
      return Err(KeyError(DateKey));
    }
    var appended := AppendNewDates(current, yearly, batch, ValuesOf(current, DateKey), ValuesOf(yearly, DateKey));
    if appended.Err? {
      return Err(appended.error);
    }
    var (c, y) := appended.value;
    var sc := SortByDate(c);
    if sc.Err? {
      return Err(sc.error);
    }
    var sy := SortByDate(y);
    if sy.Err? {
      return Err(sy.error);
    }
    r := Ok((sc.value, sy.value));
  }

  /** The loop over the batch: each record of a new date is appended to the list that lacks its date. */
  method AppendNewDates(current: seq<Record>, yearly: seq<Record>, batch: seq<Record>,
                        datesCurrent: set<string>, datesYearly: set<string>)
    returns (r: Result<(seq<Record>, seq<Record>)>)
    ensures r.Err? <==> !AllDated(batch)
    ensures r.Err? ==> r.error == KeyError(DateKey)
    ensures r.Ok? ==> r.value == (current + NewByDate(batch, datesCurrent), yearly + NewByDate(batch, datesYearly))
  {
    var c, y := current, yearly;
    var k := 0;
    while k < |batch|
      invariant 0 <= k <= |batch|
      invariant AllDated(batch[..k])
      invariant c == current + NewByDate(batch[..k], datesCurrent)
      invariant y == yearly + NewByDate(batch[..k], datesYearly)
    {
      var x := batch[k];
      if DateKey !in x {
        return Err(KeyError(DateKey));
      }
      assert batch[..k + 1] == batch[..k] + [x];
      AllDatedSnoc(batch[..k], x);
      NewByDateStep(batch[..k], x, datesCurrent);
      NewByDateStep(batch[..k], x, datesYearly);
      if x[DateKey] !in datesCurrent {
        c := c + [x];
      }
      if x[DateKey] !in datesYearly {
        y := y + [x];
      }
      k := k + 1;
    }
    assert batch[..k] == batch;
    r := Ok((c, y));
  }

  /** `read_json`: a file that does not exist reads as an empty list. */
  function ReadOrEmpty(file: Option<seq<Record>>): (s: seq<Record>)
    ensures file.None? ==> s == []
    ensures file.Some? ==> s == file.value
  {
    if file.None? then [] else file.value
  }

  /**
   * python/bing.py: the archive (empty when the file is missing) with the
   * batch records of new dates appended at the end, no sort; the weekly
   * file is the batch itself. It is written after the archive, so a
   * `KeyError` leaves it unwritten (`None`).
   */
  method BingUpdate(file: Option<seq<Record>>, batch: seq<Record>)
    returns (r: Result<seq<Record>>, weekly: Option<seq<Record>>)
    ensures r == AppendByDate(ReadOrEmpty(file), batch)
    ensures r.Ok? ==> weekly == Some(batch)
    ensures r.Err? ==> weekly.None?
  {
    weekly := None;
    var existing := ReadOrEmpty(file);
    if !AllDated(existing) {
      return Err(KeyError(DateKey)), weekly;
    }
    var dates := ValuesOf(existing, DateKey);
    var images := existing;
    var k := 0;
    while k < |batch|
      invariant 0 <= k <= |batch|
      invariant AllDated(batch[..k])
      invariant images == existing + NewByDate(batch[..k], dates)
    {
      var x := batch[k];
      if DateKey !in x {
        assert !AllDated(batch);
        return Err(KeyError(DateKey)), weekly;
      }
      assert batch[..k + 1] == batch[..k] + [x];
      NewByDateStep(batch[..k], x, dates);
      AllDatedSnoc(batch[..k], x);
      if x[DateKey] !in dates {
        images := images + [x];
      }
      k := k + 1;
    }
    assert batch[..k] == batch;
    assert AppendByDate(existing, batch) == Ok(existing + NewByDate(batch, dates));
    r := Ok(images);
    weekly := Some(batch);
  }
}
