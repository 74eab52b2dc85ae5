# Bing Daily Wallpaper archive, modelled in Dafny

Bing-Daily-Wallpaper keeps a JSON archive of Bing's daily wallpaper for every
market. Several generations of Python scripts fetch the daily image API. They
turn its images into archive records, merge each batch into the market's
archive file and its yearly file, and write a weekly snapshot. Some helper
scripts check an archive for missing or repeated days, turn a yearly folder
into Markdown tables, and compare each market's pictures with the "rest of
the world" feed. Two browser scripts, the gallery page and the archive page,
show the archive 31 records per page, with month and search filters.

This project models that logic in Dafny and proves what it promises:

| file | models |
|---|---|
| `wrappers.dfy` | `Option`, `Result` and the Python exceptions the scripts can raise |
| `text.dfy` | digits and `str(n)`, code-point string order, `str.replace`, `str.split`, Python slices, `sorted(set)` |
| `dates.dfy` | `strptime`/`strftime` with `%Y%m%d`, one-day steps, `adjust_date`, `get_year_from_date` and the `thisyear` rule |
| `records.dfy` | records as string maps, and the stable descending sort by `date` that ends every merge |
| `lists.dfy` | filtering, order-preserving subsequences, and "first record of each key" deduplication |
| `scanners.dfy` | the regular expressions, written as scanners that find the leftmost match |
| `builders.dfy` | building archive records from API images, one builder per script revision |
| `merge.dfy` | `update_and_merge_images`: backfill, append by id or date, then sort |
| `legacy.dfy` | the earlier merges: `merge_images` and the date-only merges of `bing_all_langs.py` and `bing.py` |
| `enrichment.dfy` | `process_media_contents` and the `Ssd` description loop |
| `runs.dfy` | one market of each script revision, from fetched data to the files written, including routing records to yearly files |
| `yearfilters.dfy` | the previous-year cleanup and `get_yearly_data.py` |
| `datecheck.dfy` | the missing- and duplicate-date checker |
| `markdown.dfy` | the JSON-to-Markdown table converter |
| `similarity.dfy` | the theme-set comparison against the ROW archive |
| `gallery.dfy` | `assets/script.js`: dedup, the month and search filters, paging, the page buttons, resolution URLs and download names |
| `archive.dfy` | `assets/archive.js`: the year index, year offsets, the years a page needs, region fallback, year loading, `rebuildAllData`, `updateQuery` and the month list |

Code whose source changes state step by step is modelled imperatively. This covers:
- the merges;
- the enrichment loops;
- the date range and the issue loop;
- the Markdown loop;
- the page classes of the two browser scripts.

Each of these is a method proved against a specification function, and the
lemmas about that function carry the promised properties. Pure helpers are
functions.

The model follows the code in the places listed under "## Model", with the
limits stated under "## Left out". Four places where the code's behaviour
is easy to misread:
- The backfill takes the missing value from the last batch record with the
  id, because a later record overwrites an earlier one in `new_images_map`.
- Python's sort computes every key before comparing. So one record with a
  missing or unparseable `date` makes the sort raise, even in a list of one
  record.
- python/bing_260204.py writes the archive file before it merges the yearly
  files, and each yearly file as soon as it is merged, with no `try`. A
  failing yearly merge therefore leaves the archive and the yearly files
  routed before it on disk and stops before the weekly file; `Run260204`
  returns those files next to the error. python/bing.py likewise writes no
  weekly file when its archive update raises.
- Only the fetch of a market sits inside a `try`. A market whose fetch
  fails is skipped, but the first market whose build, merge or write raises
  ends the whole script: the later markets are never processed, and neither
  are the clean-up and index steps after the loop. `RunMarkets260204` runs
  the markets in this way and stops at the first one whose run fails.

## Model

| member | source | states |
|---|---|---|
| ArchiveMerge.BackfillKeys | python/bing_260204.py:86-95 | the backfilled keys are `description`, plus `maplink` exactly in the later revision; the id and the date are never backfilled |
| ArchiveMerge.BatchIndex | python/bing_260204.py:66-70 | `new_images_map` maps only ids that batch records carry, each to a batch record with that id, and every batch id is mapped |
| ArchiveMerge.BatchIndexLastWins | python/bing_260204.py:68-70 | dictionary assignment keeps the last write: an id maps to the last batch record carrying it |
| ArchiveMerge.BatchIndexSnoc | python/bing_260204.py:68-70 | one more batch record with an id overwrites that id's entry and leaves the rest |
| ArchiveMerge.BatchIndexOfDistinct | python/bing_260204.py:66-70 | in a batch without repeated ids each record is its own index entry |
| ArchiveMerge.BuildIndex | python/bing_260204.py:66-70 | the loop builds exactly `BatchIndex(batch)` |
| ArchiveMerge.Fill | python/bing_260204.py:86-95 | filling keeps every existing value, adds only listed keys the source has, and adds every such key the record lacks |
| ArchiveMerge.FillIdempotent | python/bing_260204.py:86-95 | filling a second time from the same source adds nothing |
| ArchiveMerge.FillFromSelf | python/bing_260204.py:86-95 | a record filled from itself is unchanged |
| ArchiveMerge.BackfillAll | python/bing_260204.py:77-95 | step 1 keeps the length and every existing value; a new key appears only when it is a backfill key and the record's id is in the batch, and the value is the batch record's |
| ArchiveMerge.Backfill | python/bing_260204.py:78-95 | step 1 for one existing record: filled from the batch record of its `fullstartdate`, else unchanged; no contract of its own; characterised by ArchiveMerge.BackfillAll and ArchiveMerge.RefillChangesNothing |
| ArchiveMerge.Filled | python/bing_260204.py:66-95 | the existing records after step 1, as a value; no contract of its own; characterised by ArchiveMerge.BackfillAll, ArchiveMerge.FilledDates and ArchiveMerge.MergeContents |
| ArchiveMerge.BackfillKeepsValues | python/bing_260204.py:77-95 | step 1 leaves the set of values of every non-backfill field (id, date) unchanged |
| ArchiveMerge.BackfillExisting | python/bing_260204.py:76-95 | the loop over the existing records computes exactly step 1 |
| ArchiveMerge.FilledDates | python/bing_260204.py:77-95 | step 1 never changes whether a record has a valid `date` |
| ArchiveMerge.FilledDistinct | python/bing_260204.py:77-95 | step 1 keeps an archive without repeated ids that way |
| ArchiveMerge.AppendedFacts | python/bing_260204.py:100-114 | step 2 keeps the list as a prefix, appends only batch records carrying an id or a date, and afterwards every batch id is known and every date of an id-less batch record is present |
| ArchiveMerge.Appended | python/bing_260204.py:100-114 | step 2, the append loop with its growing id set and recomputed dates, as a value; no contract of its own; characterised by ArchiveMerge.AppendedFacts, ArchiveMerge.AppendedDateRule, ArchiveMerge.AppendedTurn, ArchiveMerge.AppendedDistinct, ArchiveMerge.AppendedSaturated and ArchiveMerge.AppendNew |
| ArchiveMerge.AppendNew | python/bing_260204.py:100-114 | the loop over the batch computes exactly step 2 |
| ArchiveMerge.AppendedDistinct | python/bing_260204.py:102-108 | step 2 never appends an id already known, so ids stay distinct |
| ArchiveMerge.AppendedSaturated | python/bing_260204.py:102-114 | when every batch id is known and every id-less batch date is present, step 2 appends nothing |
| ArchiveMerge.AppendedDateRule | python/bing_260204.py:109-114 | every record step 2 appends without an id carries a date that no record before it has, the list being the existing records plus those appended earlier from the same batch |
| ArchiveMerge.AppendedIdlessDates | python/bing_260204.py:109-114 | the id-less records step 2 appends have dates absent from the list it started with, and no two of them share a date |
| ArchiveMerge.KnownIds | python/bing_260204.py:103-106 | the id set of step 2 after part of the batch; it only grows |
| ArchiveMerge.AppendedSplit | python/bing_260204.py:100-114 | step 2 over two batch parts is step 2 over the first, then over the second from the list and id set the first left |
| ArchiveMerge.AppendedTurn | python/bing_260204.py:100-114 | at the turn of `batch[j]` the list is step 2 over `batch[..j]`; the record is appended exactly when the id or date test passes against that list and id set, and what follows only appends after it |
| ArchiveMerge.AppendedIdlessTurn | python/bing_260204.py:109-114 | an id-less dated batch record is appended at its turn if and only if its date is not in the list at that turn (earlier appends of the same batch included), and then stays in the result |
| ArchiveMerge.LaterMergeAppendsDateOnce | python/bing_260204.py:109-114 | of two id-less records with the same date new to the list, step 2 appends only the first, because the dates are recomputed from the grown list |
| ArchiveMerge.MergedUnsortedFacts | python/bing_260204.py:75-114 | after steps 1 and 2 the backfilled list is a prefix and every batch id and id-less batch date is present |
| ArchiveMerge.MergedUnsorted | python/bing_260204.py:66-114 | steps 1 and 2 before the sort, as a value; no contract of its own; characterised by ArchiveMerge.MergedUnsortedFacts, ArchiveMerge.MergedUnsortedOnly and ArchiveMerge.MergedKeepsFilled |
| ArchiveMerge.MergedUnsortedOnly | python/bing_260204.py:100-114 | steps 1 and 2 add nothing but batch records |
| ArchiveMerge.MergedKeepsFilled | python/bing_260204.py:100-114 | every backfilled record survives step 2, counted with multiplicity |
| ArchiveMerge.OccursOnce | python/bing_260204.py:109-114 | a record found at one position only occurs once in the list |
| ArchiveMerge.MergedIdlessNew | python/bing_260204.py:109-114 | an id-less record added by steps 1 and 2 that is not a backfilled record is a batch record whose date no backfilled record has, and it occurs once |
| ArchiveMerge.MergedIdlessDistinct | python/bing_260204.py:109-114 | two id-less records added by step 2 with the same date are the same record |
| ArchiveMerge.MergedIdlessTurn | python/bing_260204.py:109-114 | an id-less dated batch record whose date is not in the list at its turn is added |
| ArchiveMerge.MergeDateRule | python/bing_260204.py:109-122 | the three id-less date facts survive the sort: added id-less records have dates new to the archive, occur once and have distinct dates, and each id-less record with a date new at its turn is in the result |
| ArchiveMerge.SortKeepsMembers | python/bing_260204.py:121 | a successful sort keeps the ids, the dates and the records |
| ArchiveMerge.MergeResult | python/bing_260204.py:59-122 | the merge keeps every backfilled record, adds only batch records, makes every batch id and id-less batch date present, adds an id-less record only with a date no backfilled record has (once, and never two with one date), adds every id-less batch record whose date is new when its turn comes, is ordered latest first with valid dates, fails when an existing record has no valid `date`, and succeeds when all records are dated |
| ArchiveMerge.MergeContents | python/bing_260204.py:59-122 | a successful merge holds the backfilled records, only batch records besides them, and every batch id and id-less batch date |
| ArchiveMerge.MergeErrorCases | python/bing_260204.py:121 | the sort raises when an existing record has no valid `date` and does not when every record is dated |
| ArchiveMerge.MergeFailsOnUndated | python/bing_260204.py:121 | one existing record without a valid `date` makes the merge fail |
| ArchiveMerge.MergeSucceedsWhenDated | python/bing_260204.py:121 | when every existing and batch record has a valid `date` the merge succeeds |
| ArchiveMerge.MergeNoDuplicateIds | python/bing_260204.py:100-108 | an archive without repeated `fullstartdate` stays without after the merge |
| ArchiveMerge.RefillChangesNothing | python/bing_260204.py:77-95 | a second backfill from the same batch leaves every merged record unchanged |
| ArchiveMerge.MergeIdempotent | python/bing_260204.py:59-122 | merging the same batch (without repeated ids) a second time changes nothing |
| ArchiveMerge.UpdateAndMergeImages | python/bing_260204.py:59-122 | the method (index, backfill loop, append loop, sort) returns exactly `MergeResult` |
| Scanners.RunEnd | python/bing_260204.py:34 | a greedy character-class run ends at the first character outside the class |
| Scanners.FindMatch | python/bing_260204.py:34 | the position found is a match and no earlier position from the start matches |
| Scanners.Search | python/bing_260204.py:34 | `re.search` finds a match exactly when some position matches, and reports the group of the leftmost one |
| Scanners.MatchNeedsLiteral | python/bing_260204.py:156 | a match of each pattern starts with its literal (`id=`, `OHR.`, `pp=` after one character) |
| Scanners.NoLiteralNoMatch | python/bing_260204.py:156 | a string without the pattern's literal has no match |
| Scanners.MapLinkMatchShape | python/bing_260204.py:34 | a `[&?]pp=` match reports two non-empty `[0-9.-]` runs joined by a comma |
| Scanners.MapLinkMatchIn | python/bing_260204.py:34 | the reported group is a substring of the URL |
| Scanners.MapLinkSearchFacts | python/bing_260204.py:34-36 | a successful search yields a coordinate pair taken from the URL |
| Scanners.ExtractMapLinkCoordinates | python/bing_260204.py:29-37 | None for an empty URL and for one without `pp=`; for a non-empty URL, a result exactly when `[?&]pp=([0-9.-]+,[0-9.-]+)` matches, and then the coordinate pair of the leftmost match, found in the URL |
| Scanners.ImageIdMatchShape | python/bing_260204.py:156 | an `id=…_` match reports a non-empty `[A-Za-z0-9.]` run that sits between `id=` and `_` |
| Scanners.ImageIdSearchFacts | python/bing_260204.py:156-158 | no `id=` means no id; a found id is a non-empty id-character run with `id=` before and `_` after it in the URL |
| Scanners.ImageIdFromUrl | python/bing_260204.py:151-159 | `get_image_id_from_url`: None for an empty URL or one without `id=`; for a non-empty URL, a result exactly when `id=([A-Za-z0-9.]+)_` matches, and then the group of the leftmost match: a non-empty id-character run the URL holds as `id=<id>_` |
| Enrichment.ItemAttachment | python/bing_260204.py:264-286 | an item contributes exactly when it has a description, an image URL and an extractable image id; it then contributes that id, that description, and the coordinates extracted from its map link URL (none without one) |
| Enrichment.FirstWithId | python/bing_260204.py:289-291 | the index found carries the image id, and no earlier record does |
| Enrichment.ApplyItem | python/bing_260204.py:261-308 | one turn of the outer loop, as a value; no contract of its own; characterised by Enrichment.ApplyItemAt, Enrichment.StepAt and Enrichment.ProcessItem |
| Enrichment.Attach | python/bing_260204.py:293-298 | a match sets the description, keeps every other field, sets `maplink` to the coordinates exactly when there are some and this revision stores them (otherwise leaves it as it was), and adds no other field |
| Enrichment.FirstFor | python/bing_260204.py:261-277 | the first usable item for an id carries that id |
| Enrichment.ApplyMedia | python/bing_260204.py:254-314 | `process_media_contents`, as a fold over the media items; no contract of its own; characterised by Enrichment.ProcessMediaContents, Enrichment.ApplyMediaExact, Enrichment.ApplyMediaKeepsIds and Enrichment.ApplyMediaKeepsValues |
| Enrichment.ApplyMediaKeepsIds | python/bing_260204.py:261-312 | the matching keeps the number of records and each record's temporary image id |
| Enrichment.FirstWithIdKept | python/bing_260204.py:289-291 | the matching never changes which record is first with a given image id |
| Enrichment.ApplyMediaExact | python/bing_260204.py:254-314 | first write wins: a record changes only when it is the first with its image id and has no description, and then it gets the first usable item's description (and coordinates) for that id |
| Enrichment.StepAt | python/bing_260204.py:261-308 | one more item keeps the per-record characterisation of `ApplyMediaExact` |
| Enrichment.ApplyItemAt | python/bing_260204.py:289-308 | one item changes only the first record with its id, and only when that record has no description |
| Enrichment.FirstForStep | python/bing_260204.py:261-277 | the first usable item of a longer list is the earlier one, else the new item when its id matches |
| Enrichment.ExpectedUnchanged | python/bing_260204.py:289-291 | a record the item does not reach expects the same before and after the item |
| Enrichment.StepHit | python/bing_260204.py:291-298 | the record the item reaches ends described by an earlier item, or else by this one |
| Enrichment.ApplyMediaKeepsValues | python/bing_260204.py:293-298 | nothing already in a record changes, except a map link on a record without description; the only new keys are the description and the map link |
| Enrichment.ApplyMediaConcat | python/bing_260204.py:320-331 | processing two lists one after the other equals processing their concatenation |
| Enrichment.FirstForConcat | python/bing_260204.py:320-331 | the first usable item of a concatenation comes from the first list when it has one |
| Enrichment.MediaContentsWins | python/bing_260204.py:316-331 | MediaContents wins: a usable MediaContents item for an undescribed record fixes its description whatever PreloadMediaContents holds |
| Enrichment.DescribeBatch | python/bing_260204.py:316-331 | MediaContents, then PreloadMediaContents, each only when the response has it; no contract of its own; characterised by Enrichment.MediaContentsWins and Runs.DescribeKeepsDates |
| Enrichment.ProcessMediaContents | python/bing_260204.py:254-314 | the outer loop over the items computes exactly `ApplyMedia` |
| Enrichment.ProcessItem | python/bing_260204.py:264-308 | the inner loop stops at the first record with the item's id and computes exactly one step of `ApplyMedia` |
| Enrichment.DropTempIds | python/bing_260204.py:344-348 | the clean-up keeps the number of records and removes only the temporary id from each |
| Enrichment.RemoveTempIds | python/bing_260204.py:346-348 | the clean-up loop computes `DropTempIds`, and no record carries the temporary id afterwards |
| Enrichment.FindById | python/bing_all_langs_fullstartdate.py:84-87 | the inner loop finds the first record whose `fullstartdate` is the key; it raises KeyError only on a record without one before it |
| Enrichment.SsdKey | python/bing_all_langs_fullstartdate.py:81 | `Ssd.replace('_', '')`, as a value; no contract of its own; characterised by Text.ReplaceAllSplitJoin and Enrichment.SsdApplyExact |
| Enrichment.SsdStep | python/bing_all_langs_fullstartdate.py:80-87 | one turn of the `Ssd` loop, as a value; no contract of its own; characterised by Enrichment.SsdStepAt and Enrichment.SsdApplyOk |
| Enrichment.SsdAttach | python/bing_all_langs_fullstartdate.py:80 | the loop over `data_description['MediaContents']`, KeyError when the response has none; no contract of its own; characterised by Enrichment.SsdApplyExact, Enrichment.SsdApplyOk and Runs.Batch2022Ids |
| Enrichment.LastFor | python/bing_all_langs_fullstartdate.py:80-87 | the description of the last usable item naming an id; no contract of its own; characterised by Enrichment.LastForStep and Enrichment.SsdApplyExact |
| Enrichment.SsdApply | python/bing_all_langs_fullstartdate.py:80-87 | the `ssd` backfill of one media item, as a value; no contract of its own; characterised by Enrichment.SsdApplyExact, Enrichment.SsdApplyKeepsIds and Enrichment.SsdApplyOk |
| Enrichment.SsdApplyKeepsIds | python/bing_all_langs_fullstartdate.py:80-87 | the `Ssd` loop keeps the number of records and every `fullstartdate` |
| Enrichment.SsdApplyOk | python/bing_all_langs_fullstartdate.py:80-82 | on records that all carry `fullstartdate`, the loop raises exactly when some item lacks `Ssd`, `ImageContent` or `Description` |
| Enrichment.LastForStep | python/bing_all_langs_fullstartdate.py:80-87 | a later usable item naming the id replaces the earlier description |
| Enrichment.SsdApplyExact | python/bing_all_langs_fullstartdate.py:80-87 | last write wins: the first record with a `fullstartdate` ends with the description of the last item naming it, and every other record is unchanged |
| Enrichment.SsdStepAt | python/bing_all_langs_fullstartdate.py:81-87 | one usable item keeps the per-record characterisation of `SsdApplyExact` |
| Builders.Field | python/bing_260204.py:239-245 | `image[k]` yields the value exactly when the key is present, and KeyError(k) otherwise |
| Builders.DateField | python/bing_260204.py:232-236 | the `strptime`/`strftime` round trip succeeds exactly on a valid `YYYYMMDD` date and returns it unchanged; KeyError for a missing field, ValueError otherwise |
| Builders.SearchTerms | python/bing_260204.py:224-226 | the search terms contain no `&` and no `+` |
| Builders.SearchTermsOfPlainQuery | python/bing_260204.py:224-226 | a query without the search prefix and without `&` keeps its length and only has each `+` turned into a space |
| Builders.BuildDaily | python/bing.py:15-22 | a record is built exactly when `startdate` is a valid date and `url`, `urlbase`, `copyright` exist; it has exactly the four keys, with the host prefixed to both URLs |
| Builders.CheckTag | python/bing_all_langs.py:31-32 | the tuple unpacking succeeds exactly when `urlbase` contains `OHR.` and the rest splits into two pieces at `_`; IndexError when there is no `OHR.` |
| Builders.BuildAllLangs | python/bing_all_langs.py:29-41 | a record is built exactly when `urlbase` passes the tag check, `enddate` is a valid date, and `copyright` and `hsh` exist; it has exactly five keys, with `url` built from `urlbase`; KeyError first for a missing `urlbase` |
| Builders.BuildAllLangsId | python/bing_all_langs_fullstartdate.py:61-78 | a record is built exactly when the id fields exist and `enddate` is a valid date; it carries that date |
| Builders.WithTempId | python/bing_251117.py:177-187 | `_image_id` is present exactly when an id can be read off the raw `urlbase`, it holds that id, and nothing else changes |
| Builders.Build251117 | python/bing_251117.py:170-189 | as `BuildAllLangsId`, plus the temporary image id |
| Builders.Build260204 | python/bing_260204.py:222-248 | the date comes from `startdate` or `enddate` depending on the market; the record is built exactly when that date is valid and the id fields exist; an invalid date raises ValueError on its value |
| Builders.FileLang | python/bing_260204.py:171-173 | every market except the rest-of-world one keeps its own name in file names |
| Builders.FileNamesDistinct | python/bing_260204.py:127-173 | no two markets of a revision write to the same file |
| Builders.BuildAll | python/bing_260204.py:221-248 | the batch is built exactly when every image builds; it then holds the images' records in fetch order, and otherwise the error of the first failing image |
| Builders.BuildBatch | python/bing_260204.py:221-248 | the loop over `data['images']` computes exactly `BuildAll` |
| Builders.BuildAllFirstError | python/bing_260204.py:221-248 | the error of a batch is the error of its first failing image |
| Runs.DescribeKeepsDates | python/bing_260204.py:316-331 | the description step keeps the number of records and every valid `date` |
| Runs.DropTempIdsKeepsDates | python/bing_260204.py:346-348 | removing `_image_id` keeps every valid `date` |
| Runs.Built260204Dated | python/bing_260204.py:232-236 | every record of a built batch has a valid `date` |
| Runs.Batch260204 | python/bing_260204.py:221-348 | the built, described batch without temporary ids, as a value; no contract of its own; characterised by Runs.Batch260204Facts and Runs.Run260204 |
| Runs.Batch260204Facts | python/bing_260204.py:221-348 | the batch is ready exactly when every image builds; its records then have valid dates and no `_image_id` |
| Runs.YearsInvolved | python/bing_260204.py:366-369 | `years_involved` holds the year of every batch record and nothing else |
| Runs.RoutingExact | python/bing_260204.py:395 | a batch record belongs to the group of a year exactly when that is its own year |
| Runs.YearGroup | python/bing_260204.py:395 | `year_images`, as a value; no contract of its own; characterised by Runs.RoutingExact, Runs.YearGroupFacts and Runs.YearGroupNonEmpty |
| Runs.YearOf | python/bing_260204.py:395 | `get_year_from_date(img.get('date', ''))`, as a value; no contract of its own; characterised by Dates.YearFromDate, Runs.YearsInvolved and Runs.RoutingExact |
| Runs.YearGroupFacts | python/bing_260204.py:395 | a year's group keeps batch order and holds only records of that year |
| Runs.YearlyWrites | python/bing_260204.py:391-401 | the yearly merge of each year involved with a non-empty group; no contract of its own; characterised by Runs.EveryYearWritten, Runs.RouteYearly and Runs.AllRoutedValues |
| Runs.YearFile | python/bing_260204.py:398 | `read_json` of the yearly file, empty when it does not exist; no contract of its own; characterised by LegacyMerge.ReadOrEmpty and Runs.YearlyMergeOk |
| Runs.YearlyMerge | python/bing_260204.py:398-400 | the merge of one year's group into that year's file, as a value; no contract of its own; characterised by Runs.YearlyMergeOk, Runs.RouteYear and Runs.AllRoutedValues |
| Runs.EveryYearWritten | python/bing_260204.py:391-401 | the `if year_images:` guard never skips a year: the yearly writes are exactly the years involved |
| Runs.YearGroupNonEmpty | python/bing_260204.py:395-397 | a year involved has at least one batch record |
| Runs.YearlyFileHoldsItsRecords | python/bing_260204.py:391-401 | a batch record with an id is written to its year's file, which holds that id after a successful merge |
| Runs.AllRoutedOk | python/bing_260204.py:391-401 | once every year involved is routed, every yearly merge has succeeded |
| Runs.AllRoutedKeys | python/bing_260204.py:391-401 | once every year involved is routed, the files written are exactly those of the yearly merges |
| Runs.AllRoutedValues | python/bing_260204.py:391-401 | once every year involved is routed, each written file is the result of its year's merge |
| Runs.RoutingFails | python/bing_260204.py:398-400 | a failing merge of a year involved is among the writes, so not all yearly writes succeed |
| Runs.RouteYear | python/bing_260204.py:392-401 | one pass merges the year's group into its file, and a failing merge is returned as the error |
| Runs.RouteYears | python/bing_260204.py:391-401 | the loop, in any order of the years, either routes them all or returns the error of a failing year's merge; the files written so far are each the result of their year's merge, and the failing year's file is not among them |
| Runs.RouteYearly | python/bing_260204.py:391-401 | the routing succeeds exactly when every yearly merge does, and then writes exactly the yearly merges' results; each file written, also before a failure, is its year's merge result; an error is the error of a year whose file is not written |
| Runs.Run260204 | python/bing_260204.py:220-409 | one market: a build error or a failing archive merge stops the run with nothing written; otherwise it succeeds exactly when every yearly merge does and writes the merged archive, the yearly merges and the batch sorted latest first; a failing yearly merge leaves the archive and the yearly files written before it on disk, and no weekly file |
| Runs.YearGroupDated | python/bing_260204.py:395 | a dated batch gives dated year groups |
| Runs.YearlyMergeOk | python/bing_260204.py:398-400 | with a dated batch a yearly merge fails exactly when the yearly file holds a record without a valid `date` |
| Runs.Run260204FailsOnlyOnDisk | python/bing_260204.py:382-401 | a run whose batch builds fails only because the archive file or a yearly file of a year involved holds an undated record |
| Runs.RunMarket | python/bing_260204.py:156-409 | one pass of the market loop: a market whose fetch failed is skipped and writes nothing; otherwise it raises exactly when its run fails, and its files are those `DiskFits` names: nothing after a build or archive-merge error, else the merged archive and each yearly file written its year's merge; a run that gets through writes every yearly merge and the batch sorted latest first as the weekly file; one that raises at a year has not written that year's file nor the weekly file |
| Runs.RunMarkets260204 | python/bing_260204.py:156-409 | the markets in order; the script gets through every market exactly when each one's run succeeds or its fetch failed; otherwise it stops at the first failing market, having run all before it, and that market writes no weekly file; every market reached, the failing one included, has the files `DiskFits` names for it |
| Runs.RunNextMarket | python/bing_260204.py:156-409 | one more turn of the loop: the markets so far still get through exactly when this one does; a failing market writes no weekly file; the appended files are those `DiskFits` names for the market |
| Runs.DisksFitIff | python/bing_260204.py:156-409 | the loop's account of the files holds exactly when each market's files are those `DiskFits` names for it: nothing for a skipped market (failed fetch, `continue` at 180-218), else the merged archive, yearly merges and sorted weekly file of its run |
| Runs.AllMarketsOkIff | python/bing_260204.py:156-409 | the markets all get through, as the loop checks them one after another, exactly when each one does |
| Runs.AllMarketsOkPrefix | python/bing_260204.py:156-409 | one failing market means the loop does not get through the whole list |
| Runs.Batch251117Dated | python/bing_251117.py:169-189 | every record of a built batch has a valid `date` |
| Runs.Batch251117 | python/bing_251117.py:169-277 | the built batch, described by MediaContents then PreloadMediaContents, without temporary ids; no contract of its own; characterised by Runs.Batch251117Dated |
| Runs.Store251117 | python/bing_251117.py:294-317 | the archive and yearly merges and the weekly sort of one market, as values; no contract of its own; characterised by Runs.Store251117Outputs and Runs.Store251117Succeeds |
| Runs.Store251117Succeeds | python/bing_251117.py:297-311 | for a built batch the run fails exactly when one of the two files holds a record without a valid `date` |
| Runs.Store251117Outputs | python/bing_251117.py:93-317 | the yearly file is the one of tomorrow's year, and the weekly file is the whole batch, latest first |
| Runs.Batch2022Ids | python/bing_all_langs_fullstartdate.py:60-87 | every record of a built and described batch carries `fullstartdate` |
| Runs.Batch2022 | python/bing_all_langs_fullstartdate.py:60-87 | the built batch, described through the `Ssd` loop; no contract of its own; characterised by Runs.Batch2022Ids and Enrichment.SsdApplyExact |
| Runs.Store2022 | python/bing_all_langs_fullstartdate.py:107-123 | the two merges and the weekly sort of one market, as values; no contract of its own; characterised by Runs.Store2022Facts |
| Runs.Store2022Facts | python/bing_all_langs_fullstartdate.py:107-123 | both files keep their records, every batch id is in both, and the weekly file is the batch |
| Runs.StoreAllLangs | python/bing_all_langs.py:55-87 | the two date-keyed appends and the weekly sort of one market, as values; no contract of its own; characterised by Runs.StoreAllLangsFacts |
| Runs.StoreAllLangsFacts | python/bing_all_langs.py:9-87 | the yearly folder is the current year, both files keep their records, and the weekly file is the batch |
| Runs.RunDaily | python/bing.py:14-48 | the single-market run of the first script, as a value; no contract of its own; characterised by Runs.RunDailyFacts |
| Runs.RunDailyFacts | python/bing.py:14-48 | the run succeeds exactly when every image builds and every archive record has a `date`; the weekly file is the batch in fetch order and the archive keeps its records as a prefix |
| LegacyMerge.MergeLoop | python/bing_all_langs_fullstartdate.py:26-35 | `merge_images`' loop, as a value; no contract of its own; characterised by LegacyMerge.MergeLoopUnfold, LegacyMerge.LoopResultFacts and LegacyMerge.RunMergeLoop |
| LegacyMerge.InitialIds | python/bing_all_langs_fullstartdate.py:21-24 | `existing_ids`: the ids on disk, or the empty set without an id field; no contract of its own; characterised by LegacyMerge.LoopResultFacts and LegacyMerge.MergeImagesDistinctIds |
| LegacyMerge.OnIdPath | python/bing_all_langs_fullstartdate.py:28 | the test `unique_field and unique_field in image_info`; no contract of its own; characterised by LegacyMerge.MergeLoopUnfold and LegacyMerge.IdPathRecordsNoDate |
| LegacyMerge.MergeLoopUnfold | python/bing_all_langs_fullstartdate.py:26-35 | one step of the loop: a new id is appended and recorded, an id-less record of a new date is appended and its date recorded, a missing `date` raises KeyError |
| LegacyMerge.MergeLoopError | python/bing_all_langs_fullstartdate.py:33 | the loop raises exactly when a record off the id path has no `date`, and then it is KeyError(`date`) |
| LegacyMerge.MergeLoopPrefix | python/bing_all_langs_fullstartdate.py:26-35 | the loop only appends: the starting list is a prefix, followed only by batch records |
| LegacyMerge.MergeLoopKnowsIds | python/bing_all_langs_fullstartdate.py:28-31 | every batch id on the id path is known once the loop is done |
| LegacyMerge.MergeLoopKnowsDates | python/bing_all_langs_fullstartdate.py:33-35 | every batch record off the id path has a `date`, which is known once the loop is done |
| LegacyMerge.MergeLoopDistinctIds | python/bing_all_langs_fullstartdate.py:28-31 | no id is appended twice: distinct, recorded ids stay distinct |
| LegacyMerge.MergeLoopDistinctDates | python/bing_all_langs_fullstartdate.py:33-35 | without an id field no date is appended twice |
| LegacyMerge.IdPathRecordsNoDate | python/bing_all_langs_fullstartdate.py:28-35 | only the date path records dates: a new id-bearing record and a later id-less record with the same new date are both appended |
| LegacyMerge.MergeImagesError | python/bing_all_langs_fullstartdate.py:33 | `merge_images` raises KeyError(`date`) when a record off the id path has no `date` |
| LegacyMerge.LoopResultFacts | python/bing_all_langs_fullstartdate.py:20-35 | before the sort the list keeps every existing record, adds only batch records, and holds every batch id and every id-less batch date |
| LegacyMerge.MergeImagesSpec | python/bing_all_langs_fullstartdate.py:19-40 | `merge_images`, as a value; no contract of its own; characterised by LegacyMerge.MergeImages, LegacyMerge.MergeImagesContents, LegacyMerge.MergeImagesDistinctDates and LegacyMerge.MergeImagesDistinctIds |
| LegacyMerge.MergeImagesContents | python/bing_all_langs_fullstartdate.py:19-40 | `merge_images` keeps every existing record, adds only batch records, leaves every batch id and date it saw present, and sorts latest first |
| LegacyMerge.MergeImagesDistinctIds | python/bing_all_langs_fullstartdate.py:19-40 | with distinct ids on disk `merge_images` adds no id twice |
| LegacyMerge.MergeImagesDistinctDates | python/bing_all_langs_fullstartdate.py:19-40 | with `unique_field=None`, an archive with distinct dates keeps distinct dates |
| LegacyMerge.RunMergeLoop | python/bing_all_langs_fullstartdate.py:26-35 | the method's loop computes exactly the recursive loop definition |
| LegacyMerge.MergeImages | python/bing_all_langs_fullstartdate.py:19-40 | the method (sets, loop, sort) returns exactly `merge_images`' specification |
| LegacyMerge.AllDatedSnoc | python/bing_all_langs.py:64 | a dated record keeps a dated list dated |
| LegacyMerge.NewByDateStep | python/bing_all_langs.py:68-72 | one more dated batch record is appended exactly when its date is new |
| LegacyMerge.NewByDate | python/bing_all_langs.py:68-72 | the batch records whose `date` is not in the set built before the loop, in fetch order; no contract of its own; characterised by LegacyMerge.NewByDateStep, LegacyMerge.AppendNewDates and LegacyMerge.RepeatedNewDateAppendedTwice |
| LegacyMerge.AppendByDate | python/bing.py:33-39 | the date-keyed append, as a value; no contract of its own; characterised by LegacyMerge.AppendByDateFacts and LegacyMerge.BingUpdate |
| LegacyMerge.AppendByDateFacts | python/bing.py:33-39 | the append fails (KeyError) exactly on an undated record; otherwise the archive is kept as a prefix and the appended records are exactly the batch records of absent dates, in fetch order |
| LegacyMerge.RepeatedNewDateAppendedTwice | python/bing.py:34-39 | the date set is not updated in the loop: two batch records with the same new date are both appended |
| LegacyMerge.AllLangsMergeSpec | python/bing_all_langs.py:63-76 | the two appends of one market, as a value; no contract of its own; characterised by LegacyMerge.AllLangsMerge and LegacyMerge.AllLangsIndependent |
| LegacyMerge.AllLangsIndependent | python/bing_all_langs.py:63-76 | each list is merged independently (the date-only append, then sorted latest first) and keeps all its records |
| LegacyMerge.AppendNewDates | python/bing_all_langs.py:68-72 | the loop fails (KeyError) exactly on an undated batch record, and otherwise appends to each list the batch records of dates new to it |
| LegacyMerge.AllLangsMerge | python/bing_all_langs.py:63-76 | the method (date sets, loop, two sorts) returns exactly the specification |
| LegacyMerge.ReadOrEmpty | python/bing_all_langs.py:48-53 | a missing file reads as an empty list, an existing one as its contents |
| LegacyMerge.BingUpdate | python/bing.py:24-48 | the archive (empty when missing) gets the batch records of new dates appended, unsorted; the weekly file is the batch, and is not written when the archive update raises |
| YearFilters.Cleaned | python/bing_260204.py:443 | the records of one yearly file that belong to its year; no contract of its own; characterised by YearFilters.CleanedExact and YearFilters.CleanedIdempotent |
| YearFilters.PreviousYear | python/bing_260204.py:425 | `str(current_year - 1)`, as a value; no contract of its own; characterised by YearFilters.Cleanup |
| YearFilters.KeepsRecord | python/bing_260204.py:443 | the comprehension's test; no contract of its own; characterised by YearFilters.CleanedExact |
| YearFilters.CleanedExact | python/bing_260204.py:443 | the clean-up keeps, in order, exactly the records whose `date` does not start with the previous year (a record without `date` is kept) |
| YearFilters.CleanedIdempotent | python/bing_260204.py:443-451 | cleaning a cleaned file removes nothing more, so it is not rewritten |
| YearFilters.CleanupFile | python/bing_260204.py:434-451 | the cleanup of one yearly file, as a value; no contract of its own; characterised by YearFilters.Cleanup, YearFilters.CleanupRewritesAll and YearFilters.CleanupRewritesIff |
| YearFilters.CleanupRewritesIff | python/bing_260204.py:444-451 | a file is rewritten exactly when it holds a record of the previous year |
| YearFilters.IsCleanupDay | python/bing_260204.py:420-423 | the January 7 and 8 test; no contract of its own; characterised by YearFilters.Cleanup |
| YearFilters.Cleanup | python/bing_260204.py:412-455 | nothing is written outside January 7 and 8 or when the year folder is missing; only `.json` files of the folder are written, each with its cleaned contents, and exactly those that lose a record |
| YearFilters.CleanupRewritesAll | python/bing_260204.py:434-451 | for every file of the folder: rewritten exactly when it holds a record of the previous year |
| YearFilters.YearlyData | python/get_yearly_data.py:13 | the filter raises KeyError(`date`) exactly when a record has no `date` |
| YearFilters.YearlyDataExact | python/get_yearly_data.py:13 | the filter keeps, in order, exactly the records whose `date` starts with the year, and filtering again changes nothing |
| YearFilters.ScriptYearlyData | python/get_yearly_data.py:2-13 | with the script's year 2024, a file whose records all have `date` keeps, in order, exactly the records whose `date` starts with `2024` |
| Dates.DaysBeforeMonthStep | python/bing_260204.py:52 | month lengths add up: the days before month m+1 are those before m plus m's length, and the twelve months make the year |
| Dates.DateLeOrdinal | python/bing_260204.py:52 | calendar order and day-number order agree |
| Dates.OrdinalInjective | python/bing_260204.py:52 | different valid dates have different day numbers |
| Dates.NextDay | bing/Check-date-for-missing-or-duplicates.py:21 | `+ timedelta(days=1)` is the date one day number later, and overflows only after 9999-12-31 |
| Dates.PrevDay | python/bing_260204.py:52 | `- timedelta(days=1)` is the date one day number earlier, and overflows only before 0001-01-01 |
| Dates.MonthStartOrdinal | python/bing_260204.py:52 | the first of a month comes one day after the last day of the month before |
| Dates.YearStartOrdinal | python/bing_260204.py:52 | New Year's Day comes one day after December 31 of the year before |
| Dates.NextDayPrevDay | python/bing_260204.py:52 | going one day forward then one back returns the same date |
| Dates.PrevDayNextDay | python/bing_260204.py:52 | going one day back then one forward returns the same date |
| Dates.ParseDate | python/bing_260204.py:51 | `strptime(s, '%Y%m%d')` succeeds exactly on eight-digit strings naming a valid date |
| Dates.FormatDate | python/bing_260204.py:53 | `strftime('%Y%m%d')` gives eight digits |
| Dates.ParseFormat | python/bing_260204.py:51-53 | parsing a formatted date gives the date back |
| Dates.FormatParse | python/bing_260204.py:233 | formatting a parsed date string gives the string back |
| Dates.NormalizeDate | python/bing_260204.py:233-236 | parse-then-format succeeds exactly on a valid date string and returns it unchanged; ValueError otherwise |
| Dates.DateStringOrder | python/bing_260204.py:121 | on date strings, code-point order is calendar order |
| Dates.AdjustDate | python/bing_260204.py:40-56 | without the flag the string is returned; with it a valid date becomes the day before, and an unparseable string (or the first representable day) comes back unchanged |
| Dates.YearFromDate | python/bing_260204.py:142-146 | a string of at least four characters gives its four-character prefix, a shorter one the current year |
| Dates.ThisYear | python/bing_251117.py:93 | `thisyear`, as a value; no contract of its own; characterised by Dates.ThisYearIsTomorrowsYear |
| Dates.ThisYearIsTomorrowsYear | python/bing_251117.py:93 | `thisyear` (plus one on December 31) is always the year of tomorrow's date |
| Records.ValuesOf | python/bing_260204.py:73 | `{img[f] for img in images if f in img}` holds the value of every record that has the field, and nothing else |
| Records.ValuesOfAppend | python/bing_260204.py:107 | appending a record adds its value (if any) to the set |
| Records.ValuesOfPermutation | python/bing_260204.py:121 | reordering the records keeps the set of values |
| Records.SortKeyError | python/bing_260204.py:121 | no exception exactly when every record has a valid `date`; otherwise KeyError(`date`) or ValueError |
| Records.WithDate | python/bing_260204.py:121 | the records of one date are records of the list with that date |
| Records.InsertDescending | python/bing_260204.py:121 | inserting into an ordered list keeps it ordered |
| Records.InsertMultiset | python/bing_260204.py:121 | inserting adds exactly that record |
| Records.InsertWithDate | python/bing_260204.py:121 | an inserted record goes before every earlier record of its date (stability) |
| Records.SortDesc | python/bing_260204.py:121 | `sorted(..., reverse=True)` on dates, as a value; no contract of its own; characterised by Records.SortDescFacts, Records.SortDescOfDescending and Records.DistinctOnSort |
| Records.SortDescFacts | python/bing_260204.py:121 | the sort orders latest first, is a permutation, and keeps the records of each date in their order |
| Records.SortDescOfDescending | python/bing_260204.py:121 | sorting an ordered list changes nothing |
| Records.PermutationKeepsDates | python/bing_260204.py:121 | a permutation of dated records is dated |
| Records.DescendingPairwise | python/bing_260204.py:121 | adjacent order gives order between any two positions |
| Records.SortByDate | python/bing_260204.py:121 | the sort succeeds exactly when every record has a valid `date` (else the first key's error); it is a permutation, latest first by calendar date, stable for equal dates |
| Records.SortByDateOfDescending | python/bing_260204.py:121 | an ordered, dated list comes back unchanged |
| Records.SortByDateIdempotent | python/bing_260204.py:121 | sorting a sorted result again changes nothing |
| Records.DistinctOnCons | python/bing_260204.py:104-108 | a list with a record in front has distinct values exactly when the rest does and the record's value is new |
| Records.DistinctOnSnoc | python/bing_260204.py:104-108 | appending a record with a new value keeps the values distinct |
| Records.DistinctOnInsert | python/bing_260204.py:121 | inserting a record with a new value keeps the values distinct |
| Records.InsertValues | python/bing_260204.py:121 | inserting a record adds its value, if any, to the list's values |
| Records.DistinctOnSort | python/bing_260204.py:121 | sorting keeps the values of a field distinct |
| DateCheck.RangeFrom | bing/Check-date-for-missing-or-duplicates.py:18-22 | the `while` loop of `generate_date_range`, as a value; no contract of its own; characterised by DateCheck.RangeFromOk, DateCheck.RangeFromValues and DateCheck.RangeFromStep |
| DateCheck.RangeFromOk | bing/Check-date-for-missing-or-duplicates.py:19-21 | the loop fails (OverflowError) only when it has to step past 9999-12-31 |
| DateCheck.RangeFromValues | bing/Check-date-for-missing-or-duplicates.py:18-22 | the range holds one valid date string per day from start to end, in calendar order: empty when start > end, (end − start) + 1 days otherwise |
| DateCheck.RangeFromStep | bing/Check-date-for-missing-or-duplicates.py:19-21 | one turn of the loop appends the day, then the step past it may overflow |
| DateCheck.DateRange | bing/Check-date-for-missing-or-duplicates.py:15-22 | `generate_date_range`, as a value; no contract of its own; characterised by DateCheck.GenerateDateRange and DateCheck.DateRangeExact |
| DateCheck.DateRangeExact | bing/Check-date-for-missing-or-duplicates.py:15-22 | for two date strings the range is strictly ascending and holds exactly the date strings between them, both included |
| DateCheck.GenerateDateRange | bing/Check-date-for-missing-or-duplicates.py:15-22 | the `while start <= end` loop computes exactly `DateRange`, including the ValueError of an unparseable end |
| DateCheck.PresentSnoc | bing/Check-date-for-missing-or-duplicates.py:34 | one more record adds its date to the present dates |
| DateCheck.Present | bing/Check-date-for-missing-or-duplicates.py:27-34 | `present_dates` after the loop, as a value; no contract of its own; characterised by DateCheck.PresentSnoc, DateCheck.DateIssuesExact and DateCheck.PresentInRange |
| DateCheck.Duplicated | bing/Check-date-for-missing-or-duplicates.py:28-34 | `duplicate_dates` after the loop, as a value; no contract of its own; characterised by DateCheck.DuplicatedSnoc, DateCheck.DuplicatedExact and DateCheck.DuplicatedPresent |
| DateCheck.DuplicatedSnoc | bing/Check-date-for-missing-or-duplicates.py:32-33 | one more record adds its date to the duplicates exactly when it was already present |
| DateCheck.DuplicatedPresent | bing/Check-date-for-missing-or-duplicates.py:30-34 | every duplicate date is a present date |
| DateCheck.DuplicatedExact | bing/Check-date-for-missing-or-duplicates.py:30-34 | a date is a duplicate exactly when two records carry it |
| DateCheck.DateIssues | bing/Check-date-for-missing-or-duplicates.py:25-37 | `find_dates_issues`, as a value; no contract of its own; characterised by DateCheck.FindDatesIssues, DateCheck.DateIssuesExact and DateCheck.MissingCount |
| DateCheck.FindDatesIssues | bing/Check-date-for-missing-or-duplicates.py:25-37 | the method (range, loop over the records, two sorts) returns exactly `DateIssues` |
| DateCheck.DateIssuesExact | bing/Check-date-for-missing-or-duplicates.py:25-37 | the missing dates are the range's days no record carries, ascending; the duplicates are exactly the dates carried twice, ascending; no duplicate is missing |
| DateCheck.Earliest | bing/Check-date-for-missing-or-duplicates.py:42-43 | the first of the sorted dates is one of them and no later than any |
| DateCheck.DatesOf | bing/Check-date-for-missing-or-duplicates.py:42 | the dates are read one per record, in order |
| DateCheck.StartDate | bing/Check-date-for-missing-or-duplicates.py:40-43 | KeyError exactly when a record has no `date`; None exactly for an empty file; otherwise the smallest date string the file carries |
| DateCheck.CheckFile | bing/Check-date-for-missing-or-duplicates.py:47-57 | the check of one file, as a value; no contract of its own; characterised by DateCheck.CheckFileExact |
| DateCheck.CheckFileExact | bing/Check-date-for-missing-or-duplicates.py:47-57 | a file of valid dates up to the end date checks without error; a day is missing exactly when it lies between the first date and the end date and no record carries it; missing plus present days fill the range |
| DateCheck.MissingCount | bing/Check-date-for-missing-or-duplicates.py:26-36 | when every record's date lies in the range, the range's days are split between missing and present |
| DateCheck.PresentInRange | bing/Check-date-for-missing-or-duplicates.py:26-36 | when every record's date lies in the range, every present date is a day of the range |
| DateCheck.EndDateParses | bing/Check-date-for-missing-or-duplicates.py:50 | the end date is 2024-08-14 |
| Markdown.DateLabel | bing/2024/Convert-all-JSON-on-this-page-to-Markdown.py:33 | the `{date[:4]}-{date[4:6]}-{date[6:]}` label, as a value; no contract of its own; characterised by Markdown.DateLabelKeepsDate and Markdown.SlicesPartition |
| Markdown.DateLabelKeepsDate | bing/2024/Convert-all-JSON-on-this-page-to-Markdown.py:33 | removing the two dashes of `{date[:4]}-{date[4:6]}-{date[6:]}` gives the `date` back whatever its length; an eight-character date is split 4-2-2 |
| Markdown.SlicesPartition | bing/2024/Convert-all-JSON-on-this-page-to-Markdown.py:33 | the three slices of the label put together are the whole `date` |
| Markdown.Cell | bing/2024/Convert-all-JSON-on-this-page-to-Markdown.py:28-33 | a record has a cell exactly when it has `date`, `urlbase` and `copyright`; otherwise KeyError names the first missing one in that order |
| Markdown.ImageUrl | bing/2024/Convert-all-JSON-on-this-page-to-Markdown.py:33 | `{urlbase}_UHD.jpg`, as a value; no contract of its own; characterised by Markdown.Cell |
| Markdown.Cells | bing/2024/Convert-all-JSON-on-this-page-to-Markdown.py:27-33 | the cells of a file's records, as a value; no contract of its own; characterised by Markdown.CellsOk, Markdown.CellsValues, Markdown.CellsFirstError and Markdown.CellsPrefixErr |
| Markdown.CellsOk | bing/2024/Convert-all-JSON-on-this-page-to-Markdown.py:27-33 | the cells exist exactly when every record has its cell |
| Markdown.CellsValues | bing/2024/Convert-all-JSON-on-this-page-to-Markdown.py:27-33 | the cells are then the records' cells, one per record, in input order |
| Markdown.CellsFirstError | bing/2024/Convert-all-JSON-on-this-page-to-Markdown.py:27-33 | otherwise the error is that of the first record without a cell |
| Markdown.CellsPrefixErr | bing/2024/Convert-all-JSON-on-this-page-to-Markdown.py:27-33 | a failing prefix makes the whole file fail with the same error |
| Markdown.Bars | bing/2024/Convert-all-JSON-on-this-page-to-Markdown.py:46 | `'\|' * n` is n bars |
| Markdown.FullRowsAppend | bing/2024/Convert-all-JSON-on-this-page-to-Markdown.py:39-42 | a complete row of three cells is written as its cells and `\|\n` after the rows before it |
| Markdown.RowText | bing/2024/Convert-all-JSON-on-this-page-to-Markdown.py:36 | `row`: each cell after a bar, as a value; no contract of its own; characterised by Markdown.FullRowText and Markdown.LastRowsText |
| Markdown.FullRows | bing/2024/Convert-all-JSON-on-this-page-to-Markdown.py:39-42 | the complete rows the loop moves into `md_content`, as a value; no contract of its own; characterised by Markdown.FullRowsAppend and Markdown.AddCell |
| Markdown.Table | bing/2024/Convert-all-JSON-on-this-page-to-Markdown.py:36-50 | the table body after the header, as a value; no contract of its own; characterised by Markdown.TableSplit, Markdown.FinishTable and Markdown.TableHoldsCells |
| Markdown.TableSplit | bing/2024/Convert-all-JSON-on-this-page-to-Markdown.py:36-50 | the table is its first k complete rows followed by the table of the remaining cells |
| Markdown.AppendCell | bing/2024/Convert-all-JSON-on-this-page-to-Markdown.py:36-42 | one more cell either completes a row, which moves into the content, or extends the open row |
| Markdown.LoopStep | bing/2024/Convert-all-JSON-on-this-page-to-Markdown.py:36-42 | one turn of the loop: the count goes up by one, and `count % 3 == 0` exactly when a row completes |
| Markdown.AddCell | bing/2024/Convert-all-JSON-on-this-page-to-Markdown.py:36-42 | one turn of the loop keeps the invariant: the complete rows are in `md_content`, the rest of the cells in `row` |
| Markdown.FinishTable | bing/2024/Convert-all-JSON-on-this-page-to-Markdown.py:44-50 | after the loop the open row padded with `3 - count % 3` bars and the `\|\|\|\|` line complete the table, and neither appears when the count is a multiple of three |
| Markdown.Document | bing/2024/Convert-all-JSON-on-this-page-to-Markdown.py:18-50 | the Markdown text of one file, as a value; no contract of its own; characterised by Markdown.ConvertToMarkdown and Markdown.DocumentErrors |
| Markdown.ConvertToMarkdown | bing/2024/Convert-all-JSON-on-this-page-to-Markdown.py:18-50 | the method's loop builds exactly the document: the three header lines, then the table of the cells |
| Markdown.TableHoldsCells | bing/2024/Convert-all-JSON-on-this-page-to-Markdown.py:36-50 | when no cell holds a bar or a newline, the table's text is exactly the cells in record order, with one line per complete row plus two after an incomplete one (n div 3 full rows) |
| Markdown.LastRowsText | bing/2024/Convert-all-JSON-on-this-page-to-Markdown.py:45-50 | the incomplete last row and the empty-cell row hold exactly their cells and two newlines |
| Markdown.FullRowText | bing/2024/Convert-all-JSON-on-this-page-to-Markdown.py:39-42 | a complete row holds exactly its three cells and one newline |
| Markdown.FirstRowText | bing/2024/Convert-all-JSON-on-this-page-to-Markdown.py:39-42 | the table's text and newlines split after its first row |
| Markdown.DocumentErrors | bing/2024/Convert-all-JSON-on-this-page-to-Markdown.py:27-30 | a file converts exactly when every record has `date`, `urlbase` and `copyright`; otherwise the error is the first missing key of the first record lacking one |
| Markdown.MarkdownName | bing/2024/Convert-all-JSON-on-this-page-to-Markdown.py:53 | the output file name; no contract of its own; characterised by Markdown.MarkdownNameInjective |
| Markdown.MarkdownNameInjective | bing/2024/Convert-all-JSON-on-this-page-to-Markdown.py:53 | the page name is the stem with `.md`, and different `.json` names with an ordinary stem give different page names |
| Scanners.ThemeMatchShape | python/Similarity-Retrieval.py:27 | an `OHR\.([^_]+)` match is `OHR.` followed by a non-empty run without `_` |
| Scanners.ThemeMatchIn | python/Similarity-Retrieval.py:27-28 | the whole match is a substring of `urlbase` |
| Scanners.ThemeSearchFacts | python/Similarity-Retrieval.py:27-28 | a found theme is `OHR.` and a non-empty `_`-free run, taken from `urlbase` |
| Scanners.ExtractImageTheme | python/Similarity-Retrieval.py:25-28 | a result exactly when `OHR\.[^_]+` matches (never without `OHR.`), and then the whole leftmost match, `OHR.` followed by a non-empty run without `_`, found in `urlbase` |
| Similarity.ThemesStep | python/Similarity-Retrieval.py:57-60 | one turn of the loop adds the record's theme if it has one, raises KeyError(`urlbase`) on a record without `urlbase`, and an earlier error stays |
| Similarity.ThemesErrors | python/Similarity-Retrieval.py:57-58 | collecting the themes fails exactly when a record has no `urlbase`, and then with KeyError |
| Similarity.ThemesHaveAll | python/Similarity-Retrieval.py:57-60 | the theme set holds the theme of every record (records without a theme contribute nothing) |
| Similarity.ThemesHaveOnly | python/Similarity-Retrieval.py:57-60 | every theme in the set is the theme of some record |
| Similarity.ThemesPrefixErr | python/Similarity-Retrieval.py:57-58 | an error in a prefix is the error of the whole loop |
| Similarity.CollectThemes | python/Similarity-Retrieval.py:56-60 | the loop that fills `locale_themes` computes exactly `ThemesWith` |
| Similarity.ThemesWith | python/Similarity-Retrieval.py:56-60 | the theme loop for any theme extractor, as a value; no contract of its own; characterised by Similarity.ThemesErrors, Similarity.ThemesHaveAll and Similarity.ThemesHaveOnly |
| Similarity.Themes | python/Similarity-Retrieval.py:38-42 | the theme set of one archive, as a value; no contract of its own; characterised by Similarity.ThemesOfArchive and Similarity.AnalyzeExact |
| Similarity.ThemesOfArchive | python/Similarity-Retrieval.py:38-42 | the theme loop with `extract_image_theme` computes exactly the archive's theme set |
| Similarity.Compare | python/Similarity-Retrieval.py:63-76 | the comparison of one pair, as a value; no contract of its own; characterised by Similarity.CompareFacts and Similarity.CategoryExact |
| Similarity.CompareFacts | python/Similarity-Retrieval.py:63-76 | `missing` = ROW − market and `extra` = market − ROW are disjoint; every ROW theme is shared or missing, every market theme shared or extra; `total` is shared plus extra; both empty exactly when the sets are equal |
| Similarity.MatchRate | python/Similarity-Retrieval.py:69 | `match_rate`, as an exact rational; no contract of its own; characterised by Similarity.MatchRateBounds and Similarity.CategoryExact |
| Similarity.MatchRateBounds | python/Similarity-Retrieval.py:69 | the match rate lies between 0 and 100 |
| Similarity.CategoryOf | python/Similarity-Retrieval.py:106-112 | the category of one comparison, as a value; no contract of its own; characterised by Similarity.CategoryExact |
| Similarity.CategoryExact | python/Similarity-Retrieval.py:106-112 | identical exactly when ROW has themes and the market lacks none; mostly the same when it has at least four fifths but not all; an empty ROW makes every market independent |
| Similarity.RateHundred | python/Similarity-Retrieval.py:107 | a rate of 100 means all ROW themes are shared |
| Similarity.RateEighty | python/Similarity-Retrieval.py:109 | a rate of at least 80 means at least four fifths are shared |
| Similarity.Analyze | python/Similarity-Retrieval.py:30-76 | the analysis of one file, as a value; no contract of its own; characterised by Similarity.AnalyzeExact |
| Similarity.AnalyzeExact | python/Similarity-Retrieval.py:30-76 | without ROW the script stops with KeyError; otherwise it stops exactly when some archive lacks `urlbase`, and else `results` has every market except ROW, each compared with ROW |
| Similarity.ScriptFilesAnalyze | python/Similarity-Retrieval.py:9-37 | the thirteen files the script reads include ROW, so it can stop only with KeyError on `urlbase`, and otherwise compares exactly the other locales of that list with ROW |
| Similarity.InCategory | python/Similarity-Retrieval.py:101-112 | one category's list of markets, as a value; no contract of its own; characterised by Similarity.InCategoryExact |
| Similarity.InCategoryExact | python/Similarity-Retrieval.py:101-112 | each category list is in ascending locale order and holds exactly the markets of that category, so every market is in exactly one list |
| Text.DigitChar | python/bing_260204.py:53 | a digit value is written as the digit character of that value |
| Text.PadDigits | python/bing_260204.py:53 | zero padding gives exactly `width` digits |
| Text.PadDigitsValue | python/bing_260204.py:53 | a number below 10^width is read back from its zero-padded digits |
| Text.DigitsPadded | python/bing_260204.py:51 | padding the value of a digit string to its length gives the string back |
| Text.DigitsInjective | python/bing_260204.py:51 | two digit strings of one length with the same value are equal |
| Text.NatToString | python/bing_260204.py:146 | `str(n)` is a non-empty digit string without a leading zero |
| Text.NatToStringValue | python/bing_260204.py:146 | `str(n)` reads back as n |
| Text.LexLeAntisym | bing/Check-date-for-missing-or-duplicates.py:42 | string order is antisymmetric |
| Text.LexLeTrans | bing/Check-date-for-missing-or-duplicates.py:42 | string order is transitive |
| Text.LexLeTotal | bing/Check-date-for-missing-or-duplicates.py:42 | any two strings are ordered |
| Text.LexLeDigits | bing/Check-date-for-missing-or-duplicates.py:42 | on digit strings of one length, string order is numeric order |
| Text.ReplaceAll | python/bing_260204.py:224 | `str.replace` leaves a string without the pattern unchanged |
| Text.ReplaceAllAt | python/bing_260204.py:224 | `str.replace` keeps the text before the leftmost occurrence, puts `repl` in its place and replaces the rest in turn |
| Text.ReplaceAllSplitJoin | python/bing_260204.py:224 | `s.replace(pat, repl)` equals `repl.join(s.split(pat))`, so every occurrence is replaced and nothing else changes |
| Text.ReplaceCharPointwise | python/bing_260204.py:226 | replacing one character by another changes exactly its occurrences |
| Text.Split | python/bing_260204.py:225 | `str.split` gives at least one part, and no part contains the separator |
| Text.JoinSplit | python/bing_260204.py:225 | joining the parts with the separator gives the string back |
| Text.PySlice | bing/2024/Convert-all-JSON-on-this-page-to-Markdown.py:33 | a Python slice within bounds is the sub-sequence, and an empty or out-of-range one is empty |
| Text.IndexOf | python/bing_260204.py:225 | the first occurrence of the separator at or after a position, and none before it, as `split` looks for it |
| Text.SortedStrings | bing/Check-date-for-missing-or-duplicates.py:36-37 | `sorted(set)` lists exactly the set's members, each once, in strictly ascending order |
| Text.PrependLeast | bing/Check-date-for-missing-or-duplicates.py:36-37 | the least member in front of the sorted rest is the sorted set |
| Text.AscendingUnique | bing/Check-date-for-missing-or-duplicates.py:36-37 | two strictly ascending lists with the same members are equal |
| Archive.RegionKeys | assets/archive.js:308 | the keys of a year's `regions`, one per entry, in entry order |
| Archive.Lookup | assets/archive.js:260 | a region has a count exactly when it is one of the year's keys, and the count is that entry's |
| Archive.EffectiveRegion | assets/archive.js:303-318 | the chosen region when the year has it, else `bing_en-US` when it has that, else the first region; `null` exactly when the year or its `regions` is missing, or neither region is there and no usable first region exists |
| Archive.YearRegionCount | assets/archive.js:255-261 | 0 without the year's regions; a positive count is the index's count for a usable effective region; a present, non-empty chosen region gets its own count |
| Archive.MaxExists | assets/archive.js:251 | every non-empty set of years has a largest one, so the descending sort has a first element |
| Archive.SortedYears | assets/archive.js:251 | `yearOrder` lists exactly the index's years, each once, strictly newest first |
| Archive.PrependMax | assets/archive.js:251 | the largest year in front of the sorted rest is the sorted whole |
| Archive.NewestFirstDistinct | assets/archive.js:251 | a newest-first year list never repeats a year |
| Archive.StartStep | assets/archive.js:276-278 | each year's start is the previous start plus the previous year's count |
| Archive.SumCounts | assets/archive.js:264-269 | the records the years of an order hold for the region (`computeTotalItemCount`'s sum); no contract of its own; characterised by Archive.ArchivePage.ComputeTotalItemCount and Archive.StartEnd |
| Archive.StartOf | assets/archive.js:274-278 | the running `offset` when the loop reaches a year; no contract of its own; characterised by Archive.StartStep, Archive.StartMonotone and Archive.OffsetsExact |
| Archive.StartMonotone | assets/archive.js:274-278 | starts never decrease along `yearOrder` |
| Archive.OffsetsOf | assets/archive.js:271-279 | the offsets `computeYearOffsets` leaves, as a value; no contract of its own; characterised by Archive.OffsetsExact and Archive.OffsetsKeys |
| Archive.OffsetsKeys | assets/archive.js:273-279 | `yearOffsets` has a span for exactly the years of `yearOrder` |
| Archive.OffsetsExact | assets/archive.js:271-279 | over distinct years, each year's span starts after all records of the years before it and holds the year's count |
| Archive.SpansPartition | assets/archive.js:271-279 | the spans tile the virtual list: each position below the total lies in exactly one year's span |
| Archive.SpanBefore | assets/archive.js:271-279 | a position in an earlier year's span is not in a later one's |
| Archive.SpanExists | assets/archive.js:271-279 | a position between a year's start and the total lies in the span of that year or a later one |
| Archive.StartEnd | assets/archive.js:264-280 | the running offset after the last year equals `totalItemCount` |
| Archive.YearsForPage | assets/archive.js:284-297 | `getYearsForPage`, as a value; no contract of its own; characterised by Archive.YearsForPageExact and Archive.YearsForPageCover |
| Archive.OverlapsPage | assets/archive.js:290-293 | the page-overlap test of `getYearsForPage`; no contract of its own; characterised by Archive.YearsForPageExact |
| Archive.ArchivePage.GetYearsForPage | assets/archive.js:284-297 | `getYearsForPage` on the page's `yearOrder` and `yearOffsets`; no contract of its own; characterised by Archive.YearsForPageExact and Archive.YearsForPageCover |
| Archive.YearsForPageExact | assets/archive.js:284-297 | after `computeYearOffsets`, every year has a span; the years of page p are exactly those whose span meets positions `[(p-1)*31, p*31)`, listed in `yearOrder` order without repeats |
| Archive.YearsForPageCover | assets/archive.js:284-297 | every position page p shows lies in a year `getYearsForPage(p)` returns, so loading those years suffices to fill the page |
| Archive.KeySetIdentity | assets/archive.js:287-296 | the `Set` of years holds exactly the years added to it |
| Archive.DeleteParam | assets/archive.js:450-451 | `params.delete(k)`, as a value; no contract of its own; characterised by Archive.DeleteParamGet |
| Archive.GetParam | assets/archive.js:458 | `params.get(k)`: the first value of the key; no contract of its own; characterised by Archive.DeleteParamGet, Archive.SetParamGet and Archive.ApplyUpdatesGet |
| Archive.DeleteParamGet | assets/archive.js:450-451 | after `params.delete(k)`, `k` is absent and every other key keeps its value |
| Archive.SetParam | assets/archive.js:452-454 | `params.set(k, v)`, as a value; no contract of its own; characterised by Archive.SetParamGet |
| Archive.SetParamGet | assets/archive.js:452-454 | after `params.set(k, v)`, `k` reads as `v` and every other key keeps its value |
| Archive.LeadingDigits | assets/archive.js:458 | the digits `parseInt` reads form a digit-only prefix of the text |
| Archive.ApplyUpdates | assets/archive.js:448-456 | the update loop, as a value; no contract of its own; characterised by Archive.ApplyUpdatesGet |
| Archive.ApplyUpdate | assets/archive.js:449-455 | one turn of the update loop, as a value; no contract of its own; characterised by Archive.ApplyUpdatesGet |
| Archive.ApplyUpdatesGet | assets/archive.js:448-456 | after the update loop a key's value is decided by its last update: absent for `null` and for `date` set to `'all'`, the given text otherwise; an unnamed key keeps its value |
| Archive.QueryAfter | assets/archive.js:445-459 | the query string after `updateQuery`, as a value; no contract of its own; characterised by Archive.QueryAfterExact and Archive.UpdateQuery |
| Archive.QueryAfterExact | assets/archive.js:445-459 | `page` is never left with a value that parses as 1, and every other key has the value its last update gave it |
| Archive.UpdateQuery | assets/archive.js:445-459 | the loop over the updates and the `page` check leave the query `QueryAfter` describes |
| Archive.LoadedData | assets/archive.js:383-388 | the records of the loaded years, as a value; no contract of its own; characterised by Archive.LoadedDataMembers and Archive.RebuiltExact |
| Archive.IsLoaded | assets/archive.js:299-301 | `isYearLoaded`, as a value; no contract of its own; characterised by Archive.LoadedDataMembers, Archive.MonthOptionsExact and Archive.ArchivePage.LoadYearData |
| Archive.LoadedDataMembers | assets/archive.js:383-388 | a record is in the merged list exactly when some year of `yearOrder` is loaded for the region and holds it |
| Archive.RebuiltExact | assets/archive.js:382-391 | `allData` is sorted by date, latest first, is a permutation of the loaded lists, keeps records of one date in merged order, and holds exactly the loaded years' records |
| Archive.Reverse | assets/archive.js:545 | `reverse()` puts element i at position n-1-i |
| Archive.ReverseAscending | assets/archive.js:545 | reversing an ascending list gives a strictly descending list with the same members |
| Archive.MonthOptions | assets/archive.js:524-545 | the month options, as a value; no contract of its own; characterised by Archive.MonthOptionsExact, Archive.MonthOptionsMembers and Archive.MonthOptionsDescending |
| Archive.RecordMonths | assets/archive.js:527-529 | the months of the loaded records, as a value; no contract of its own; characterised by Archive.MonthOptionsExact and Archive.MonthOptionsMembers |
| Archive.IndexMonths | assets/archive.js:532-543 | the twelve months of every unloaded year with a usable region, as a value; no contract of its own; characterised by Archive.MonthOptionsExact and Archive.MonthOptionsMembers |
| Archive.MonthOptionsMembers | assets/archive.js:524-545 | a month is offered exactly when a loaded record gives it or an unloaded year with a usable region generates it |
| Archive.ArchivePage.Months | assets/archive.js:519-545 | the months `populateMonthDropdown` offers from the page's state; no contract of its own; characterised by Archive.MonthOptionsExact, Archive.MonthOptionsMembers and Archive.MonthOptionsDescending |
| Archive.MonthOptionsExact | assets/archive.js:526-543 | the month of every loaded record with a date of six or more characters is offered, all twelve months of every unloaded year with a usable region are offered, and nothing else is |
| Archive.MonthOptionsDescending | assets/archive.js:545 | the month options are strictly descending, newest month first, so none repeats |
| Archive.SetCount | assets/archive.js:354 | writing one region's count, as a value; no contract of its own; characterised by Archive.SetCountLookup and Archive.SetCountKeys |
| Archive.SetCountLookup | assets/archive.js:354 | writing a region's count makes it that region's count and changes no other region's |
| Archive.SetCountKeys | assets/archive.js:354 | writing a count keeps the regions' order; a new region goes last |
| Archive.WithCount | assets/archive.js:354 | the index after a year's count is written back, as a value; no contract of its own; characterised by Archive.LoadedCountWrittenBack |
| Archive.LoadedCountWrittenBack | assets/archive.js:349-354 | once a year is loaded for a non-empty region, that region becomes the year's effective region with the loaded length as its count, and no other year's count changes |
| Archive.ArchivePage.constructor | assets/archive.js:27-40 | the page starts with no index, no years, no offsets, an empty cache, no data and the chosen region |
| Archive.ArchivePage.LoadIndex | assets/archive.js:243-252 | the index is stored and `yearOrder` becomes its years newest first; nothing else changes |
| Archive.ArchivePage.ComputeTotalItemCount | assets/archive.js:264-269 | `totalItemCount` becomes the sum of the years' counts for the current region; nothing else changes |
| Archive.ArchivePage.ComputeYearOffsets | assets/archive.js:271-281 | `yearOffsets` becomes the running-offset spans and `totalItemCount` their total; nothing else changes |
| Archive.ArchivePage.LoadYearData | assets/archive.js:320-365 | without a usable region nothing changes and `[]` is returned; a cached list is returned unchanged; otherwise the fetched list without repeated dates (or `[]` on failure) is returned and cached under the requested region, and on success its length becomes that region's count |
| Archive.ArchivePage.RebuildAllData | assets/archive.js:382-391 | `allData` becomes the loaded lists of the current region in year order, sorted by date, latest first; nothing else changes |
| Lists.Filter | assets/script.js:366 | `Array.prototype.filter` keeps no more elements than it is given, and only ones passing the test |
| Lists.FilterMembers | assets/script.js:366 | an element is kept exactly when it is in the list and passes the test |
| Lists.FilterSubsequence | assets/script.js:366 | the kept elements stay in their original order |
| Lists.FilterConcat | assets/script.js:366 | filtering a concatenation filters each part |
| Lists.FilterAllPass | assets/script.js:366 | a list whose elements all pass is kept whole |
| Lists.FilterIdempotent | assets/script.js:366 | filtering twice with one test is filtering once |
| Lists.FilterShorter | assets/script.js:366 | the filter drops something exactly when some element fails the test |
| Lists.FilterAscending | bing/Check-date-for-missing-or-duplicates.py:36 | filtering a strictly ascending list of strings keeps it strictly ascending, so the reported dates stay sorted |
| Lists.DedupFrom | assets/script.js:329-334 | the `seen`-set filter keeps no more elements than given, none whose key was already seen |
| Lists.KeySet | assets/script.js:329-334 | the keys a list carries: every element's key, and nothing else |
| Lists.DedupFromFacts | assets/script.js:329-334 | the `seen`-set filter keeps an order-preserving subsequence with pairwise different keys, covering every key not seen before |
| Lists.KeySetCons | assets/script.js:329-334 | the keys of a list are its head's key and the keys of its tail |
| Lists.DedupKeepsFirst | assets/script.js:329-334 | the first element of each unseen key is kept |
| Lists.DedupOnlyFirsts | assets/script.js:329-334 | every kept element is the first of its key in the input, and its key was not seen before |
| Lists.DedupOfDistinct | assets/script.js:329-334 | a list whose keys are distinct and unseen passes through unchanged |
| Lists.DedupIdempotent | assets/script.js:329-334 | deduplicating twice is deduplicating once |
| Scanners.OhrGroupShape | assets/script.js:383 | a match of `OHR\.([A-Za-z0-9]+)` (or of `OHR\.([a-zA-Z0-9_-]+)`) at a position is a non-empty run of the class right after `OHR.` there |
| Scanners.OhrGroupFacts | assets/script.js:383 | without `OHR.` there is no match; a match is a non-empty run of the class that follows `OHR.` in the text |
| Scanners.UrlKeyword | assets/script.js:380-386 | a keyword exactly when `OHR\.([A-Za-z0-9]+)` matches (never without `OHR.`), and then the group of the leftmost match: a non-empty alphanumeric run following `OHR.` in the URL |
| Scanners.NameToken | assets/script.js:609-611 | a token exactly when `OHR\.([a-zA-Z0-9_-]+)` matches (never without `OHR.`), and then the group of the leftmost match: a non-empty run of `[a-zA-Z0-9_-]` following `OHR.` in `urlbase` |
| Scanners.StripTrailingDigits | assets/script.js:613 | `replace(/\d+$/, '')` removes exactly the trailing digits: a prefix that does not end in a digit, followed in the input only by digits |
| Gallery.Either | assets/script.js:372 | `item.a \|\| item.b \|\| ''` is empty exactly when neither field is truthy |
| Gallery.Get | assets/script.js:313 | `item.k`, `undefined` as None; no contract of its own; characterised by Gallery.ResUrlExact |
| Gallery.Field | assets/script.js:372-374 | `item.k \|\| ''`, as a value; no contract of its own; characterised by Gallery.SearchFilterExact |
| Gallery.DedupByDate | assets/script.js:329-334 | `loadData`'s filter with a `seen` set of dates, as a value; no contract of its own; characterised by Gallery.DedupByDateExact |
| Gallery.DateField | assets/script.js:331 | the key of the `seen` filter, `item.date` with `undefined` included; no contract of its own; characterised by Gallery.DedupByDateExact |
| Gallery.DedupByDateExact | assets/script.js:329-334 | the loaded list is an order-preserving subsequence with pairwise different dates, keeps exactly the first record of each date, loses no date, and is already deduplicated |
| Gallery.MonthFilter | assets/script.js:365-367 | the month filter, as a value; no contract of its own; characterised by Gallery.MonthFilterExact |
| Gallery.MonthFilterExact | assets/script.js:365-367 | without a month (or with `all`) everything is kept; with one, the filter throws exactly when a record has no `date`, and otherwise keeps, in order, exactly the records whose date starts with the month |
| Gallery.IsSubsequenceRefl | assets/script.js:364 | the unfiltered list is a subsequence of itself |
| Gallery.SearchFilter | assets/script.js:369-393 | the search filter, as a value; no contract of its own; characterised by Gallery.SearchFilterExact |
| Gallery.Matches | assets/script.js:372-392 | the search test of one record against a lower-cased query; no contract of its own; characterised by Gallery.SearchFilterExact |
| Gallery.UrlKeywordOf | assets/script.js:379-387 | the lower-cased `OHR.` keyword of `item.urlbase \|\| item.url`, or empty; no contract of its own; characterised by Scanners.UrlKeyword and Gallery.SearchFilterExact |
| Gallery.SearchFilterExact | assets/script.js:369-393 | an empty query keeps everything; a non-empty one keeps, in order, exactly the records whose title, description, copyright or URL keyword contains the lower-cased query; the query's case does not matter |
| Gallery.ToLowerIdempotent | assets/script.js:370 | lower-casing twice is lower-casing once |
| Gallery.SliceIndex | assets/script.js:407 | a `slice` index lies within the list, and an index already inside it is kept |
| Gallery.TotalPages | assets/script.js:531 | the page count; no contract of its own; characterised by Gallery.TotalPagesCeiling |
| Gallery.TotalPagesCeiling | assets/script.js:531 | `Math.ceil(n / 31)` is the least number of 31-record pages that hold n records |
| Gallery.PageSlice | assets/script.js:405-407 | the records shown on one page; no contract of its own; characterised by Gallery.PageSliceExact |
| Gallery.JsSlice | assets/script.js:407 | JavaScript's `slice(start, end)`, as a value; no contract of its own; characterised by Gallery.SliceIndex and Gallery.PageSliceExact |
| Gallery.GalleryPage.PageItems | assets/script.js:405-407 | `renderGallery`'s `pageItems`: the current page's slice of `filteredData`; no contract of its own; characterised by Gallery.PageSliceExact |
| Gallery.PageSliceExact | assets/script.js:405-407 | record i is shown on page i / 31 + 1 at place i % 31; every page before the last is full; page 0 and pages after the last are empty |
| Gallery.Clamp | assets/script.js:407 | a slice bound is clamped to the length and kept when already inside |
| Gallery.Buttons | assets/script.js:564 | the loop adds one button per page from `start` to `end`, in order, and none when `start > end` |
| Gallery.WindowStart | assets/script.js:558-562 | the first inner page button, as a value; no contract of its own; characterised by Gallery.WindowBounds and Gallery.BarIndex |
| Gallery.WindowEnd | assets/script.js:558-562 | the last inner page button, as a value; no contract of its own; characterised by Gallery.WindowBounds and Gallery.BarIndex |
| Gallery.WindowBounds | assets/script.js:558-562 | the window lies within [2, tp - 1], is empty only for two pages, and holds the current page when that is an inner page |
| Gallery.BarIndex | assets/script.js:555-567 | the bar's length and the entry at each place |
| Gallery.Pagination | assets/script.js:555-567 | the page buttons and ellipses, as a value; no contract of its own; characterised by Gallery.PaginationShape, Gallery.PaginationShowsCurrent, Gallery.PaginationDots and Gallery.PaginationUnmarkedGaps |
| Gallery.PaginationShape | assets/script.js:529-567 | for two or more pages the bar runs from button 1 to button tp, its pages strictly increase, and the buttons between are inner pages |
| Gallery.BarEnds | assets/script.js:555-567 | a bar with an inner window starts with button 1 and ends with the last page's button |
| Gallery.BarIncreasing | assets/script.js:555-567 | a bar with an inner window has strictly increasing pages, so no page is shown twice |
| Gallery.PaginationShowsCurrent | assets/script.js:555-567 | the current page, when it is a page, always has a button |
| Gallery.PaginationDots | assets/script.js:555-567 | dots can only follow button 1 or precede the last button; with three or more pages they follow button 1 exactly when the current page is past 4 and precede the last exactly when it is before tp - 3 |
| Gallery.PaginationUnmarkedGaps | assets/script.js:555-567 | the bar as written: 7 pages on page 4 show 1 3 4 5 7 with no dots; 6 pages on page 5 put dots between 1 and 2 |
| Gallery.MarkedPagination | assets/script.js:555-567 | the bar with dots placed where pages are skipped, as a value; no contract of its own; characterised by Gallery.MarkedPaginationGaps and Gallery.MarkedPaginationShowsCurrent |
| Gallery.MarkedPaginationGaps | assets/script.js:555-567 | the corrected bar runs from button 1 to the last page and puts dots exactly between buttons whose pages are not consecutive |
| Gallery.MarkedPaginationShowsCurrent | assets/script.js:555-567 | the corrected bar still shows the current page |
| Gallery.BarShowsPage | assets/script.js:555-567 | a bar shows both end pages and every page of its window |
| Gallery.BarNeighbours | assets/script.js:555-567 | with dots placed by the window, neighbouring buttons show consecutive pages |
| Gallery.BarDots | assets/script.js:555-567 | with dots placed by the window, every dots marker sits between two buttons with pages skipped between them |
| Gallery.RenderPagination | assets/script.js:529-567 | the drawn entries are the bar for `Math.ceil(n / 31)` pages on the current page, nothing for a single page |
| Gallery.AddButtons | assets/script.js:564 | the loop appends exactly the buttons from `start` to `end` |
| Gallery.ResUrl | assets/script.js:300-316 | `getResUrl`, as a value; no contract of its own; characterised by Gallery.ResUrlExact |
| Gallery.ResolutionSuffix | assets/script.js:314 | `RESOLUTION_MAP[type] \|\| RESOLUTION_MAP.default`, as a value; no contract of its own; characterised by Gallery.ResUrlExact |
| Gallery.ResUrlExact | assets/script.js:300-316 | without `urlbase` the record's `url` is returned; with it, the URL is `urlbase` followed by the suffix the map gives the kind, the full-HD one for an unknown kind |
| Gallery.DownloadFilename | assets/script.js:606-630 | the download file name, as a value; no contract of its own; characterised by Gallery.DownloadFilenameExact |
| Gallery.PictureName | assets/script.js:607-614 | the picture name of a download, as a value; no contract of its own; characterised by Gallery.DownloadFilenameExact |
| Gallery.DownloadSuffix | assets/script.js:620-627 | `suffixMap[type] \|\| 'image'`, as a value; no contract of its own; characterised by Gallery.DownloadFilenameExact |
| Gallery.DownloadFilenameExact | assets/script.js:606-630 | the name ends in `.jpg` after one of the six suffixes (`image` for an unknown kind); the picture name is `BingWallpaper` without an `OHR.` token, else the token without its trailing digits, which uses only `[a-zA-Z0-9_-]` and does not end in a digit |
| Gallery.GalleryPage.constructor | assets/script.js:33-37 | the page starts with no data, no filtered data and page 1 |
| Gallery.GalleryPage.LoadData | assets/script.js:318-334 | `allData` becomes the fetched list with one record per date; the filtered list and page are unchanged |
| Gallery.GalleryPage.FilterData | assets/script.js:363-400 | a missing `date` under a month filter raises and changes nothing; otherwise `filteredData` becomes the month-filtered, then search-filtered list, and the page becomes `page \|\| 1` |

## Left out

- `RunMarkets260204` does not chain the clean-up of the previous year's data (`YearFilters.Cleanup`, called at python/bing_260204.py:458) or the index step (line 499) after the loop; the README prose above states that neither runs once a market raises. python/bing_251117.py, python/bing_all_langs_fullstartdate.py and python/bing_all_langs.py stop at their first raising market in the same way, but only python/bing_260204.py's market loop is written out (`RunMarkets260204`).
- HTTP fetching, the retry loop with `time.sleep`, and the browser's `fetch`. The fetched data is a parameter: `None` when fetching or parsing fails.
- File reading and writing, `os.makedirs` and `os.listdir`. Files come in as parameters, with a missing file read as `None`, and a run returns the contents it writes, including, for `Run260204` and `BingUpdate`, the files written before an error.
- `generate_data_index` (python/bing_260204.py:461-496) is filesystem scanning and is not part of this model. The archive page takes the index it produces as a value.
- `datetime.now()`: today's date and the current year are parameters. The January 7 and 8 trigger of the cleanup is a test on that date.
- `strptime` leniency: only eight-digit `YYYYMMDD` strings denoting Gregorian dates parse. Forms Python would also accept (fewer digits, surrounding text) are treated as a `ValueError`.
- `urllib.parse.unquote` is a function parameter of the builders and is not modelled.
- Regular expressions in general: only the scripts' few patterns are modelled, as scanners.
- Similarity.RateHundred: `match_rate` is computed on exact rationals, not floating point. Rounding of the percentage, and of the 100 and 80 boundaries, is not modelled.
- Similarity.RateEighty: the same as Similarity.RateHundred.
- The DOM, CSS, IntersectionObserver, the lightbox, `handleDownload` with Blobs and object URLs, event listeners and debounce timers in both browser scripts.
- `renderGallery` beyond the slice of records it shows.
- The archive page's asynchronous orchestration: `loadAllYearsProgressively`, the `loadingYears` re-entrancy guard, `init`, `applyStateFromURL` and the `filterData` that loads years before filtering. These are concurrency and I/O sequencing. Each step they take is modelled by the page's methods.
- The archive page's copies of `filterData`'s filters, `renderPagination`, `getResUrl` and `getDownloadFilename`. They are modelled once, in `gallery.dfy`, from the gallery page's copies.
- Logging, `print` statements, and the `update_count` and `add_count` counters, which only feed messages.
- `toLowerCase` and `localeCompare` are modelled on ASCII text in code-point order. Unicode case mapping and locale collation are not modelled.
- Archive.ArchivePage.RebuildAllData: records without a `date` are sorted as if their date were the empty string. In the script, `localeCompare` would throw on such a record, or compare against the text `undefined`.
- Archive.LeadingDigits: `parseInt`'s handling of leading white space, signs and `0x` prefixes is not modelled. Only a run of leading decimal digits is read.
- URL serialisation (`params.toString()`) and `history.replaceState` are not modelled. The query is a list of key and value pairs.
- Gallery.ResUrlExact: kinds that name a property of `Object.prototype` (such as `toString`) are treated as unknown kinds.
- Gallery.DownloadFilenameExact: likewise, a kind that names a property of `Object.prototype` gets the suffix `image` here, while `suffixMap[type] || 'image'` would use that property; every call site passes a literal kind.
- Archive.SortedYears: year keys are modelled as natural numbers, so keys that are not canonical decimal numerals (such as `"02024"`) are out of scope.
- Similarity.CollectThemes takes the theme extractor as a parameter. The script's own run is that loop with the `OHR.` scanner.
- JSON values other than strings (numbers, nested objects) are not modelled. Every record field is a string, and the API image is modelled as a string map.

## Findings

| source | as written | input that shows it | evidently intended | confidence | as-written member | corrected member |
|---|---|---|---|---|---|---|
| assets/script.js:555-567 | `renderPagination` decides the dots only from the current page (`currentPage > 4`, `currentPage < totalPages - 3`). After the window is moved near either end, the dots no longer match the pages that are skipped. | 7 pages on page 4 draws 1 3 4 5 7: pages 2 and 6 are skipped with no dots. 6 pages on page 5 draws 1 … 2 3 4 5 6: there are dots where no page is skipped. | Dots appear exactly where pages are skipped between two buttons. | not executed | Gallery.PaginationUnmarkedGaps | Gallery.MarkedPaginationGaps |
