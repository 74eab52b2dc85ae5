/**
 * Attaching descriptions from the description API to the freshly built
 * records.
 *
 * - `process_media_contents` (python/bing_251117.py, python/bing_260204.py):
 *   each usable media item is matched by the image id taken from its image
 *   URL; the first record with that `_image_id` gets the description (and,
 *   in the later revision, the map coordinates) only when it has no
 *   description yet. MediaContents is processed before PreloadMediaContents.
 * - the `Ssd` loop of python/bing_all_langs_fullstartdate.py: the first
 *   record whose `fullstartdate` equals `Ssd` without underscores gets the
 *   description, overwriting an earlier one.
 */
module Enrichment {
  import opened Wrappers
  import opened Text
  import opened Records
  import opened Scanners

  /** The temporary key under which a record carries its image id while descriptions are matched. */
  const TempIdKey: string := "_image_id"

  /** `media_item['ImageContent']`: the fields the scripts read, each possibly absent. */
  datatype ImageContent = ImageContent(
    description: Option<string>,  // ['Description']
    imageUrl: Option<string>,     // ['Image']['Url'], absent when either key is
    mapLinkUrl: Option<string>)   // ['MapLink']['Url'], absent when either key is

  /** One element of `MediaContents` or `PreloadMediaContents`. */
  datatype MediaItem = MediaItem(ssd: Option<string>, content: Option<ImageContent>)

  /** What a usable media item contributes. */
  datatype Attachment = Attachment(id: string, description: string, maplink: Option<string>)

  // ----------------------------------------------- process_media_contents

  /**
   * The checks at the top of the loop body: an item without description,
   * image URL or extractable image id is skipped; otherwise its id, its
   * description and the coordinates of its map link, if any.
   */
  function ItemAttachment(item: MediaItem): (a: Option<Attachment>)
    ensures a.Some? ==> item.content.Some? && item.content.value.description == Some(a.value.description)
    ensures a.Some? ==> item.content.value.imageUrl.Some?
                        && ImageIdFromUrl(item.content.value.imageUrl.value) == Some(a.value.id)
    ensures (item.content.Some? && item.content.value.description.Some? && item.content.value.imageUrl.Some?
             && ImageIdFromUrl(item.content.value.imageUrl.value).Some?) ==> a.Some?
    ensures a.Some? ==> a.value.maplink == (if item.content.value.mapLinkUrl.Some?
                                            then ExtractMapLinkCoordinates(item.content.value.mapLinkUrl.value)
                                            else None)
  {
    match item.content
    case None => None
    case Some(c) =>
      if c.description.None? || c.imageUrl.None? then None
      else
        match ImageIdFromUrl(c.imageUrl.value)
        case None => None
        case Some(id) =>
          var coords := if c.mapLinkUrl.Some? then ExtractMapLinkCoordinates(c.mapLinkUrl.value) else None;
          Some(Attachment(id, c.description.value, coords))
  }

  /** `image_info.get('_image_id') == id`. */
  predicate HasTempId(r: Record, id: string)
  {
    TempIdKey in r && r[TempIdKey] == id
  }

  /** The index of the first record carrying image id `id`. */
  function FirstWithId(images: seq<Record>, id: string): (r: Option<nat>)
    ensures r.Some? ==> r.value < |images| && HasTempId(images[r.value], id)
    ensures forall j | 0 <= j < |images| && (r.None? || j < r.value) :: !HasTempId(images[j], id)
  {
    if images == [] then None
    else if HasTempId(images[0], id) then Some(0)
    else
      var r := FirstWithId(images[1..], id);
      if r.None? then None else Some(r.value + 1)
  }

  /** The assignments made on a match: the description, and the coordinates when there are some and the revision stores them. */
  function Attach(r: Record, a: Attachment, withMapLink: bool): (r': Record)
    ensures DescriptionKey in r' && r'[DescriptionKey] == a.description
    ensures forall f | f in r && f != DescriptionKey && f != MapLinkKey :: f in r' && r'[f] == r[f]
    ensures forall f | f in r' && f !in r :: f == DescriptionKey || (withMapLink && f == MapLinkKey)
    ensures withMapLink && a.maplink.Some? ==> MapLinkKey in r' && r'[MapLinkKey] == a.maplink.value
    ensures !(withMapLink && a.maplink.Some?) ==>
              (MapLinkKey in r' <==> MapLinkKey in r) && (MapLinkKey in r ==> r'[MapLinkKey] == r[MapLinkKey])
  {
    var r1 := r[DescriptionKey := a.description];
    if withMapLink && a.maplink.Some? then r1[MapLinkKey := a.maplink.value] else r1
  }

  /** One iteration of the outer loop. */
  function ApplyItem(images: seq<Record>, item: MediaItem, withMapLink: bool): seq<Record>
  {
    match ItemAttachment(item)
    case None => images
    case Some(a) =>
      match FirstWithId(images, a.id)
      case None => images
      case Some(i) => if DescriptionKey in images[i] then images else images[i := Attach(images[i], a, withMapLink)]
  }

  /** `process_media_contents(media, ...)` applied to `images`. */
  function ApplyMedia(images: seq<Record>, media: seq<MediaItem>, withMapLink: bool): seq<Record>
  {
    if media == [] then images
    else ApplyItem(ApplyMedia(images, media[..|media| - 1], withMapLink), media[|media| - 1], withMapLink)
  }

  /** The attachment of the first usable item for image id `id`. */
  function FirstFor(media: seq<MediaItem>, id: string): (r: Option<Attachment>)
    ensures r.Some? ==> r.value.id == id
  {
    if media == [] then None
    else
      var earlier := FirstFor(media[..|media| - 1], id);
      var a := ItemAttachment(media[|media| - 1]);
      if earlier.Some? then earlier
      else if a.Some? && a.value.id == id then a
      else None
  }

  /** A record keeps its image id through the matching. */
  lemma {:induction false} ApplyMediaKeepsIds(images: seq<Record>, media: seq<MediaItem>, withMapLink: bool)
    ensures var out := ApplyMedia(images, media, withMapLink);
            |out| == |images|
            && forall i | 0 <= i < |images| ::
                 (TempIdKey in out[i] <==> TempIdKey in images[i])
                 && (TempIdKey in images[i] ==> out[i][TempIdKey] == images[i][TempIdKey])
  {
    if media != [] {
      ApplyMediaKeepsIds(images, media[..|media| - 1], withMapLink);
    }
  }

  lemma FirstWithIdKept(images: seq<Record>, media: seq<MediaItem>, withMapLink: bool, id: string)
    ensures FirstWithId(ApplyMedia(images, media, withMapLink), id) == FirstWithId(images, id)
  {
    var out := ApplyMedia(images, media, withMapLink);
    ApplyMediaKeepsIds(images, media, withMapLink);
    assert forall j | 0 <= j < |images| :: HasTempId(out[j], id) <==> HasTempId(images[j], id);
    var a := FirstWithId(out, id);
    var b := FirstWithId(images, id);
    if a.Some? && b.Some? && a.value != b.value {
      assert false;
    }
  }

  /** The record at `i` after the matching, stated without running the loop. */
  function Expected(images: seq<Record>, media: seq<MediaItem>, withMapLink: bool, i: nat): Record
    requires i < |images|
  {
    var r := images[i];
    if TempIdKey in r && FirstWithId(images, r[TempIdKey]) == Some(i) && DescriptionKey !in r
       && FirstFor(media, r[TempIdKey]).Some?
    then Attach(r, FirstFor(media, r[TempIdKey]).value, withMapLink)
    else r
  }

  /**
   * First write wins: a record is changed only when it is the first with
   * its image id and has no description, and then it gets the description
   * of the first usable media item with that id.
   */
  lemma {:induction false} ApplyMediaExact(images: seq<Record>, media: seq<MediaItem>, withMapLink: bool)
    ensures var out := ApplyMedia(images, media, withMapLink);
            |out| == |images| && forall i | 0 <= i < |images| :: out[i] == Expected(images, media, withMapLink, i)
  {
    if media != [] {
      var init := media[..|media| - 1];
      var item := media[|media| - 1];
      assert media == init + [item];
      var prev := ApplyMedia(images, init, withMapLink);
      ApplyMediaExact(images, init, withMapLink);
      var out := ApplyMedia(images, media, withMapLink);
      assert out == ApplyItem(prev, item, withMapLink);
      assert |out| == |prev|;
      forall i | 0 <= i < |images| ensures out[i] == Expected(images, media, withMapLink, i) {
        StepAt(images, init, item, withMapLink, i);
      }
    }
  }

  lemma StepAt(images: seq<Record>, init: seq<MediaItem>, item: MediaItem, withMapLink: bool, i: nat)
    requires i < |images|
    requires var prev := ApplyMedia(images, init, withMapLink);
             |prev| == |images| && forall k | 0 <= k < |images| :: prev[k] == Expected(images, init, withMapLink, k)
    ensures var prev := ApplyMedia(images, init, withMapLink);
            ApplyItem(prev, item, withMapLink)[i] == Expected(images, init + [item], withMapLink, i)
  {
    var prev := ApplyMedia(images, init, withMapLink);
    var a := ItemAttachment(item);
    ApplyItemAt(prev, item, withMapLink, i);
    assert prev[i] == Expected(images, init, withMapLink, i);
    if a.Some? {
      FirstWithIdKept(images, init, withMapLink, a.value.id);
    }
    if a.Some? && FirstWithId(images, a.value.id) == Some(i) {
      StepHit(images, init, item, withMapLink, i, prev[i]);
    } else {
      ExpectedUnchanged(images, init, item, withMapLink, i);
    }
  }

  /** What one item does to the record at `i`. */
  lemma ApplyItemAt(prev: seq<Record>, item: MediaItem, withMapLink: bool, i: nat)
    requires i < |prev|
    ensures var a := ItemAttachment(item);
            |ApplyItem(prev, item, withMapLink)| == |prev|
            && ApplyItem(prev, item, withMapLink)[i]
               == if a.Some? && FirstWithId(prev, a.value.id) == Some(i) && DescriptionKey !in prev[i]
                  then Attach(prev[i], a.value, withMapLink) else prev[i]
  {
  }

  lemma FirstForStep(init: seq<MediaItem>, item: MediaItem, id: string)
    ensures var a := ItemAttachment(item);
            FirstFor(init + [item], id)
            == if FirstFor(init, id).Some? then FirstFor(init, id) else if a.Some? && a.value.id == id then a else None
  {
    var media := init + [item];
    assert media[..|media| - 1] == init && media[|media| - 1] == item;
  }

  /** A record the item does not reach expects the same after the item as before. */
  lemma ExpectedUnchanged(images: seq<Record>, init: seq<MediaItem>, item: MediaItem, withMapLink: bool, i: nat)
    requires i < |images|
    requires var a := ItemAttachment(item);
             !(a.Some? && FirstWithId(images, a.value.id) == Some(i))
    ensures Expected(images, init + [item], withMapLink, i) == Expected(images, init, withMapLink, i)
  {
    var r := images[i];
    if TempIdKey in r && FirstWithId(images, r[TempIdKey]) == Some(i) {
      FirstForStep(init, item, r[TempIdKey]);
    }
  }

  /** The record the item reaches: described by the earlier items, or by this one when none did. */
  lemma StepHit(images: seq<Record>, init: seq<MediaItem>, item: MediaItem, withMapLink: bool, i: nat, before: Record)
    requires i < |images| && before == Expected(images, init, withMapLink, i)
    requires ItemAttachment(item).Some? && FirstWithId(images, ItemAttachment(item).value.id) == Some(i)
    ensures var a := ItemAttachment(item).value;
            (if DescriptionKey !in before then Attach(before, a, withMapLink) else before)
            == Expected(images, init + [item], withMapLink, i)
  {
    var a := ItemAttachment(item).value;
    var r := images[i];
    assert HasTempId(r, a.id);
    FirstForStep(init, item, a.id);
  }

  /** Nothing already in a record is changed, except a map link on a record without description. */
  lemma ApplyMediaKeepsValues(images: seq<Record>, media: seq<MediaItem>, withMapLink: bool)
    ensures var out := ApplyMedia(images, media, withMapLink);
            |out| == |images|
            && (forall i, f | 0 <= i < |images| && f in images[i] && (f != MapLinkKey || DescriptionKey in images[i]) ::
                  f in out[i] && out[i][f] == images[i][f])
            && (forall i, f | 0 <= i < |images| && f in out[i] && f !in images[i] ::
                  f == DescriptionKey || (withMapLink && f == MapLinkKey))
  {
    ApplyMediaExact(images, media, withMapLink);
  }

  /** Processing two lists one after the other is processing their concatenation. */
  lemma {:induction false} ApplyMediaConcat(images: seq<Record>, m: seq<MediaItem>, p: seq<MediaItem>, withMapLink: bool)
    ensures ApplyMedia(ApplyMedia(images, m, withMapLink), p, withMapLink) == ApplyMedia(images, m + p, withMapLink)
    decreases |p|
  {
    if p == [] {
      assert m + p == m;
    } else {
      var q := p[..|p| - 1];
      ApplyMediaConcat(images, m, q, withMapLink);
      assert (m + p)[..|m + p| - 1] == m + q;
      assert (m + p)[|m + p| - 1] == p[|p| - 1];
    }
  }

  lemma {:induction false} FirstForConcat(m: seq<MediaItem>, p: seq<MediaItem>, id: string)
    ensures FirstFor(m + p, id) == if FirstFor(m, id).Some? then FirstFor(m, id) else FirstFor(p, id)
    decreases |p|
  {
    if p == [] {
      assert m + p == m;
    } else {
      var q := p[..|p| - 1];
      var x := p[|p| - 1];
      FirstForConcat(m, q, id);
      assert p == q + [x];
      assert m + p == (m + q) + [x];
      FirstForStep(m + q, x, id);
      FirstForStep(q, x, id);
      if FirstFor(m, id).Some? {
        assert FirstFor(m + p, id) == FirstFor(m + q, id);
      } else {
        assert FirstFor(m + p, id) == FirstFor(q + [x], id);
      }
    }
  }

  /** The description step of a run: MediaContents first, then PreloadMediaContents, each only when present. */
  function DescribeBatch(images: seq<Record>, mediaContents: Option<seq<MediaItem>>,
                         preloadContents: Option<seq<MediaItem>>, withMapLink: bool): seq<Record>
  {
    var afterMedia := if mediaContents.Some? then ApplyMedia(images, mediaContents.value, withMapLink) else images;
    if preloadContents.Some? then ApplyMedia(afterMedia, preloadContents.value, withMapLink) else afterMedia
  }

  /**
   * MediaContents wins: when it has a usable item for the image id of the
   * first record with that id, and that record had no description, the
   * record ends with that item's description whatever PreloadMediaContents
   * holds.
   */
  lemma MediaContentsWins(images: seq<Record>, m: seq<MediaItem>, p: seq<MediaItem>, withMapLink: bool, i: nat)
    requires i < |images| && TempIdKey in images[i] && DescriptionKey !in images[i]
    requires FirstWithId(images, images[i][TempIdKey]) == Some(i)
    requires FirstFor(m, images[i][TempIdKey]).Some?
    ensures var out := DescribeBatch(images, Some(m), Some(p), withMapLink);
            |out| == |images| && DescriptionKey in out[i]
            && out[i][DescriptionKey] == FirstFor(m, images[i][TempIdKey]).value.description
  {
    ApplyMediaConcat(images, m, p, withMapLink);
    FirstForConcat(m, p, images[i][TempIdKey]);
    ApplyMediaExact(images, m + p, withMapLink);
  }

  /** `process_media_contents`, with its outer loop over the items; `ProcessItem` is the loop body. */
  method ProcessMediaContents(images: seq<Record>, media: seq<MediaItem>, withMapLink: bool) returns (out: seq<Record>)
    ensures out == ApplyMedia(images, media, withMapLink)
  {
    out := images;
    var k := 0;
    while k < |media|
      invariant 0 <= k <= |media|
      invariant out == ApplyMedia(images, media[..k], withMapLink)
    {
      assert media[..k + 1][..k] == media[..k] && media[..k + 1][k] == media[k];
      out := ProcessItem(out, media[k], withMapLink);
      k := k + 1;
    }
    assert media[..|media|] == media;
  }

  /** One media item: the inner loop looks for the first record with the item's image id. */
  method ProcessItem(images: seq<Record>, item: MediaItem, withMapLink: bool) returns (out: seq<Record>)
    ensures out == ApplyItem(images, item, withMapLink)
  {
    out := images;
    var att := ItemAttachment(item);
    if att.Some? {
      var a := att.value;
      var i := 0;
      while i < |out|
        invariant 0 <= i <= |out| == |images|
        invariant out == images
        invariant forall j | 0 <= j < i :: !HasTempId(out[j], a.id)
      {
        if TempIdKey in out[i] && out[i][TempIdKey] == a.id {
          assert FirstWithId(images, a.id) == Some(i);
          if DescriptionKey !in out[i] {
            out := out[i := Attach(out[i], a, withMapLink)];
          }
          return;
        }
        i := i + 1;
      }
      assert FirstWithId(images, a.id) == None;
    }
  }

  /** Deleting the temporary id field from every record. */
  function DropTempIds(images: seq<Record>): (out: seq<Record>)
    ensures |out| == |images|
    ensures forall i | 0 <= i < |images| :: out[i] == images[i] - {TempIdKey}
  {
    seq(|images|, i requires 0 <= i < |images| => images[i] - {TempIdKey})
  }

  /** The clean-up loop `for img in images_info: if '_image_id' in img: del img['_image_id']`. */
  method RemoveTempIds(images: seq<Record>) returns (out: seq<Record>)
    ensures out == DropTempIds(images)
    ensures forall i | 0 <= i < |out| :: TempIdKey !in out[i]
  {
    out := images;
    var i := 0;
    while i < |out|
      invariant 0 <= i <= |out| == |images|
      invariant forall j | 0 <= j < i :: out[j] == images[j] - {TempIdKey}
      invariant forall j | i <= j < |out| :: out[j] == images[j]
    {
      if TempIdKey in out[i] {
        out := out[i := out[i] - {TempIdKey}];
      } else {
        assert out[i] == images[i] - {TempIdKey};
      }
      i := i + 1;
    }
  }

  // ---------------------------------------------------- the Ssd matching

  /** The id an `Ssd` refers to: `Ssd.replace('_', '')`. */
  function SsdKey(ssd: string): string
  {
    ReplaceAll(ssd, "_", "")
  }

  /** The inner loop: the first record whose `fullstartdate` is `key`; KeyError on a record without one before it. */
  function FindById(images: seq<Record>, key: string, from: nat): (r: Result<Option<nat>>)
    requires from <= |images|
    ensures r.Ok? && r.value.Some? ==> from <= r.value.value < |images| && HasId(images[r.value.value], key)
    ensures (forall j | from <= j < |images| :: IdKey in images[j]) ==> r.Ok?
    ensures r.Ok? ==> forall j | from <= j < |images| && (r.value.None? || j < r.value.value) ::
                        IdKey in images[j] && images[j][IdKey] != key
    decreases |images| - from
  {
    if from == |images| then Ok(None)
    else if IdKey !in images[from] then Err(KeyError(IdKey))
    else if images[from][IdKey] == key then Ok(Some(from))
    else FindById(images, key, from + 1)
  }

  /** One iteration of the `Ssd` loop: KeyError on a missing `Ssd`, `ImageContent` or `Description`. */
  function SsdStep(images: seq<Record>, item: MediaItem): Result<seq<Record>>
  {
    if item.ssd.None? then Err(KeyError("Ssd"))
    else if item.content.None? then Err(KeyError("ImageContent"))
    else if item.content.value.description.None? then Err(KeyError("Description"))
    else
      match FindById(images, SsdKey(item.ssd.value), 0)
      case Err(e) => Err(e)
      case Ok(None) => Ok(images)
      case Ok(Some(i)) => Ok(images[i := images[i][DescriptionKey := item.content.value.description.value]])
  }

  /** The whole `Ssd` loop over `MediaContents` (KeyError when the response has none). */
  function SsdAttach(images: seq<Record>, media: Option<seq<MediaItem>>): Result<seq<Record>>
  {
    if media.None? then Err(KeyError("MediaContents")) else SsdApply(images, media.value)
  }

  function SsdApply(images: seq<Record>, items: seq<MediaItem>): Result<seq<Record>>
  {
    if items == [] then Ok(images)
    else
      match SsdApply(images, items[..|items| - 1])
      case Err(e) => Err(e)
      case Ok(cur) => SsdStep(cur, items[|items| - 1])
  }

  predicate Usable(item: MediaItem)
  {
    item.ssd.Some? && item.content.Some? && item.content.value.description.Some?
  }

  /** The description of the last usable item whose `Ssd` names `id`. */
  function LastFor(items: seq<MediaItem>, id: string): Option<string>
  {
    if items == [] then None
    else
      var item := items[|items| - 1];
      if Usable(item) && SsdKey(item.ssd.value) == id then Some(item.content.value.description.value)
      else LastFor(items[..|items| - 1], id)
  }

  function FirstById(images: seq<Record>, id: string): Option<nat>
    requires forall j | 0 <= j < |images| :: IdKey in images[j]
  {
    FindById(images, id, 0).value
  }

  /** The record at `i` after the whole `Ssd` loop, stated without running it. */
  function SsdExpected(images: seq<Record>, items: seq<MediaItem>, i: nat): Record
    requires i < |images| && forall j | 0 <= j < |images| :: IdKey in images[j]
  {
    var id := images[i][IdKey];
    if FirstById(images, id) == Some(i) && LastFor(items, id).Some?
    then images[i][DescriptionKey := LastFor(items, id).value]
    else images[i]
  }

  /** The loop keeps the number of records and their `fullstartdate`. */
  lemma {:induction false} SsdApplyKeepsIds(images: seq<Record>, items: seq<MediaItem>)
    requires forall j | 0 <= j < |images| :: IdKey in images[j]
    ensures var r := SsdApply(images, items);
            r.Ok? ==> |r.value| == |images|
                      && forall j | 0 <= j < |images| :: IdKey in r.value[j] && r.value[j][IdKey] == images[j][IdKey]
  {
    if items != [] {
      SsdApplyKeepsIds(images, items[..|items| - 1]);
    }
  }

  /** On records that all carry `fullstartdate`, the loop fails exactly when some item lacks a field. */
  lemma {:induction false} SsdApplyOk(images: seq<Record>, items: seq<MediaItem>)
    requires forall j | 0 <= j < |images| :: IdKey in images[j]
    ensures SsdApply(images, items).Ok? <==> forall k | 0 <= k < |items| :: Usable(items[k])
  {
    if items != [] {
      var init := items[..|items| - 1];
      SsdApplyOk(images, init);
      SsdApplyKeepsIds(images, init);
      assert forall k | 0 <= k < |init| :: init[k] == items[k];
    }
  }

  lemma LastForStep(init: seq<MediaItem>, item: MediaItem, id: string)
    ensures LastFor(init + [item], id)
            == if Usable(item) && SsdKey(item.ssd.value) == id then Some(item.content.value.description.value)
               else LastFor(init, id)
  {
    var items := init + [item];
    assert items[..|items| - 1] == init && items[|items| - 1] == item;
  }

  /**
   * Otherwise the last write wins: the first record with a given
   * `fullstartdate` ends with the description of the last item naming it,
   * and every other record is unchanged.
   */
  lemma {:induction false} SsdApplyExact(images: seq<Record>, items: seq<MediaItem>)
    requires forall j | 0 <= j < |images| :: IdKey in images[j]
    requires forall k | 0 <= k < |items| :: Usable(items[k])
    ensures var r := SsdApply(images, items);
            r.Ok? && |r.value| == |images| && forall i | 0 <= i < |images| :: r.value[i] == SsdExpected(images, items, i)
  {
    if items != [] {
      var init := items[..|items| - 1];
      var item := items[|items| - 1];
      assert items == init + [item];
      assert forall k | 0 <= k < |init| :: init[k] == items[k];
      SsdApplyExact(images, init);
      var prev := SsdApply(images, init).value;
      SsdApplyKeepsIds(images, init);
      forall i | 0 <= i < |images| ensures SsdStep(prev, item).Ok? && |SsdStep(prev, item).value| == |images|
                                            && SsdStep(prev, item).value[i] == SsdExpected(images, items, i) {
        SsdStepAt(images, init, item, prev, i);
      }
      if images == [] {
        assert SsdStep(prev, item).Ok?;
      }
    }
  }

  /** One usable item applied to records that already agree with the items before it. */
  lemma SsdStepAt(images: seq<Record>, init: seq<MediaItem>, item: MediaItem, prev: seq<Record>, i: nat)
    requires i < |images| && forall j | 0 <= j < |images| :: IdKey in images[j]
    requires Usable(item)
    requires |prev| == |images| && forall j | 0 <= j < |images| :: prev[j] == SsdExpected(images, init, j)
    ensures SsdStep(prev, item).Ok? && |SsdStep(prev, item).value| == |images|
    ensures SsdStep(prev, item).value[i] == SsdExpected(images, init + [item], i)
  {
    var key := SsdKey(item.ssd.value);
    var d := item.content.value.description.value;
    assert forall j | 0 <= j < |prev| :: IdKey in prev[j] && prev[j][IdKey] == images[j][IdKey];
    var found := FindById(prev, key, 0);
    var found0 := FindById(images, key, 0);
    if found.value.Some? && found0.value.Some? && found.value.value != found0.value.value {
      assert false;
    }
    assert found.value == found0.value;
    var id := images[i][IdKey];
    LastForStep(init, item, id);
    if found.value == Some(i) {
      assert id == key;
      assert SsdStep(prev, item).value[i] == prev[i][DescriptionKey := d];
      assert prev[i][DescriptionKey := d] == images[i][DescriptionKey := d];
    }
  }
}
