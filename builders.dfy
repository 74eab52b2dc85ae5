/**
 * Turning the objects of the image archive API into archive records, one
 * builder per script revision, and the loop that builds a whole batch.
 *
 * An API image is modelled as a JSON object with string values. Every
 * builder reads its fields in the order the script does, so the error of a
 * failing build is the KeyError of the first field read that is missing,
 * or the ValueError of a date that does not parse.
 */
module Builders {
  import opened Wrappers
  import opened Text
  import opened Dates
  import opened Records
  import opened Scanners
  import opened Enrichment

  /** One element of `data['images']`. */
  type ApiImage = map<string, string>

  const Host: string := "https://www.bing.com"
  const SearchPrefix: string := "https://www.bing.com/search?q="
  const WallpaperSuffix: string := "_1920x1080.jpg"
  const HshKey: string := "hsh"

  /** `image[k]`. */
  function Field(image: ApiImage, k: string): (r: Result<string>)
    ensures r.Ok? <==> k in image
    ensures r.Ok? ==> r.value == image[k]
    ensures r.Err? ==> r.error == KeyError(k)
  {
    if k in image then Ok(image[k]) else Err(KeyError(k))
  }

  /** `datetime.strptime(image[k], '%Y%m%d').strftime('%Y%m%d')`. */
  function DateField(image: ApiImage, k: string): (r: Result<string>)
    ensures r.Ok? <==> k in image && IsDate(image[k])
    ensures r.Ok? ==> r.value == image[k]
    ensures r.Err? ==> r.error == (if k in image then ValueError(image[k]) else KeyError(k))
  {
    if k in image then NormalizeDate(image[k]) else Err(KeyError(k))
  }

  /**
   * The search terms of `copyrightlink`: the search prefix removed, the
   * part before the first `&`, with `+` read as a space. The percent
   * decoding that follows is a parameter of the builders.
   */
  function SearchTerms(copyrightlink: string): (q: string)
    ensures !Contains(q, "&") && forall i | 0 <= i < |q| :: q[i] != '+'
  {
    var stripped := ReplaceAll(copyrightlink, SearchPrefix, "");
    var head := Split(stripped, "&")[0];
    ReplaceCharPointwise(head, '+', ' ');
    var q := ReplaceAll(head, "+", " ");
    assert !Contains(q, "&") by {
      if Contains(q, "&") {
        var j := ContainsWitness(q, "&");
        assert head[j..j + 1] == "&";
        ContainsAt(head, "&", j);
      }
    }
    q
  }

  /** A query without the search prefix and without `&` passes through with only `+` turned into spaces. */
  lemma SearchTermsOfPlainQuery(q: string)
    requires !Contains(q, SearchPrefix) && !Contains(q, "&")
    ensures |SearchTerms(q)| == |q|
    ensures forall i | 0 <= i < |q| :: SearchTerms(q)[i] == (if q[i] == '+' then ' ' else q[i])
  {
    match IndexOf(q, "&", 0) {
      case Some(k) => ContainsAt(q, "&", k);
      case None =>
    }
    assert Split(q, "&") == [q];
    ReplaceCharPointwise(q, '+', ' ');
  }

  // ------------------------------------------------------------ builders

  /** python/bing.py: `date` from `startdate`, `url` from `url`, no id. */
  function BuildDaily(image: ApiImage): (r: Result<Record>)
    ensures r.Ok? <==> "startdate" in image && IsDate(image["startdate"])
                       && UrlKey in image && UrlBaseKey in image && CopyrightKey in image
    ensures r.Ok? ==> r.value.Keys == {DateKey, UrlKey, UrlBaseKey, CopyrightKey}
                      && r.value[DateKey] == image["startdate"]
                      && r.value[UrlKey] == Host + image[UrlKey]
                      && r.value[UrlBaseKey] == Host + image[UrlBaseKey]
                      && r.value[CopyrightKey] == image[CopyrightKey]
                      && HasValidDate(r.value)
  {
    var date :- DateField(image, "startdate");
    var url :- Field(image, UrlKey);
    var urlbase :- Field(image, UrlBaseKey);
    var copyright :- Field(image, CopyrightKey);
    Ok(map[DateKey := date, UrlKey := Host + url, UrlBaseKey := Host + urlbase, CopyrightKey := copyright])
  }

  /**
   * The check `name, id = urlbase.split("OHR.")[1].split("_")`: IndexError
   * when there is no `OHR.`, ValueError unless the rest splits into exactly
   * two pieces.
   */
  function CheckTag(urlbase: string): (r: Result<(string, string)>)
    ensures r.Ok? <==> |Split(urlbase, "OHR.")| >= 2 && |Split(Split(urlbase, "OHR.")[1], "_")| == 2
    ensures r.Err? && |Split(urlbase, "OHR.")| < 2 ==> r.error == IndexError
  {
    var parts := Split(urlbase, "OHR.");
    if |parts| < 2 then Err(IndexError)
    else
      var pieces := Split(parts[1], "_");
      if |pieces| != 2 then Err(ValueError(parts[1])) else Ok((pieces[0], pieces[1]))
  }

  /** python/bing_all_langs.py: `date` from `enddate`, `url` from `urlbase`, plus `hsh`. */
  function BuildAllLangs(image: ApiImage): (r: Result<Record>)
    ensures r.Ok? ==> UrlBaseKey in image && CheckTag(Host + image[UrlBaseKey]).Ok?
                      && "enddate" in image && IsDate(image["enddate"])
                      && CopyrightKey in image && HshKey in image
    ensures (UrlBaseKey in image && CheckTag(Host + image[UrlBaseKey]).Ok?
             && "enddate" in image && IsDate(image["enddate"]) && CopyrightKey in image && HshKey in image) ==> r.Ok?
    ensures r.Ok? ==> r.value.Keys == {DateKey, UrlKey, UrlBaseKey, CopyrightKey, HshKey}
                      && r.value[DateKey] == image["enddate"]
                      && r.value[UrlKey] == Host + image[UrlBaseKey] + WallpaperSuffix
                      && r.value[UrlBaseKey] == Host + image[UrlBaseKey]
                      && HasValidDate(r.value)
    ensures UrlBaseKey !in image ==> r == Err(KeyError(UrlBaseKey))
  {
    var raw :- Field(image, UrlBaseKey);
    var urlbase := Host + raw;
    var _ :- CheckTag(urlbase);
    var date :- DateField(image, "enddate");
    var copyright :- Field(image, CopyrightKey);
    var hsh :- Field(image, HshKey);
    Ok(map[DateKey := date, UrlKey := Host + raw + WallpaperSuffix, UrlBaseKey := urlbase,
           CopyrightKey := copyright, HshKey := hsh])
  }

  /** The fields every id-bearing revision reads, in the order it reads them after `urlbase` and `copyrightlink`. */
  predicate HasIdFields(image: ApiImage)
  {
    UrlBaseKey in image && "copyrightlink" in image && IdKey in image && CopyrightKey in image && HshKey in image
  }

  /** The record shared by the id-bearing revisions. */
  function IdRecord(image: ApiImage, date: string, unquote: string -> string): Record
    requires HasIdFields(image)
  {
    map[IdKey := image[IdKey], DateKey := date, UrlKey := Host + image[UrlBaseKey] + WallpaperSuffix,
        UrlBaseKey := Host + image[UrlBaseKey], CopyrightKey := image[CopyrightKey],
        KeywordKey := unquote(SearchTerms(image["copyrightlink"])), HshKey := image[HshKey]]
  }

  /** python/bing_all_langs_fullstartdate.py: adds `fullstartdate` and `copyrightKeyword`. */
  function BuildAllLangsId(image: ApiImage, unquote: string -> string): (r: Result<Record>)
    ensures r.Ok? <==> HasIdFields(image) && "enddate" in image && IsDate(image["enddate"])
    ensures r.Ok? ==> r.value == IdRecord(image, image["enddate"], unquote) && HasValidDate(r.value)
  {
    var raw :- Field(image, UrlBaseKey);
    var link :- Field(image, "copyrightlink");
    var id :- Field(image, IdKey);
    var date :- DateField(image, "enddate");
    var copyright :- Field(image, CopyrightKey);
    var hsh :- Field(image, HshKey);
    Ok(IdRecord(image, date, unquote))
  }

  /** The record plus `_image_id` when an id can be read off the raw `urlbase`. */
  function WithTempId(rec: Record, rawUrlBase: string): (r: Record)
    ensures TempIdKey in r <==> ImageIdFromUrl(rawUrlBase).Some?
    ensures TempIdKey in r ==> r[TempIdKey] == ImageIdFromUrl(rawUrlBase).value
    ensures r - {TempIdKey} == rec - {TempIdKey}
  {
    match ImageIdFromUrl(rawUrlBase)
    case None => rec - {TempIdKey}
    case Some(id) => rec[TempIdKey := id]
  }

  /** python/bing_251117.py: as the previous revision, plus the temporary image id. */
  function Build251117(image: ApiImage, unquote: string -> string): (r: Result<Record>)
    ensures r.Ok? <==> HasIdFields(image) && "enddate" in image && IsDate(image["enddate"])
    ensures r.Ok? ==> r.value == WithTempId(IdRecord(image, image["enddate"], unquote), image[UrlBaseKey])
    ensures r.Ok? ==> HasValidDate(r.value)
  {
    var raw :- Field(image, UrlBaseKey);
    var link :- Field(image, "copyrightlink");
    var id :- Field(image, IdKey);
    var date :- DateField(image, "enddate");
    var copyright :- Field(image, CopyrightKey);
    var hsh :- Field(image, HshKey);
    Ok(WithTempId(IdRecord(image, date, unquote), raw))
  }

  /** The markets of python/bing_260204.py whose `date` is read from `startdate`. */
  const StartDateLanguages: seq<string> := ["en-CA", "en-GB", "en-US", "fr-CA", "pt-BR", "en-ROW"]

  /** The API field the `date` of a market comes from. */
  function DateSource(lang: string): string
  {
    if lang in StartDateLanguages then "startdate" else "enddate"
  }

  /** python/bing_260204.py: the date field depends on the market; the date is read before the other fields. */
  function Build260204(image: ApiImage, lang: string, unquote: string -> string): (r: Result<Record>)
    ensures r.Ok? <==> HasIdFields(image) && DateSource(lang) in image && IsDate(image[DateSource(lang)])
    ensures r.Ok? ==> r.value == WithTempId(IdRecord(image, image[DateSource(lang)], unquote), image[UrlBaseKey])
    ensures r.Ok? ==> HasValidDate(r.value)
    ensures (UrlBaseKey in image && "copyrightlink" in image && DateSource(lang) in image
             && !IsDate(image[DateSource(lang)])) ==> r == Err(ValueError(image[DateSource(lang)]))
  {
    var raw :- Field(image, UrlBaseKey);
    var link :- Field(image, "copyrightlink");
    var date :- DateField(image, DateSource(lang));
    var id :- Field(image, IdKey);
    var copyright :- Field(image, CopyrightKey);
    var hsh :- Field(image, HshKey);
    Ok(WithTempId(IdRecord(image, date, unquote), raw))
  }

  /** The markets of python/bing_260204.py, in processing order. */
  const Languages260204: seq<string> :=
    ["en-ROW", "en-US", "en-CA", "en-GB", "en-IN", "es-ES", "fr-FR", "fr-CA", "it-IT", "ja-JP", "pt-BR", "de-DE", "zh-CN"]

  /** The markets of the earlier revisions, in processing order. */
  const LanguagesEarlier: seq<string> :=
    ["hu-HU", "en-US", "en-CA", "en-GB", "en-IN", "es-ES", "fr-FR", "fr-CA", "it-IT", "ja-JP", "pt-BR", "de-DE", "zh-CN"]

  /** The market used for the rest-of-world files is stored under the name `ROW`. */
  function FileLang(lang: string, rowMarket: string): (f: string)
    ensures lang != rowMarket ==> f == lang
  {
    if lang == rowMarket then "ROW" else lang
  }

  /** No two markets of a revision write to the same file. */
  lemma FileNamesDistinct()
    ensures forall i, j | 0 <= i < j < |Languages260204| ::
              FileLang(Languages260204[i], "en-ROW") != FileLang(Languages260204[j], "en-ROW")
    ensures forall i, j | 0 <= i < j < |LanguagesEarlier| ::
              FileLang(LanguagesEarlier[i], "hu-HU") != FileLang(LanguagesEarlier[j], "hu-HU")
  {
  }

  // ---------------------------------------------------- building a batch

  /** `images_info = [build(image) for image in data['images']]`, stopping at the first error. */
  function BuildAll(images: seq<ApiImage>, build: ApiImage -> Result<Record>): (r: Result<seq<Record>>)
    ensures r.Ok? <==> forall i | 0 <= i < |images| :: build(images[i]).Ok?
    ensures r.Ok? ==> |r.value| == |images| && forall i | 0 <= i < |images| :: r.value[i] == build(images[i]).value
    ensures r.Err? ==> exists i | 0 <= i < |images| :: build(images[i]) == Err(r.error)
                                                      && forall j | 0 <= j < i :: build(images[j]).Ok?
  {
    if images == [] then Ok([])
    else
      match build(images[0])
      case Err(e) => Err(e)
      case Ok(x) =>
        var rest := BuildAll(images[1..], build);
        if rest.Err? then
          var i :| 0 <= i < |images[1..]| && build(images[1..][i]) == Err(rest.error)
                   && forall j | 0 <= j < i :: build(images[1..][j]).Ok?;
          assert build(images[i + 1]) == Err(rest.error);
          assert forall j | 0 <= j < i + 1 :: build(images[j]).Ok? by {
            forall j | 0 <= j < i + 1 ensures build(images[j]).Ok? {
              if j > 0 { assert images[j] == images[1..][j - 1]; }
            }
          }
          Err(rest.error)
        else
          assert forall i | 0 <= i < |images[1..]| :: build(images[1..][i]).Ok?;
          assert forall i | 1 <= i < |images| :: images[i] == images[1..][i - 1];
          Ok([x] + rest.value)
  }

  /** The loop `for image in data['images']: images_info.append(...)`. */
  method BuildBatch(images: seq<ApiImage>, build: ApiImage -> Result<Record>) returns (r: Result<seq<Record>>)
    ensures r == BuildAll(images, build)
  {
    var out: seq<Record> := [];
    var k := 0;
    while k < |images|
      invariant 0 <= k <= |images| && |out| == k
      invariant forall i | 0 <= i < k :: build(images[i]).Ok? && out[i] == build(images[i]).value
    {
      var b := build(images[k]);
      if b.Err? {
        assert BuildAll(images, build).Err?;
        BuildAllFirstError(images, build, k);
        return Err(b.error);
      }
      out := out + [b.value];
      k := k + 1;
    }
    var all := BuildAll(images, build);
    assert all.Ok? && |all.value| == |out|;
    assert all.value == out;
    return Ok(out);
  }

  /** The error of a batch is the error of its first failing image. */
  lemma {:induction false} BuildAllFirstError(images: seq<ApiImage>, build: ApiImage -> Result<Record>, k: nat)
    requires k < |images| && build(images[k]).Err?
    requires forall j | 0 <= j < k :: build(images[j]).Ok?
    ensures BuildAll(images, build) == Err(build(images[k]).error)
  {
    if k > 0 {
      assert forall j | 0 <= j < k - 1 :: images[1..][j] == images[j + 1];
      BuildAllFirstError(images[1..], build, k - 1);
    }
  }
}
