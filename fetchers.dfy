/** The two upstream fetchers and the random choice between them
    (`get_apod`, `get_epic`, `select_nasa_image` in main.py). The HTTP
    status and the decoded JSON are parameters; a key that the JSON lacks
    is `None`. */
module Fetchers {
  import opened Runtime
  import opened PyStr

  const OK_STATUS := 200

  /** The record's "type" field. */
  datatype Kind = Apod | Epic

  function TypeName(k: Kind): string {
    match k
    case Apod => "apod"
    case Epic => "epic"
  }

  /** The dictionary both fetchers return: "id", "type", "title",
      "explanation", "url". A field read with `.get` may be `None`. */
  datatype Record = Record(
    id: Option<string>,
    kind: Kind,
    title: Option<string>,
    explanation: Option<string>,
    url: Option<string>)

  /** The APOD JSON object, each field `None` when the key is absent. */
  datatype ApodBody = ApodBody(
    date: Option<string>,
    title: Option<string>,
    explanation: Option<string>,
    url: Option<string>)

  datatype ApodResponse = ApodResponse(status: int, body: ApodBody)

  /** One element of the EPIC JSON array. */
  datatype EpicItem = EpicItem(image: Option<string>, date: Option<string>)

  datatype EpicResponse = EpicResponse(status: int, items: seq<EpicItem>)

  /** What a fetcher gives: a record, `None`, or a raised exception. */
  type Fetched = Result<Option<Record>>

  /** `get_apod`: fail soft on any status but 200, otherwise copy the
      fields, using the date as the id. */
  function GetApod(resp: ApodResponse): (r: Fetched)
    ensures r.Ok?
    ensures r.value.None? <==> resp.status != OK_STATUS
    ensures r.value.Some? ==>
      var rec := r.value.value;
      && rec.id == resp.body.date
      && TypeName(rec.kind) == "apod"
      && rec.title == resp.body.title
      && rec.explanation == resp.body.explanation
      && rec.url == resp.body.url
  {
    if resp.status == OK_STATUS then
      var body := resp.body;
      Ok(Some(Record(body.date, Apod, body.title, body.explanation, body.url)))
    else
      Ok(None)
  }

  /** The APOD body, read back from the record it became. */
  function ApodBodyOf(rec: Record): ApodBody {
    ApodBody(rec.id, rec.title, rec.explanation, rec.url)
  }

  /** No field of the APOD response is lost or altered on the way into the record. */
  lemma ApodRoundTrip(resp: ApodResponse)
    requires resp.status == OK_STATUS
    ensures GetApod(resp).value.Some? && ApodBodyOf(GetApod(resp).value.value) == resp.body
  {
  }

  const EPIC_ARCHIVE := "https://epic.gsfc.nasa.gov/archive/natural/"
  const EPIC_TITLE := "EPIC Earth Image from "
  const EPIC_EXPLANATION := "A photo taken by NASA's EPIC camera on the DSCOVR satellite."

  /** The archive location of an EPIC image. */
  function EpicUrl(year: string, month: string, day: string, image: string): string {
    EPIC_ARCHIVE + year + "/" + month + "/" + day + "/jpg/" + image + ".jpg"
  }

  /** The date of an EPIC image as `get_epic` takes it apart: its first
      word, and the year, month and day that word unpacks into. */
  datatype EpicDate = EpicDate(dateStr: string, year: string, month: string, day: string)

  /** `date.split()[0]` followed by `year, month, day = date_str.split('-')`:
      IndexError when the date has no word, ValueError with the piece count
      when the first word does not split into exactly three pieces. */
  function ParseEpicDate(date: string): (r: Result<EpicDate>)
    ensures AllSpace(date) ==> r == Raised(IndexError)
    ensures !AllSpace(date) ==>
      var n := |Split(Words(date)[0], '-')|;
      (r.Raised? <==> n != 3) && (r.Raised? ==> r.error == ValueError(n))
    ensures r.Ok? ==>
      && r.value.dateStr == Words(date)[0]
      && r.value.dateStr == r.value.year + "-" + r.value.month + "-" + r.value.day
      && '-' !in r.value.year && '-' !in r.value.month && '-' !in r.value.day
  {
    var words := Words(date);
    if |words| == 0 then Raised(IndexError)
    else
      var parts := Split(words[0], '-');
      if |parts| != 3 then Raised(ValueError(|parts|))
      else
        JoinThree(parts[0], parts[1], parts[2], '-');
        assert parts == [parts[0], parts[1], parts[2]];
        Ok(EpicDate(words[0], parts[0], parts[1], parts[2]))
  }

  /** A date with a first word fails to unpack exactly when that word does
      not hold two '-', and the error counts the pieces. */
  lemma ParseEpicDateRaises(date: string)
    requires !AllSpace(date)
    ensures var word := Words(date)[0];
      && (ParseEpicDate(date).Raised? <==> Count(word, '-') != 2)
      && (ParseEpicDate(date).Raised? ==> ParseEpicDate(date).error == ValueError(Count(word, '-') + 1))
  {
    var word := Words(date)[0];
    SplitCount(word, '-');
  }

  /** A date whose first word is "Y-M-D", with no '-' inside Y, M or D,
      unpacks into exactly Y, M and D. */
  lemma ParseEpicDateOf(lead: string, year: string, month: string, day: string, rest: string)
    requires AllSpace(lead)
    requires NoSpace(year) && NoSpace(month) && NoSpace(day)
    requires '-' !in year && '-' !in month && '-' !in day
    requires rest == [] || IsSpace(rest[0])
    ensures var d := year + "-" + month + "-" + day;
      ParseEpicDate(lead + d + rest) == Ok(EpicDate(d, year, month, day))
  {
    var d := year + "-" + month + "-" + day;
    assert NoSpace(d) by {
      forall k | 0 <= k < |d| ensures !IsSpace(d[k]) {
        if k < |year| { assert d[k] == year[k]; }
        else if k == |year| { assert d[k] == '-'; }
        else if k < |year| + 1 + |month| { assert d[k] == month[k - |year| - 1]; }
        else if k == |year| + 1 + |month| { assert d[k] == '-'; }
        else { assert d[k] == day[k - |year| - |month| - 2]; }
      }
    }
    FirstWord(lead, d, rest);
    JoinThree(year, month, day, '-');
    SplitJoin([year, month, day], '-');
  }

  /** The record `get_epic` derives from the element `random.choice`
      picked: the parsed date fills the archive template, and that URL is
      also the id. */
  function EpicRecord(item: EpicItem): (r: Result<Record>)
    ensures item.image.None? ==> r == Raised(KeyError("image"))
    ensures item.image.Some? && item.date.None? ==> r == Raised(KeyError("date"))
    ensures item.image.Some? && item.date.Some? && ParseEpicDate(item.date.value).Raised? ==>
      r == Raised(ParseEpicDate(item.date.value).error)
    ensures item.image.Some? && item.date.Some? && ParseEpicDate(item.date.value).Ok? ==> r.Ok?
    ensures r.Ok? ==>
      && item.image.Some? && item.date.Some? && ParseEpicDate(item.date.value).Ok?
      && var p := ParseEpicDate(item.date.value).value;
      && r.value.url == Some(EpicUrl(p.year, p.month, p.day, item.image.value))
      && r.value.id == r.value.url
      && TypeName(r.value.kind) == "epic"
      && r.value.title == Some(EPIC_TITLE + p.dateStr)
      && r.value.explanation == Some(EPIC_EXPLANATION)
  {
    match item.image
    case None => Raised(KeyError("image"))
    case Some(image) =>
      match item.date
      case None => Raised(KeyError("date"))
      case Some(date) =>
        match ParseEpicDate(date)
        case Raised(e) => Raised(e)
        case Ok(p) =>
          var url := EpicUrl(p.year, p.month, p.day, image);
          Ok(Record(Some(url), Epic, Some(EPIC_TITLE + p.dateStr), Some(EPIC_EXPLANATION), Some(url)))
  }

  /** `get_epic`: fail soft on any status but 200 and on an empty array;
      otherwise the record of the element at the injected index `pick`,
      which stands for `random.choice`. */
  function GetEpic(resp: EpicResponse, pick: nat): (r: Fetched)
    requires resp.status == OK_STATUS && resp.items != [] ==> pick < |resp.items|
    ensures r == Ok(None) <==> resp.status != OK_STATUS || resp.items == []
    ensures resp.status == OK_STATUS && resp.items != [] ==>
      (r.Raised? <==> EpicRecord(resp.items[pick]).Raised?)
    ensures r.Ok? && r.value.Some? ==> EpicRecord(resp.items[pick]) == Ok(r.value.value)
    ensures r.Raised? ==> EpicRecord(resp.items[pick]) == Raised(r.error)
  {
    if resp.status != OK_STATUS || resp.items == [] then Ok(None)
    else
      match EpicRecord(resp.items[pick])
      case Ok(rec) => Ok(Some(rec))
      case Raised(e) => Raised(e)
  }

  /** Any date whose first word is "Y-M-D" (with no '-' inside Y, M or D)
      fills the archive template with Y, M, D and the image name. */
  lemma EpicRecordFromDate(image: string, lead: string, year: string, month: string, day: string, rest: string)
    requires AllSpace(lead)
    requires NoSpace(year) && NoSpace(month) && NoSpace(day)
    requires '-' !in year && '-' !in month && '-' !in day
    requires rest == [] || IsSpace(rest[0])
    ensures var d := year + "-" + month + "-" + day;
      var url := EpicUrl(year, month, day, image);
      EpicRecord(EpicItem(Some(image), Some(lead + d + rest)))
        == Ok(Record(Some(url), Epic, Some(EPIC_TITLE + d), Some(EPIC_EXPLANATION), Some(url)))
  {
    ParseEpicDateOf(lead, year, month, day, rest);
  }

  /** The date "2024-03-05 00:31:45" and the image "epic_1b_20240305" give
      the archive URL .../2024/03/05/jpg/epic_1b_20240305.jpg. */
  lemma EpicUrlExample(image: string, date: string)
    requires image == "epic_1b_20240305" && date == "2024-03-05 00:31:45"
    ensures var url := "https://epic.gsfc.nasa.gov/archive/natural/" + "2024/03/05/jpg/" + "epic_1b_20240305.jpg";
      EpicRecord(EpicItem(Some(image), Some(date)))
        == Ok(Record(Some(url), Epic, Some("EPIC Earth Image from 2024-03-05"), Some(EPIC_EXPLANATION), Some(url)))
  {
    var y, m, d, rest := "2024", "03", "05", " 00:31:45";
    ExampleDate(date, y, m, d, rest);
    EpicRecordFromDate(image, "", y, m, d, rest);
    EpicUrlParts(y, m, d, image);
    ExampleText(image);
  }

  /** The literal facts about the example date that `EpicRecordFromDate` needs. */
  lemma ExampleDate(date: string, y: string, m: string, d: string, rest: string)
    requires date == "2024-03-05 00:31:45"
    requires y == "2024" && m == "03" && d == "05" && rest == " 00:31:45"
    ensures NoSpace(y) && NoSpace(m) && NoSpace(d)
    ensures '-' !in y && '-' !in m && '-' !in d
    ensures IsSpace(rest[0])
    ensures date == "" + (y + "-" + m + "-" + d) + rest
  {
  }

  /** The literal concatenations of the example's URL and title. */
  lemma ExampleText(image: string)
    requires image == "epic_1b_20240305"
    ensures "2024" + "/" + "03" + "/" + "05" + "/jpg/" == "2024/03/05/jpg/"
    ensures image + ".jpg" == "epic_1b_20240305.jpg"
    ensures EPIC_TITLE + ("2024" + "-" + "03" + "-" + "05") == "EPIC Earth Image from 2024-03-05"
  {
  }

  /** The archive URL split into the template prefix, the date path and the file name. */
  lemma EpicUrlParts(year: string, month: string, day: string, image: string)
    ensures EpicUrl(year, month, day, image)
      == EPIC_ARCHIVE + (year + "/" + month + "/" + day + "/jpg/") + (image + ".jpg")
  {
  }

  /** `select_nasa_image`: `coin` stands for `random.choice([True, False])`;
      True asks APOD, False asks EPIC. */
  function SelectNasaImage(coin: bool, apod: ApodResponse, epic: EpicResponse, pick: nat): (r: Fetched)
    requires !coin && epic.status == OK_STATUS && epic.items != [] ==> pick < |epic.items|
    ensures coin ==> r == GetApod(apod)
    ensures !coin ==> r == GetEpic(epic, pick)
    ensures r.Raised? ==> !coin
    ensures r.Ok? && r.value.Some? ==> (r.value.value.kind == Apod <==> coin)
    ensures r == Ok(None) <==>
      (if coin then apod.status != OK_STATUS else epic.status != OK_STATUS || epic.items == [])
  {
    if coin then GetApod(apod) else GetEpic(epic, pick)
  }
}
