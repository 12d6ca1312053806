/**
 * `parse_itch_data` (src/parsers/itch_parser.rs): the older extractor. It
 * folds the same table rows, but over 13 labels without synonyms, fails the
 * page on a label it does not know, reads the Updated and Published rows as
 * timestamps, keeps author, genre and "made with" as plain text, and on
 * success hands back its input unchanged.
 */
module ItchParser {
  import opened Results
  import opened Text
  import opened InfoTable
  import opened DateTitles
  import GameInfoParser

  /** `ItchTableData` of the older extractor. */
  datatype Kind =
    | UpdatedDate | PublishDate | Status | Platforms | Rating | Author | Genre
    | MadeWith | Tags | AverageSession | Languages | Inputs | Links

  type Error = FormatError<Kind>

  /**
   * `ItchTableData::from_str`: one exact label per kind. A string names a
   * kind exactly when it is that kind's label: there are no synonyms.
   */
  function FromStr(s: string): (r: Option<Kind>)
    ensures forall k :: r == Some(k) <==> s == Label(k)
  {
    match s
    case "Updated" => Some(UpdatedDate)
    case "Published" => Some(PublishDate)
    case "Status" => Some(Status)
    case "Platforms" => Some(Platforms)
    case "Rating" => Some(Kind.Rating)
    case "Author" => Some(Author)
    case "Genre" => Some(Genre)
    case "Made with" => Some(MadeWith)
    case "Tags" => Some(Tags)
    case "Average session" => Some(AverageSession)
    case "Languages" => Some(Languages)
    case "Inputs" => Some(Inputs)
    case "Links" => Some(Links)
    case _ => None
  }

  /** The one label of each kind. */
  function Label(k: Kind): string
  {
    match k
    case UpdatedDate => "Updated"
    case PublishDate => "Published"
    case Status => "Status"
    case Platforms => "Platforms"
    case Rating => "Rating"
    case Author => "Author"
    case Genre => "Genre"
    case MadeWith => "Made with"
    case Tags => "Tags"
    case AverageSession => "Average session"
    case Languages => "Languages"
    case Inputs => "Inputs"
    case Links => "Links"
  }

  /** The parse-time `ItchData` record (printed, not returned). */
  datatype ItchData = ItchData(
    lastUpdateDate: DateTime,
    publishDate: DateTime,
    status: string,
    platforms: seq<string>,
    rating: InfoTable.Rating,
    author: string,
    genre: string,
    madeWith: string,
    tags: seq<string>,
    averageSession: string,
    languages: seq<string>,
    inputs: seq<string>,
    links: seq<Link>)

  /** `ItchData::default()`: epoch dates, empty strings and lists, rating 0/0. */
  function Default(): ItchData
  {
    ItchData(UnixEpoch, UnixEpoch, "", [], DefaultRating, "", "", "", [], "", [], [], [])
  }

  /**
   * `parse_date_element`: the `title` of the first `abbr`, read as a
   * timestamp. No `abbr`, or one without `title`, is `MissingData`; a title
   * not in the format is `InvalidData` carrying the title; a title that
   * parses gives its date, a valid date whose canonical title is that title.
   */
  function ParseDateElement(data: Cell, k: Kind): (r: Result<DateTime, Error>)
    ensures (data.abbr.None? || data.abbr.value.attr.None?) ==> r == Err(MissingData(k))
    ensures AttrOf(data.abbr).Some? && ParseDateTitle(AttrOf(data.abbr).value).None? ==>
            r == Err(InvalidData(k, AttrOf(data.abbr).value))
    ensures r.Ok? ==>
            AttrOf(data.abbr).Some? && IsValid(r.value) && FormatDateTitle(r.value) == AttrOf(data.abbr).value
    ensures AttrOf(data.abbr).Some? && ParseDateTitle(AttrOf(data.abbr).value).Some? ==>
            r == Ok(ParseDateTitle(AttrOf(data.abbr).value).value)
  {
    match data.abbr
    case None => Err(MissingData(k))
    case Some(abbr) =>
      match abbr.attr
      case None => Err(MissingData(k))
      case Some(title) =>
        match ParseDateTitle(title)
        case None => Err(InvalidData(k, title))
        case Some(date) => Ok(date)
  }

  /** The arm of the `match data_type` that fills the field of kind `k`. */
  function Assign(d: ItchData, k: Kind, data: Cell): Result<ItchData, Error>
  {
    match k
    case UpdatedDate =>
      (match ParseDateElement(data, k)
       case Err(e) => Err(e)
       case Ok(date) => Ok(d.(lastUpdateDate := date)))
    case PublishDate =>
      (match ParseDateElement(data, k)
       case Err(e) => Err(e)
       case Ok(date) => Ok(d.(publishDate := date)))
    case Status => Ok(d.(status := TrimmedText(data)))
    case Platforms => Ok(d.(platforms := AnchorSeparatedStrings(data.texts)))
    case Rating =>
      (match RatingOf(data, k)
       case Err(e) => Err(e)
       case Ok(r) => Ok(d.(rating := r)))
    case Author => Ok(d.(author := TrimmedText(data)))
    case Genre => Ok(d.(genre := TrimmedText(data)))
    case MadeWith => Ok(d.(madeWith := TrimmedText(data)))
    case Tags => Ok(d.(tags := AnchorSeparatedStrings(data.texts)))
    case AverageSession => Ok(d.(averageSession := TrimmedText(data)))
    case Languages => Ok(d.(languages := AnchorSeparatedStrings(data.texts)))
    case Inputs => Ok(d.(inputs := AnchorSeparatedStrings(data.texts)))
    case Links =>
      (match LinksOf(data.anchors, Links)
       case Err(e) => Err(e)
       case Ok(ls) => Ok(d.(links := ls)))
  }

  /** One iteration of the row loop; an unknown label is an error (`?` on `parse_row_data_type`). */
  function ApplyRow(d: ItchData, row: Row): Result<ItchData, Error>
  {
    if |row.tds| != 2 then Err(MissingElements)
    else match FromStr(row.tds[0].innerHtml)
      case None => Err(UnknownDataType(row.tds[0].innerHtml))
      case Some(k) => Assign(d, k, row.tds[1])
  }

  /** The record the row loop builds, or the first error. */
  function ItchDataOf(rows: seq<Row>): Result<ItchData, Error>
  {
    FoldRows(ApplyRow, Default(), rows)
  }

  /**
   * `parse_itch_data`: the row loop over the table of the page `rawHtml`;
   * on success the input string itself is returned, and on failure the
   * first row's error.
   */
  method ParseItchData(rawHtml: string, rows: seq<Row>) returns (r: Result<string, Error>)
    ensures r.Ok? <==> ItchDataOf(rows).Ok?
    ensures r.Ok? ==> r.value == rawHtml
    ensures r.Err? ==> r.error == ItchDataOf(rows).error
  {
    var itchData := Default();
    for i := 0 to |rows|
      invariant FoldRows(ApplyRow, Default(), rows[..i]) == Ok(itchData)
    {
      assert rows[..i + 1][..i] == rows[..i];
      var tds := rows[i].tds;
      if |tds| != 2 {
        FoldPrefixError(ApplyRow, Default(), rows, i + 1);
        return Err(MissingElements);
      }
      var dataType := FromStr(tds[0].innerHtml);
      if dataType.None? {
        FoldPrefixError(ApplyRow, Default(), rows, i + 1);
        return Err(UnknownDataType(tds[0].innerHtml));
      }
      var data := tds[1];
      match dataType.value {
        case UpdatedDate =>
          var date := ParseDateElement(data, dataType.value);
          if date.Err? {
            FoldPrefixError(ApplyRow, Default(), rows, i + 1);
            return Err(date.error);
          }
          itchData := itchData.(lastUpdateDate := date.value);
        case PublishDate =>
          var date := ParseDateElement(data, dataType.value);
          if date.Err? {
            FoldPrefixError(ApplyRow, Default(), rows, i + 1);
            return Err(date.error);
          }
          itchData := itchData.(publishDate := date.value);
        case Status => itchData := itchData.(status := TrimmedText(data));
        case Platforms => itchData := itchData.(platforms := AnchorSeparatedStrings(data.texts));
        case Rating =>
          var rating := ParseRatingElement(data, dataType.value);
          if rating.Err? {
            FoldPrefixError(ApplyRow, Default(), rows, i + 1);
            return Err(rating.error);
          }
          itchData := itchData.(rating := rating.value);
        case Author => itchData := itchData.(author := TrimmedText(data));
        case Genre => itchData := itchData.(genre := TrimmedText(data));
        case MadeWith => itchData := itchData.(madeWith := TrimmedText(data));
        case Tags => itchData := itchData.(tags := AnchorSeparatedStrings(data.texts));
        case AverageSession => itchData := itchData.(averageSession := TrimmedText(data));
        case Languages => itchData := itchData.(languages := AnchorSeparatedStrings(data.texts));
        case Inputs => itchData := itchData.(inputs := AnchorSeparatedStrings(data.texts));
        case Links =>
          var links := ParseLinks(data, Links);
          if links.Err? {
            FoldPrefixError(ApplyRow, Default(), rows, i + 1);
            return Err(links.error);
          }
          itchData := itchData.(links := links.value);
      }
    }
    assert rows[..|rows|] == rows;
    return Ok(rawHtml);
  }

  // ---------------------------------------------------------------------------
  // Properties of the extraction.

  /**
   * A two-cell row with an unknown label fails the page with
   * `UnknownDataType` carrying the label cell's inner HTML, unless an
   * earlier row failed first; it is never skipped.
   */
  lemma UnknownLabelFailsPage(before: seq<Row>, row: Row, after: seq<Row>)
    requires |row.tds| == 2 && FromStr(row.tds[0].innerHtml).None?
    ensures ItchDataOf(before + [row] + after).Err?
    ensures ItchDataOf(before).Ok? ==>
            ItchDataOf(before + [row] + after) == Err(UnknownDataType(row.tds[0].innerHtml))
  {
    RowErrorFailsPage(before, row, after);
  }

  /**
   * A row that fails (wrong cell count, unknown label, bad date, rating or
   * links) after rows that succeeded decides the result; a failure before
   * it is kept instead.
   */
  lemma RowErrorFailsPage(before: seq<Row>, row: Row, after: seq<Row>)
    requires forall d :: ApplyRow(d, row).Err?
    ensures ItchDataOf(before + [row] + after).Err?
    ensures ItchDataOf(before).Ok? ==>
            ItchDataOf(before + [row] + after) == ApplyRow(ItchDataOf(before).value, row)
    ensures ItchDataOf(before).Err? ==> ItchDataOf(before + [row] + after) == ItchDataOf(before)
  {
    match ItchDataOf(before)
    case Ok(d) =>
      FoldStopsAtFailingRow(ApplyRow, Default(), before, row, after, d);
    case Err(e) =>
      FoldErrorSticky(ApplyRow, Default(), before, [row] + after);
      assert before + [row] + after == before + ([row] + after);
  }

  /** A row without exactly two cells fails every record with `MissingElements`. */
  lemma BadRowFails(row: Row, d: ItchData)
    requires |row.tds| != 2
    ensures ApplyRow(d, row) == Err(MissingElements)
  {
  }

  /** A date row whose cell does not yield a timestamp fails, whatever the record so far. */
  lemma BadDateRowFails(d: ItchData, row: Row, k: Kind)
    requires |row.tds| == 2 && FromStr(row.tds[0].innerHtml) == Some(k) && k in {UpdatedDate, PublishDate}
    requires ParseDateElement(row.tds[1], k).Err?
    ensures ApplyRow(d, row) == Err(ParseDateElement(row.tds[1], k).error)
  {
  }

  /** The value of one field, so that fields can be compared kind by kind. */
  datatype FieldValue = Date(date: DateTime) | TextField(text: string) | List(items: seq<string>)
                      | RatingValue(rating: InfoTable.Rating) | LinkList(links: seq<Link>)

  /** The field a kind fills. */
  function Field(d: ItchData, k: Kind): FieldValue
  {
    match k
    case UpdatedDate => Date(d.lastUpdateDate)
    case PublishDate => Date(d.publishDate)
    case Status => TextField(d.status)
    case Platforms => List(d.platforms)
    case Rating => RatingValue(d.rating)
    case Author => TextField(d.author)
    case Genre => TextField(d.genre)
    case MadeWith => TextField(d.madeWith)
    case Tags => List(d.tags)
    case AverageSession => TextField(d.averageSession)
    case Languages => List(d.languages)
    case Inputs => List(d.inputs)
    case Links => LinkList(d.links)
  }

  /** A recognised row changes exactly the field of its kind. */
  lemma AssignChangesOnlyItsField(d: ItchData, k: Kind, data: Cell, other: Kind)
    requires Assign(d, k, data).Ok? && other != k
    ensures Field(Assign(d, k, data).value, other) == Field(d, other)
  {
  }

  /**
   * Status, author, genre, "made with" and average session receive the
   * trimmed concatenation of the data cell's text; the list kinds the
   * newline-split list; the date kinds the timestamp of the cell.
   */
  lemma AssignWritesCellValue(d: ItchData, k: Kind, data: Cell)
    ensures k in {Status, Author, Genre, MadeWith, AverageSession} ==>
            Assign(d, k, data).Ok? && Field(Assign(d, k, data).value, k) == TextField(Trim(Concat(data.texts)))
    ensures k in {Platforms, Tags, Languages, Inputs} ==>
            Assign(d, k, data).Ok? && Field(Assign(d, k, data).value, k) == List(AnchorSeparatedStrings(data.texts))
    ensures k in {UpdatedDate, PublishDate} && ParseDateElement(data, k).Ok? ==>
            Assign(d, k, data).Ok? && Field(Assign(d, k, data).value, k) == Date(ParseDateElement(data, k).value)
    ensures k == Kind.Rating ==>
            (Assign(d, k, data).Ok? <==> RatingOf(data, k).Ok?) &&
            (RatingOf(data, k).Err? ==> Assign(d, k, data).error == RatingOf(data, k).error)
    ensures k == Links ==>
            (Assign(d, k, data).Ok? <==> LinksOf(data.anchors, Links).Ok?) &&
            (Assign(d, k, data).Err? ==> Assign(d, k, data).error == MissingData(Links))
  {
  }

  // ---------------------------------------------------------------------------
  // The two extractors side by side.

  /**
   * The current extractor's kind for an older kind other than the two dates:
   * the singular Author and Genre became the list kinds Authors and Genres.
   */
  function CurrentKind(k: Kind): GameInfoParser.Kind
    requires k !in {UpdatedDate, PublishDate}
  {
    match k
    case Status => GameInfoParser.Status
    case Platforms => GameInfoParser.Platforms
    case Rating => GameInfoParser.Rating
    case Author => GameInfoParser.Authors
    case Genre => GameInfoParser.Genres
    case MadeWith => GameInfoParser.MadeWith
    case Tags => GameInfoParser.Tags
    case AverageSession => GameInfoParser.AverageSession
    case Languages => GameInfoParser.Languages
    case Inputs => GameInfoParser.Inputs
    case Links => GameInfoParser.Links
  }

  /**
   * Every label the older extractor knows, apart from the two date labels,
   * is known to the current one too, with the corresponding field kind.
   */
  lemma OlderLabelsKnownToCurrent(s: string)
    requires FromStr(s).Some? && FromStr(s).value !in {UpdatedDate, PublishDate}
    ensures GameInfoParser.FromStr(s) == Some(CurrentKind(FromStr(s).value))
  {
  }

  /**
   * A two-cell row whose label neither extractor knows: the current one
   * skips it, the older one fails the page on it.
   */
  lemma UnknownRowPolicies(row: Row)
    requires |row.tds| == 2
    requires FromStr(row.tds[0].innerHtml).None? && GameInfoParser.FromStr(row.tds[0].innerHtml).None?
    ensures GameInfoParser.GamePageData([row]) == Ok(GameInfoParser.Default())
    ensures ItchDataOf([row]) == Err(UnknownDataType(row.tds[0].innerHtml))
  {
    assert [row][..|[row]| - 1] == [];
    assert FoldRows(ApplyRow, Default(), []) == Ok(Default());
    assert FoldRows(GameInfoParser.ApplyRow, GameInfoParser.Default(), []) == Ok(GameInfoParser.Default());
    GameInfoParser.UnknownLabelRowIsNeutral(row, GameInfoParser.Default());
  }
}
