/**
 * `parse_itch_game_page_data` (src/parsers/itch_game_info_parser.rs): the
 * current extractor of a game page's "More information" table. Rows are
 * folded into a `MoreInfoTableData` record that starts at its default; a row
 * without exactly two cells fails the whole page, a row whose label is not
 * recognised is skipped, and a recognised row overwrites one field.
 */
module GameInfoParser {
  import opened Results
  import opened Text
  import opened InfoTable

  /** `ItchTableData`: the field kinds a label may name. */
  datatype Kind =
    | ReleaseDate | Status | Platforms | Rating | Authors | Genres | MadeWith
    | Tags | AverageSession | Languages | Inputs | Links | Accessibility

  type Error = FormatError<Kind>

  /**
   * `ItchTableData::from_str`: exact comparison with a closed list of labels.
   * A string names a kind exactly when it is one of that kind's labels; any
   * other text, differently cased or padded, names none.
   */
  function FromStr(s: string): (r: Option<Kind>)
    ensures forall k :: r == Some(k) <==> s in Labels(k)
  {
    match s
    case "Status" => Some(Status)
    case "Release date" => Some(ReleaseDate)
    case "Accessibility" => Some(Accessibility)
    case "Platforms" => Some(Platforms)
    case "Rating" => Some(Kind.Rating)
    case "Author" => Some(Authors)
    case "Authors" => Some(Authors)
    case "Genre" => Some(Genres)
    case "Genres" => Some(Genres)
    case "Made with" => Some(MadeWith)
    case "Tag" => Some(Tags)
    case "Tags" => Some(Tags)
    case "Average session" => Some(AverageSession)
    case "Languages" => Some(Languages)
    case "Language" => Some(Languages)
    case "Inputs" => Some(Inputs)
    case "Links" => Some(Links)
    case _ => None
  }

  /** The labels that name a kind: one, or a singular and a plural. */
  function Labels(k: Kind): (ls: set<string>)
    ensures |ls| >= 1
  {
    match k
    case ReleaseDate => {"Release date"}
    case Status => {"Status"}
    case Platforms => {"Platforms"}
    case Rating => {"Rating"}
    case Authors => {"Author", "Authors"}
    case Genres => {"Genre", "Genres"}
    case MadeWith => {"Made with"}
    case Tags => {"Tag", "Tags"}
    case AverageSession => {"Average session"}
    case Languages => {"Language", "Languages"}
    case Inputs => {"Inputs"}
    case Links => {"Links"}
    case Accessibility => {"Accessibility"}
  }

  /** Every kind can be named, so no field is unreachable. */
  lemma EveryKindHasLabel(k: Kind)
    ensures exists s :: FromStr(s) == Some(k)
  {
    var s :| s in Labels(k);
    assert FromStr(s) == Some(k);
  }

  /** `MoreInfoTableData`. */
  datatype MoreInfoTableData = MoreInfoTableData(
    status: string,
    releaseDate: string,
    platforms: seq<string>,
    rating: InfoTable.Rating,
    authors: seq<string>,
    genres: seq<string>,
    madeWith: seq<string>,
    tags: seq<string>,
    averageSession: string,
    languages: seq<string>,
    inputs: seq<string>,
    links: seq<Link>,
    accessibility: seq<string>)

  /** `MoreInfoTableData::default()`: empty strings, empty lists, rating 0/0. */
  function Default(): MoreInfoTableData
  {
    MoreInfoTableData("", "", [], DefaultRating, [], [], [], [], "", [], [], [], [])
  }

  /** The value of one field, so that fields can be compared kind by kind. */
  datatype FieldValue = TextField(text: string) | List(items: seq<string>) | RatingValue(rating: InfoTable.Rating) | LinkList(links: seq<Link>)

  /** The field a kind fills. */
  function Field(d: MoreInfoTableData, k: Kind): FieldValue
  {
    match k
    case ReleaseDate => TextField(d.releaseDate)
    case Status => TextField(d.status)
    case Platforms => List(d.platforms)
    case Rating => RatingValue(d.rating)
    case Authors => List(d.authors)
    case Genres => List(d.genres)
    case MadeWith => List(d.madeWith)
    case Tags => List(d.tags)
    case AverageSession => TextField(d.averageSession)
    case Languages => List(d.languages)
    case Inputs => List(d.inputs)
    case Links => LinkList(d.links)
    case Accessibility => List(d.accessibility)
  }

  /** Records that agree on every field are equal. */
  lemma FieldsDetermineRecord(d: MoreInfoTableData, e: MoreInfoTableData)
    requires forall k :: Field(d, k) == Field(e, k)
    ensures d == e
  {
    assert Field(d, ReleaseDate) == Field(e, ReleaseDate) && Field(d, Status) == Field(e, Status);
    assert Field(d, Platforms) == Field(e, Platforms) && Field(d, Kind.Rating) == Field(e, Kind.Rating);
    assert Field(d, Authors) == Field(e, Authors) && Field(d, Genres) == Field(e, Genres);
    assert Field(d, MadeWith) == Field(e, MadeWith) && Field(d, Tags) == Field(e, Tags);
    assert Field(d, AverageSession) == Field(e, AverageSession) && Field(d, Languages) == Field(e, Languages);
    assert Field(d, Inputs) == Field(e, Inputs) && Field(d, Links) == Field(e, Links);
    assert Field(d, Accessibility) == Field(e, Accessibility);
  }

  /** The arm of the `match data_type` that fills the field of kind `k` from a data cell. */
  function Assign(d: MoreInfoTableData, k: Kind, data: Cell): Result<MoreInfoTableData, Error>
  {
    match k
    case ReleaseDate => Ok(d.(releaseDate := TrimmedText(data)))
    case Status => Ok(d.(status := TrimmedText(data)))
    case Accessibility => Ok(d.(accessibility := AnchorSeparatedStrings(data.texts)))
    case Platforms => Ok(d.(platforms := AnchorSeparatedStrings(data.texts)))
    case Rating =>
      (match RatingOf(data, k)
       case Err(e) => Err(e)
       case Ok(r) => Ok(d.(rating := r)))
    case Authors => Ok(d.(authors := AnchorSeparatedStrings(data.texts)))
    case Genres => Ok(d.(genres := AnchorSeparatedStrings(data.texts)))
    case MadeWith => Ok(d.(madeWith := AnchorSeparatedStrings(data.texts)))
    case Tags => Ok(d.(tags := AnchorSeparatedStrings(data.texts)))
    case AverageSession => Ok(d.(averageSession := TrimmedText(data)))
    case Languages => Ok(d.(languages := AnchorSeparatedStrings(data.texts)))
    case Inputs => Ok(d.(inputs := AnchorSeparatedStrings(data.texts)))
    case Links =>
      (match LinksOf(data.anchors, Links)
       case Err(e) => Err(e)
       case Ok(ls) => Ok(d.(links := ls)))
  }

  /** One iteration of the row loop. */
  function ApplyRow(d: MoreInfoTableData, row: Row): Result<MoreInfoTableData, Error>
  {
    if |row.tds| != 2 then Err(MissingElements)
    else match FromStr(row.tds[0].innerHtml)
      case None => Ok(d)
      case Some(k) => Assign(d, k, row.tds[1])
  }

  /** What `parse_itch_game_page_data` returns for a table with these rows. */
  function GamePageData(rows: seq<Row>): Result<MoreInfoTableData, Error>
  {
    FoldRows(ApplyRow, Default(), rows)
  }

  /**
   * `parse_itch_game_page_data`: starts from the default record and updates
   * it row by row, returning at the first row that fails.
   */
  method ParseGamePageData(rows: seq<Row>) returns (r: Result<MoreInfoTableData, Error>)
    ensures r == GamePageData(rows)
  {
    var itchData := Default();
    for i := 0 to |rows|
      invariant FoldRows(ApplyRow, Default(), rows[..i]) == Ok(itchData)
    {
      assert rows[..i + 1][..i] == rows[..i];
      var tds := rows[i].tds;
      if |tds| != 2 {
        FoldPrefixError(ApplyRow, Default(), rows, i + 1);
        return Err(MissingElements);
      }
      var dataType := FromStr(tds[0].innerHtml);
      if dataType.None? {
        continue;
      }
      var data := tds[1];
      match dataType.value {
        case ReleaseDate => itchData := itchData.(releaseDate := TrimmedText(data));
        case Status => itchData := itchData.(status := TrimmedText(data));
        case Accessibility => itchData := itchData.(accessibility := AnchorSeparatedStrings(data.texts));
        case Platforms => itchData := itchData.(platforms := AnchorSeparatedStrings(data.texts));
        case Rating =>
          var rating := ParseRatingElement(data, dataType.value);
          if rating.Err? {
            FoldPrefixError(ApplyRow, Default(), rows, i + 1);
            return Err(rating.error);
          }
          itchData := itchData.(rating := rating.value);
        case Authors => itchData := itchData.(authors := AnchorSeparatedStrings(data.texts));
        case Genres => itchData := itchData.(genres := AnchorSeparatedStrings(data.texts));
        case MadeWith => itchData := itchData.(madeWith := AnchorSeparatedStrings(data.texts));
        case Tags => itchData := itchData.(tags := AnchorSeparatedStrings(data.texts));
        case AverageSession => itchData := itchData.(averageSession := TrimmedText(data));
        case Languages => itchData := itchData.(languages := AnchorSeparatedStrings(data.texts));
        case Inputs => itchData := itchData.(inputs := AnchorSeparatedStrings(data.texts));
        case Links =>
          var links := ParseLinks(data, Links);
          if links.Err? {
            FoldPrefixError(ApplyRow, Default(), rows, i + 1);
            return Err(links.error);
          }
          itchData := itchData.(links := links.value);
      }
    }
    assert rows[..|rows|] == rows;
    return Ok(itchData);
  }

  // ---------------------------------------------------------------------------
  // Properties of the extraction.

  /** A table without rows gives the default record. */
  lemma EmptyTableGivesDefault()
    ensures GamePageData([]) == Ok(Default())
    ensures var d := Default();
            d.status == "" && d.releaseDate == "" && d.averageSession == ""
            && d.platforms == [] && d.authors == [] && d.genres == [] && d.madeWith == []
            && d.tags == [] && d.languages == [] && d.inputs == [] && d.links == [] && d.accessibility == []
            && d.rating == DefaultRating
  {
  }

  /**
   * A recognised row changes exactly the field of its kind; every other
   * field keeps its value.
   */
  lemma AssignChangesOnlyItsField(d: MoreInfoTableData, k: Kind, data: Cell, other: Kind)
    requires Assign(d, k, data).Ok? && other != k
    ensures Field(Assign(d, k, data).value, other) == Field(d, other)
  {
  }

  /**
   * Whether a recognised row succeeds, and what it writes, depend on the
   * cell alone and not on the record so far: the last row of a kind wins.
   */
  lemma AssignIgnoresEarlierValue(d: MoreInfoTableData, e: MoreInfoTableData, k: Kind, data: Cell)
    ensures Assign(d, k, data).Ok? <==> Assign(e, k, data).Ok?
    ensures Assign(d, k, data).Err? ==> Assign(d, k, data) == Assign(e, k, data)
    ensures Assign(d, k, data).Ok? ==> Field(Assign(d, k, data).value, k) == Field(Assign(e, k, data).value, k)
  {
  }

  /**
   * Two rows of the same kind: the second overwrites the first, so the pair
   * has the effect of the second row alone (no accumulation).
   */
  lemma LastRowOfAKindWins(d: MoreInfoTableData, first: Row, second: Row, k: Kind)
    requires |first.tds| == 2 && FromStr(first.tds[0].innerHtml) == Some(k)
    requires |second.tds| == 2 && FromStr(second.tds[0].innerHtml) == Some(k)
    requires ApplyRow(d, first).Ok?
    ensures ApplyRow(ApplyRow(d, first).value, second) == ApplyRow(d, second)
  {
    var d1 := ApplyRow(d, first).value;
    AssignIgnoresEarlierValue(d1, d, k, second.tds[1]);
    if ApplyRow(d, second).Ok? {
      var x, y := ApplyRow(d1, second).value, ApplyRow(d, second).value;
      forall other: Kind ensures Field(x, other) == Field(y, other) {
        if other != k {
          AssignChangesOnlyItsField(d1, k, second.tds[1], other);
          AssignChangesOnlyItsField(d, k, second.tds[1], other);
          AssignChangesOnlyItsField(d, k, first.tds[1], other);
        }
      }
      FieldsDetermineRecord(x, y);
    }
  }

  /**
   * Last wins over the whole table: the field of kind `k` holds what the last
   * row of kind `k` wrote, whatever rows of other kinds follow it.
   */
  lemma {:induction false} LastRowOfKindDecides(a: seq<Row>, r: Row, b: seq<Row>, k: Kind)
    requires |r.tds| == 2 && FromStr(r.tds[0].innerHtml) == Some(k)
    requires forall x <- b :: |x.tds| == 2 ==> FromStr(x.tds[0].innerHtml) != Some(k)
    requires GamePageData(a + [r] + b).Ok?
    ensures Assign(Default(), k, r.tds[1]).Ok?
    ensures Field(GamePageData(a + [r] + b).value, k) == Field(Assign(Default(), k, r.tds[1]).value, k)
    decreases |b|
  {
    if b == [] {
      assert a + [r] + b == a + [r];
      assert (a + [r])[..|a + [r]| - 1] == a;
      AssignIgnoresEarlierValue(GamePageData(a).value, Default(), k, r.tds[1]);
    } else {
      var front, x := b[..|b| - 1], b[|b| - 1];
      assert a + [r] + b == (a + [r] + front) + [x];
      assert (a + [r] + b)[..|a + [r] + b| - 1] == a + [r] + front;
      assert forall y <- front :: y in b;
      LastRowOfKindDecides(a, r, front, k);
      var d := GamePageData(a + [r] + front).value;
      if FromStr(x.tds[0].innerHtml).Some? {
        AssignChangesOnlyItsField(d, FromStr(x.tds[0].innerHtml).value, x.tds[1], k);
      }
    }
  }

  /** A row whose label is not recognised leaves the record as it is. */
  lemma UnknownLabelRowIsNeutral(row: Row, d: MoreInfoTableData)
    requires |row.tds| == 2 && FromStr(row.tds[0].innerHtml).None?
    ensures ApplyRow(d, row) == Ok(d)
  {
  }

  /**
   * A two-cell row with an unrecognised label is skipped: removing it from
   * the table does not change the result, error or record.
   */
  lemma UnknownLabelRowSkipped(before: seq<Row>, row: Row, after: seq<Row>)
    requires |row.tds| == 2 && FromStr(row.tds[0].innerHtml).None?
    ensures GamePageData(before + [row] + after) == GamePageData(before + after)
  {
    forall d ensures ApplyRow(d, row) == Ok(d) {
      UnknownLabelRowIsNeutral(row, d);
    }
    FoldSkipsNeutralRow(ApplyRow, Default(), before, row, after);
  }

  /**
   * A row without exactly two cells fails the page: with `MissingElements`
   * when the rows before it succeeded, and with the earlier error otherwise.
   */
  lemma BadRowFailsPage(before: seq<Row>, row: Row, after: seq<Row>)
    requires |row.tds| != 2
    ensures GamePageData(before + [row] + after).Err?
    ensures GamePageData(before).Ok? ==> GamePageData(before + [row] + after) == Err(MissingElements)
    ensures GamePageData(before).Err? ==> GamePageData(before + [row] + after) == GamePageData(before)
  {
    match GamePageData(before)
    case Ok(d) =>
      FoldStopsAtFailingRow(ApplyRow, Default(), before, row, after, d);
    case Err(e) =>
      FoldErrorSticky(ApplyRow, Default(), before, [row] + after);
      assert before + [row] + after == before + ([row] + after);
  }

  /** The current extractor never reports an unknown label: those rows are skipped. */
  lemma {:induction false} NeverUnknownDataType(rows: seq<Row>)
    ensures !(GamePageData(rows).Err? && GamePageData(rows).error.UnknownDataType?)
    decreases |rows|
  {
    if rows != [] {
      NeverUnknownDataType(rows[..|rows| - 1]);
    }
  }

  /**
   * What a recognised row writes: status, release date and average session
   * the trimmed text of the data cell; the list kinds the newline-split list
   * of its text nodes; rating and links what their cell parsers return.
   */
  lemma AssignWritesCellValue(d: MoreInfoTableData, k: Kind, data: Cell)
    ensures k in {Status, ReleaseDate, AverageSession} ==>
            Assign(d, k, data).Ok? && Field(Assign(d, k, data).value, k) == TextField(Trim(Concat(data.texts)))
    ensures k in {Platforms, Authors, Genres, MadeWith, Tags, Languages, Inputs, Accessibility} ==>
            Assign(d, k, data).Ok? && Field(Assign(d, k, data).value, k) == List(AnchorSeparatedStrings(data.texts))
    ensures k == Kind.Rating ==>
            (Assign(d, k, data).Ok? <==> RatingOf(data, k).Ok?) &&
            (RatingOf(data, k).Err? ==> Assign(d, k, data).error == RatingOf(data, k).error) &&
            (RatingOf(data, k).Ok? ==> Field(Assign(d, k, data).value, k) == RatingValue(RatingOf(data, k).value))
    ensures k == Links ==>
            (Assign(d, k, data).Ok? <==> LinksOf(data.anchors, Links).Ok?) &&
            (Assign(d, k, data).Err? ==> Assign(d, k, data).error == MissingData(Links)) &&
            (Assign(d, k, data).Ok? ==> Field(Assign(d, k, data).value, k) == LinkList(LinksOf(data.anchors, Links).value))
  {
  }
}
