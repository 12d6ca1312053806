/**
 * The info table of an itch.io game page, as both extractors see it, and the
 * cell-level extraction both of them share: the list split, the rating and
 * the links. HTML parsing and CSS selection are abstracted away: a row is the
 * sequence of its `td` cells and a cell carries exactly the views the
 * extractors read from it.
 */
module InfoTable {
  import opened Results
  import opened Text
  import opened Numbers

  /** The first element a selector finds in a cell, with the one attribute read from it. */
  datatype Element = Element(attr: Option<string>)

  /** An `a` element: its `href` attribute, if any, and its text nodes. */
  datatype Anchor = Anchor(href: Option<string>, texts: seq<string>)

  /** A `td` element. */
  datatype Cell = Cell(
    innerHtml: string,             // `inner_html()`, the text the label dispatch compares
    texts: seq<string>,            // `text()`: the text nodes below the cell, in document order
    abbr: Option<Element>,         // the first `abbr`, with its `title`
    ratingValue: Option<Element>,  // the first `div[itemprop="ratingValue"]`, with its `content`
    ratingCount: Option<Element>,  // the first `span[itemprop="ratingCount"]`, with its `content`
    anchors: seq<Anchor>)          // every `a`, in document order

  /** A `tr` of the table, given by the `td` cells it holds. */
  datatype Row = Row(tds: seq<Cell>)

  datatype Link = Link(name: string, url: string)

  /** `ItchRating`: the score is kept as the literal accepted for it. */
  datatype Rating = Rating(score: string, count: int)

  /** `ItchRating::default()`: score 0, count 0. */
  const DefaultRating := Rating("0", 0)

  /** `ItchHTMLDataFormatError`, over the extractor's own kind enumeration `K`. */
  datatype FormatError<K> =
    | UnknownDataType(data: string)
    | MissingElements
    | MissingData(dataType: K)
    | InvalidData(dataType: K, found: string)

  /** The attribute of a selected element, or None when the element or the attribute is absent. */
  function AttrOf(e: Option<Element>): Option<string>
  {
    if e.Some? then e.value.attr else None
  }

  // ---------------------------------------------------------------------------
  // The row loop: a left fold that stops at the first error.

  /**
   * The state after the rows, one step at a time from `init`; the first
   * failing step ends the fold with its error, as `return Err(..)` and `?`
   * do inside the extractors' `for` loops.
   */
  function FoldRows<D, E>(step: (D, Row) -> Result<D, E>, init: D, rows: seq<Row>): Result<D, E>
    decreases |rows|
  {
    if rows == [] then Ok(init)
    else match FoldRows(step, init, rows[..|rows| - 1])
      case Err(e) => Err(e)
      case Ok(d) => step(d, rows[|rows| - 1])
  }

  /** Folding over `a + b` is folding over `a` and then, unless that failed, over `b`. */
  lemma {:induction false} FoldAppend<D, E>(step: (D, Row) -> Result<D, E>, init: D, a: seq<Row>, b: seq<Row>)
    ensures FoldRows(step, init, a + b) ==
            match FoldRows(step, init, a)
            case Err(e) => Err(e)
            case Ok(d) => FoldRows(step, d, b)
    decreases |b|
  {
    if b == [] {
      assert a + b == a;
    } else {
      FoldAppend(step, init, a, b[..|b| - 1]);
      assert (a + b)[..|a + b| - 1] == a + b[..|b| - 1];
    }
  }

  /** Once a prefix failed, later rows change nothing: the first error is the result. */
  lemma FoldErrorSticky<D, E>(step: (D, Row) -> Result<D, E>, init: D, a: seq<Row>, b: seq<Row>)
    requires FoldRows(step, init, a).Err?
    ensures FoldRows(step, init, a + b) == FoldRows(step, init, a)
  {
    FoldAppend(step, init, a, b);
  }

  /** A row on which the step fails ends the fold with that error, whatever follows it. */
  lemma FoldStopsAtFailingRow<D, E>(step: (D, Row) -> Result<D, E>, init: D, a: seq<Row>, row: Row, b: seq<Row>, d: D)
    requires FoldRows(step, init, a) == Ok(d) && step(d, row).Err?
    ensures FoldRows(step, init, a + [row] + b) == step(d, row)
  {
    FoldAppend(step, init, a + [row], b);
    assert (a + [row])[..|a + [row]| - 1] == a;
  }

  /** A failed prefix decides the fold of the whole table. */
  lemma FoldPrefixError<D, E>(step: (D, Row) -> Result<D, E>, init: D, rows: seq<Row>, i: nat)
    requires i <= |rows| && FoldRows(step, init, rows[..i]).Err?
    ensures FoldRows(step, init, rows) == FoldRows(step, init, rows[..i])
  {
    FoldErrorSticky(step, init, rows[..i], rows[i..]);
    assert rows[..i] + rows[i..] == rows;
  }

  /** A row on which every step succeeds without change can be removed from the table. */
  lemma FoldSkipsNeutralRow<D, E>(step: (D, Row) -> Result<D, E>, init: D, a: seq<Row>, row: Row, b: seq<Row>)
    requires forall d :: step(d, row) == Ok(d)
    ensures FoldRows(step, init, a + [row] + b) == FoldRows(step, init, a + b)
  {
    FoldAppend(step, init, a + [row], b);
    FoldAppend(step, init, a, b);
    assert (a + [row])[..|a + [row]| - 1] == a;
    match FoldRows(step, init, a)
    case Err(e) =>
    case Ok(d) => assert step(d, row) == Ok(d);
  }

  // ---------------------------------------------------------------------------
  // Plain text: `data.text().collect::<String>().trim()`.

  function TrimmedText(cell: Cell): (r: string)
    ensures IsTrimmed(r)
    ensures r == Trim(Concat(cell.texts))
  {
    Trim(Concat(cell.texts))
  }

  // ---------------------------------------------------------------------------
  // Lists: `parse_anchor_separated_strings`.

  /** What a list field may hold: trimmed, non-empty and not a lone comma. */
  predicate IsListEntry(t: string)
  {
    IsTrimmed(t) && t != [] && t != ","
  }

  /** `xs` mapped through `f`, the results concatenated in order. */
  function FlatMap<T, U>(f: T -> seq<U>, xs: seq<T>): seq<U>
    decreases |xs|
  {
    if xs == [] then [] else f(xs[0]) + FlatMap(f, xs[1..])
  }

  lemma {:induction false} FlatMapAppend<T, U>(f: T -> seq<U>, a: seq<T>, b: seq<T>)
    ensures FlatMap(f, a + b) == FlatMap(f, a) + FlatMap(f, b)
    decreases |a|
  {
    if a == [] {
      assert a + b == b;
    } else {
      assert (a + b)[0] == a[0] && (a + b)[1..] == a[1..] + b;
      FlatMapAppend(f, a[1..], b);
    }
  }

  /** The lines of one text node. */
  function Lines(t: string): seq<string>
  {
    Split(t, '\n')
  }

  /** Every text node split on newlines, in order. */
  function Pieces(texts: seq<string>): seq<string>
  {
    FlatMap(Lines, texts)
  }

  /** One piece trimmed, kept when it is then neither empty nor ",". */
  function EntryOf(p: string): (r: seq<string>)
    ensures |r| <= 1 && (|r| == 1 ==> IsListEntry(r[0]))
    ensures IsListEntry(p) ==> r == [p]
    ensures IsListEntry(Trim(p)) ==> r == [Trim(p)]
    ensures !IsListEntry(Trim(p)) ==> r == []
  {
    var t := Trim(p);
    if t != "," && |t| > 0 then [t] else []
  }

  lemma {:induction false} EntriesAreListEntries(ps: seq<string>)
    ensures |FlatMap(EntryOf, ps)| <= |ps|
    ensures forall i :: 0 <= i < |FlatMap(EntryOf, ps)| ==> IsListEntry(FlatMap(EntryOf, ps)[i])
    decreases |ps|
  {
    if ps != [] {
      EntriesAreListEntries(ps[1..]);
      var e, rest := EntryOf(ps[0]), FlatMap(EntryOf, ps[1..]);
      if e == [] {
        assert FlatMap(EntryOf, ps) == rest;
      } else {
        assert FlatMap(EntryOf, ps) == [e[0]] + rest;
      }
    }
  }

  /** Each piece trimmed, keeping those that are list entries, in order. */
  function KeepEntries(ps: seq<string>): (r: seq<string>)
    ensures |r| <= |ps|
    ensures forall i :: 0 <= i < |r| ==> IsListEntry(r[i])
  {
    EntriesAreListEntries(ps);
    FlatMap(EntryOf, ps)
  }

  /**
   * `parse_anchor_separated_strings`: the text nodes split on "\n", trimmed,
   * without empty and "," pieces. Each result is a list entry, and there are
   * no more results than pieces.
   */
  function AnchorSeparatedStrings(texts: seq<string>): (r: seq<string>)
    ensures forall i :: 0 <= i < |r| ==> IsListEntry(r[i])
    ensures |r| <= |Pieces(texts)|
  {
    KeepEntries(Pieces(texts))
  }

  /**
   * The list split works text node by text node: order is kept, and a
   * repeated entry is repeated in the result (no deduplication).
   */
  lemma AnchorSeparatedStringsAppend(a: seq<string>, b: seq<string>)
    ensures AnchorSeparatedStrings(a + b) == AnchorSeparatedStrings(a) + AnchorSeparatedStrings(b)
  {
    FlatMapAppend(Lines, a, b);
    FlatMapAppend(EntryOf, Pieces(a), Pieces(b));
  }

  /** Text nodes that are already clean list entries come back unchanged, in order. */
  lemma {:induction false} AnchorSeparatedStringsOfEntries(entries: seq<string>)
    requires forall t <- entries :: IsListEntry(t) && '\n' !in t
    ensures AnchorSeparatedStrings(entries) == entries
    decreases |entries|
  {
    if entries != [] {
      assert entries[0] in entries;
      assert forall t <- entries[1..] :: t in entries;
      AnchorSeparatedStringsOfEntries(entries[1..]);
      SingleEntry(entries[0]);
      AnchorSeparatedStringsAppend([entries[0]], entries[1..]);
      assert [entries[0]] + entries[1..] == entries;
    }
  }

  /**
   * A cell `<a>Windows</a>, <a>Linux</a>` lists the two anchor texts: the
   * ", " text node between anchors is dropped.
   */
  lemma CommaSeparatedAnchors(first: string, second: string)
    requires IsListEntry(first) && '\n' !in first
    requires IsListEntry(second) && '\n' !in second
    ensures AnchorSeparatedStrings([first, ", ", second]) == [first, second]
  {
    var c := ", ";
    assert [first, c, second] == [first] + [c] + [second];
    AnchorSeparatedStringsOfThree([first], [c], [second]);
    CommaNodeDropped();
    SingleEntry(first);
    SingleEntry(second);
  }

  /** Three runs of text nodes give the parts of each run, in order. */
  lemma AnchorSeparatedStringsOfThree(x: seq<string>, y: seq<string>, z: seq<string>)
    ensures AnchorSeparatedStrings(x + y + z)
         == AnchorSeparatedStrings(x) + AnchorSeparatedStrings(y) + AnchorSeparatedStrings(z)
  {
    AnchorSeparatedStringsAppend(x + y, z);
    AnchorSeparatedStringsAppend(x, y);
  }

  lemma FlatMapSingle<T, U>(f: T -> seq<U>, x: T)
    ensures FlatMap(f, [x]) == f(x)
  {
    assert [x][1..] == [];
  }

  /** One text node that is a list entry gives that entry. */
  lemma SingleEntry(t: string)
    requires IsListEntry(t) && '\n' !in t
    ensures AnchorSeparatedStrings([t]) == [t]
  {
    FlatMapSingle(Lines, t);
    SplitWithoutSeparator(t, '\n');
    FlatMapSingle(EntryOf, t);
  }

  /** A lone ", " text node gives no entry. */
  lemma CommaNodeDropped()
    ensures AnchorSeparatedStrings([", "]) == []
  {
    var c := ", ";
    FlatMapSingle(Lines, c);
    assert '\n' !in c;
    SplitWithoutSeparator(c, '\n');
    FlatMapSingle(EntryOf, c);
    CommaEntryDropped();
  }

  lemma CommaEntryDropped()
    ensures Trim(", ") == ","
  {
    var c := ", ";
    assert !IsWhitespace(c[0]) && IsWhitespace(c[1]);
    assert SkipForward(c, 0) == 0;
    assert SkipBackward(c, 0, 2) == SkipBackward(c, 0, 1) == 1;
    assert c[0..1] == ",";
  }

  // ---------------------------------------------------------------------------
  // The rating: `parse_rating_element`.

  /** What `parse_rating_element` returns for a cell, the failing kind being `k`. */
  function RatingOf<K>(cell: Cell, k: K): Result<Rating, FormatError<K>>
  {
    match AttrOf(cell.ratingValue)
    case None => Err(MissingData(k))
    case Some(scoreText) =>
      if !IsF32Literal(scoreText) then Err(InvalidData(k, scoreText))
      else match AttrOf(cell.ratingCount)
        case None => Err(MissingData(k))
        case Some(countText) =>
          match ParseI32(countText)
          case None => Err(InvalidData(k, countText))
          case Some(count) => Ok(Rating(scoreText, count))
  }

  /**
   * `parse_rating_element`: fills a default rating from the score `div` and
   * then the count `span`, returning at the first problem. A missing element
   * or attribute is `MissingData`; an unparsable attribute is `InvalidData`
   * carrying that attribute's text; the score is looked at before the count.
   */
  method ParseRatingElement<K(==)>(cell: Cell, k: K) returns (r: Result<Rating, FormatError<K>>)
    ensures r == RatingOf(cell, k)
    ensures AttrOf(cell.ratingValue).None? ==> r == Err(MissingData(k))
    ensures AttrOf(cell.ratingValue).Some? && !IsF32Literal(AttrOf(cell.ratingValue).value)
            ==> r == Err(InvalidData(k, AttrOf(cell.ratingValue).value))
    ensures AttrOf(cell.ratingValue).Some? && IsF32Literal(AttrOf(cell.ratingValue).value) ==>
            (AttrOf(cell.ratingCount).None? ==> r == Err(MissingData(k))) &&
            (AttrOf(cell.ratingCount).Some? && ParseI32(AttrOf(cell.ratingCount).value).None?
             ==> r == Err(InvalidData(k, AttrOf(cell.ratingCount).value)))
    ensures r.Ok? <==> AttrOf(cell.ratingValue).Some? && IsF32Literal(AttrOf(cell.ratingValue).value)
                       && AttrOf(cell.ratingCount).Some? && ParseI32(AttrOf(cell.ratingCount).value).Some?
    ensures r.Ok? ==> r.value.score == AttrOf(cell.ratingValue).value
                      && Some(r.value.count) == ParseI32(AttrOf(cell.ratingCount).value)
                      && I32Min <= r.value.count <= I32Max
  {
    var rating := DefaultRating;
    match cell.ratingValue {
      case Some(div) =>
        if div.attr.Some? {
          var scoreText := div.attr.value;
          if IsF32Literal(scoreText) {
            rating := rating.(score := scoreText);
          } else {
            return Err(InvalidData(k, scoreText));
          }
        } else {
          return Err(MissingData(k));
        }
      case None => return Err(MissingData(k));
    }
    match cell.ratingCount {
      case Some(span) =>
        if span.attr.Some? {
          var countText := span.attr.value;
          var count := ParseI32(countText);
          if count.Some? {
            rating := rating.(count := count.value);
          } else {
            return Err(InvalidData(k, countText));
          }
        } else {
          return Err(MissingData(k));
        }
      case None => return Err(MissingData(k));
    }
    return Ok(rating);
  }

  // ---------------------------------------------------------------------------
  // Links: `parse_links`.

  /** The link an anchor with an `href` stands for: its concatenated text and its target. */
  function LinkOf(a: Anchor): Link
    requires a.href.Some?
  {
    Link(Concat(a.texts), a.href.value)
  }

  /**
   * What `parse_links` returns: one link per anchor, in document order, when
   * every anchor has an `href`; `MissingData` of the links kind otherwise.
   */
  function LinksOf<K(==)>(anchors: seq<Anchor>, linksKind: K): (r: Result<seq<Link>, FormatError<K>>)
    ensures r.Ok? <==> forall i :: 0 <= i < |anchors| ==> anchors[i].href.Some?
    ensures r.Err? ==> r.error == MissingData(linksKind)
    ensures r.Ok? ==> |r.value| == |anchors|
                      && forall i :: 0 <= i < |anchors| ==> r.value[i] == LinkOf(anchors[i])
    decreases |anchors|
  {
    if anchors == [] then Ok([])
    else if anchors[0].href.None? then Err(MissingData(linksKind))
    else match LinksOf(anchors[1..], linksKind)
      case Err(e) => Err(e)
      case Ok(rest) => Ok([LinkOf(anchors[0])] + rest)
  }

  /** `parse_links`: pushes one link per anchor and returns at the first anchor without `href`. */
  method ParseLinks<K(==)>(cell: Cell, linksKind: K) returns (r: Result<seq<Link>, FormatError<K>>)
    ensures r == LinksOf(cell.anchors, linksKind)
  {
    var links: seq<Link> := [];
    for i := 0 to |cell.anchors|
      invariant forall j :: 0 <= j < i ==> cell.anchors[j].href.Some?
      invariant |links| == i && forall j :: 0 <= j < i ==> links[j] == LinkOf(cell.anchors[j])
    {
      var anchor := cell.anchors[i];
      if anchor.href.None? {
        return Err(MissingData(linksKind));
      }
      links := links + [Link(Concat(anchor.texts), anchor.href.value)];
    }
    assert links == LinksOf(cell.anchors, linksKind).value;
    return Ok(links);
  }
}
