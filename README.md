# itch.io scraper core, modelled in Dafny

This project models the part of the itch.io scraper that works on data, and
proves properties of that model. The scraper walks the paginated RSS feed of
itch.io game listings. For each listed game it fetches the game page and reads
the page's "more information" table: status, release date, platforms, rating,
authors, genres, tools, tags, session length, languages, inputs, links and
accessibility. It then joins that table with the RSS item into one output
record.

Three pieces are modelled.

- **The current table extractor** (`src/parsers/itch_game_info_parser.rs`).
  Its row fold over the table's label/value rows becomes the module
  `GameInfoParser`. `ItchTableData::from_str` is an exact-string label table
  with singular/plural synonyms. An unknown label skips its row, and a later
  row of a kind overwrites an earlier one. Three errors are modelled:
  `MissingElements`, `MissingData` and `InvalidData`.
- **The older extractor** (`src/parsers/itch_parser.rs`), as `ItchParser`.
  - It runs the same fold, but an unknown label is a hard `UnknownDataType` error and there are no synonyms.
  - The `Updated` and `Published` rows are read from an `abbr` title with chrono format `%d %B %Y @ %H:%M UTC` (module `DateTitles`).
  - On success it returns its input unchanged.
- **The fetch and the crawl** (`src/scrapers/itch_rss_scraper.rs`).
  - `fetch_url` is a retry loop with a delay that doubles from 1 s up to a cap of 300 s (`Fetcher`).
  - `scrape_itch_rss_feed` runs the sequential page loop and item loop, and `combine_itch_rss_and_info_data` builds the record (`RssScraper`).

The two extractors share code written identically in both files:
`parse_rating_element`, `parse_anchor_separated_strings` and `parse_links`.
These live once, in `InfoTable`, and are generic over the extractor's label
enumeration. `Text` holds Rust's `str::trim` and `split`. `Numbers` holds the
`i32` parse and the grammar `f32::from_str` accepts.

**HTML is abstract.** A table row is a sequence of cells. Each cell carries:
- its inner HTML;
- its text nodes in document order;
- the title of its first `abbr`;
- the `content` attributes of the first rating value `div` and rating count `span`;
- its anchors (optional `href`, text).

**Inputs that are not computed here:**
- The network is a transport function. It maps a URL and the number of the request in the crawl to an outcome: a response with a status and an optional body, or a transport failure.
- RSS decoding is a function from a feed body to an optional item list.
- The selection of a game page's table rows is a function from the page to its rows.

**The crawl is imperative.** `FetchUrl`, `ScrapeItems`, `ScrapePage` and
`ScrapeRssFeed` are methods with the source's loops. Each is proved equal to a
recursive specification:
- `Fetch` for the fetch;
- `ItemStep`, `Items`, `PageStep` and `Pages` for the loops;
- `Scrape` for the result.

The crawl's lemmas hold for every page extractor. The methods run the current
one: the row fold `GameInfoParser.GamePageData` applied to the selected rows.

The crawl state records:
- the requests sent;
- the fetches started, each a page fetch or a game-page fetch;
- the delays slept;
- the lines written to standard error;
- the records collected;
- whether a failed fetch has ended the crawl.

The model keeps these choices the code makes:
- **The crawl is sequential.** It has no bounded concurrency.
- **A fetch failure is fatal.** A failed game-page fetch ends the whole scrape; the item is not skipped.
- **Non-error statuses panic.** A response that is neither 200, 429 nor a 4xx/5xx error (for example 204 or 304) reaches `error_for_status().unwrap_err()` and panics. It is modelled as the outcome `Panic`, not as an error value.
- **The older extractor rejects unknown labels.** It does not skip them.
- **A page limit of 0 or less is accepted.** It crawls no pages.

## Model

| member | source | states |
|---|---|---|
| GameInfoParser.FromStr | src/parsers/itch_game_info_parser.rs:71-92 | a string maps to a kind exactly when it is one of that kind's labels (with the Author/Authors, Genre/Genres, Tag/Tags, Language/Languages synonyms); any other string, including case or padding variants, maps to none |
| GameInfoParser.EveryKindHasLabel | src/parsers/itch_game_info_parser.rs:53-92 | each of the 13 kinds is reachable from some label |
| GameInfoParser.ParseGamePageData | src/parsers/itch_game_info_parser.rs:95-150 | the row loop, starting from the default record and returning at the first failing row, computes the row fold `GamePageData` |
| GameInfoParser.EmptyTableGivesDefault | src/parsers/itch_game_info_parser.rs:102 | a table with no rows yields the default record: empty strings, empty lists, rating 0/0 |
| GameInfoParser.BadRowFailsPage | src/parsers/itch_game_info_parser.rs:104-108 | a row without exactly two cells fails the page: with `MissingElements` when the rows before it succeed, with their error otherwise |
| GameInfoParser.UnknownLabelRowIsNeutral | src/parsers/itch_game_info_parser.rs:110-113 | a two-cell row with an unrecognised label leaves the record unchanged and raises no error |
| GameInfoParser.UnknownLabelRowSkipped | src/parsers/itch_game_info_parser.rs:104-113 | removing a row with an unrecognised label from anywhere in the table does not change the result |
| GameInfoParser.NeverUnknownDataType | src/parsers/itch_game_info_parser.rs:110-113 | the current extractor never fails with `UnknownDataType` |
| GameInfoParser.AssignChangesOnlyItsField | src/parsers/itch_game_info_parser.rs:116-146 | a recognised row changes only the field of its kind |
| GameInfoParser.AssignWritesCellValue | src/parsers/itch_game_info_parser.rs:116-146 | status, release date and session receive the trimmed concatenated text; the eight list kinds receive the newline-split list; rating and links succeed exactly when their cell parses and fail with its error |
| GameInfoParser.AssignIgnoresEarlierValue | src/parsers/itch_game_info_parser.rs:116-146 | what a row writes, or the error it raises, does not depend on the record before it |
| GameInfoParser.LastRowOfAKindWins | src/parsers/itch_game_info_parser.rs:116-146 | of two rows of the same kind, the second overwrites the first: applying both equals applying the second alone |
| GameInfoParser.LastRowOfKindDecides | src/parsers/itch_game_info_parser.rs:104-146 | in a whole table that parses, the field of a kind holds what the last row of that kind wrote, whatever rows of other kinds follow it |
| GameInfoParser.FieldsDetermineRecord | src/parsers/itch_game_info_parser.rs:6-21 | the 13 fields addressed by kind are the whole record |
| InfoTable.FoldAppend | src/parsers/itch_game_info_parser.rs:104-149 | folding a table in two parts equals folding the first part and continuing from its record, or stopping at its error |
| InfoTable.FoldStopsAtFailingRow | src/parsers/itch_game_info_parser.rs:104-147 | the first failing row's error is the table's error, whatever follows |
| InfoTable.FoldSkipsNeutralRow | src/parsers/itch_game_info_parser.rs:110-113 | a row that changes no record can be removed from the table |
| InfoTable.TrimmedText | src/parsers/itch_game_info_parser.rs:118 | the value is the cell's text nodes concatenated in order and then trimmed, so it has no leading or trailing white space |
| InfoTable.AnchorSeparatedStrings | src/parsers/itch_game_info_parser.rs:212-218 | every entry is trimmed, non-empty and not ","; there are at most as many entries as newline-separated pieces |
| InfoTable.AnchorSeparatedStringsAppend | src/parsers/itch_game_info_parser.rs:212-218 | the entries of a cell are those of its first text nodes followed by those of the rest, so order is kept |
| InfoTable.AnchorSeparatedStringsOfEntries | src/parsers/itch_game_info_parser.rs:212-218 | text nodes that are already clean single-line entries come out unchanged, in order and with duplicates kept |
| InfoTable.CommaSeparatedAnchors | src/parsers/itch_game_info_parser.rs:212-218 | two anchors separated by a ", " text node give exactly the two anchor texts |
| InfoTable.KeepEntries | src/parsers/itch_game_info_parser.rs:216 | the filter keeps only entries and never lengthens the list |
| InfoTable.EntryOf | src/parsers/itch_game_info_parser.rs:215-216 | a piece yields its trimmed form when that is neither empty nor ",", and nothing otherwise; an entry that is already trimmed is kept as it is |
| InfoTable.ParseRatingElement | src/parsers/itch_game_info_parser.rs:162-210 | the score is checked before the count; a missing value `div` or count `span` or `content` attribute gives `MissingData`; an unparsable score or an unparsable i32 count gives `InvalidData` with the attribute text; success holds exactly when both parse, with the count in i32 range (the same code is src/parsers/itch_parser.rs:187-235) |
| InfoTable.LinksOf | src/parsers/itch_game_info_parser.rs:220-241 | links are produced exactly when every anchor has an `href`; then there is one `{name, url}` per anchor in order (none for no anchors); otherwise `MissingData(Links)` |
| InfoTable.ParseLinks | src/parsers/itch_game_info_parser.rs:220-241 | the push loop computes `LinksOf` (the same code is src/parsers/itch_parser.rs:245-266) |
| Text.Trim | src/parsers/itch_game_info_parser.rs:215 | the result is the stretch of the input that starts right after its longest white-space prefix and is followed only by white space; it has no leading or trailing Unicode white space, is empty exactly when the input is all white space, and leaves a trimmed string unchanged |
| Text.TrimIdempotent | src/parsers/itch_game_info_parser.rs:215 | trimming twice equals trimming once |
| Text.Split | src/parsers/itch_game_info_parser.rs:214 | splitting gives at least one piece, none holding the separator |
| Text.JoinSplit | src/parsers/itch_game_info_parser.rs:214 | joining the pieces with the separator gives back the input |
| Text.SplitJoin | src/parsers/itch_game_info_parser.rs:214 | splitting the join of separator-free pieces gives back the pieces |
| Numbers.ParseFormattedI32 | src/parsers/itch_game_info_parser.rs:193 | every i32 value written in decimal parses back to itself |
| Numbers.ParseI32 | src/parsers/itch_game_info_parser.rs:193 | a parsed count lies in the i32 range |
| Numbers.ParseI32OfSignAndDigits | src/parsers/itch_game_info_parser.rs:193 | an optional `+` or `-` followed by any digits, leading zeros included, is read as its signed decimal value and accepted exactly when that value fits in 32 bits (`+5` is 5, `007` is 7, `-0` is 0) |
| Numbers.ParsedI32IsSignAndDigits | src/parsers/itch_game_info_parser.rs:193 | only an optional sign followed by decimal digits parses as i32 |
| Numbers.IsF32Literal | src/parsers/itch_game_info_parser.rs:174 | the empty string, a lone sign and a lone point are refused as scores; every non-empty string of decimal digits is accepted |
| Numbers.IntegerIsF32Literal | src/parsers/itch_game_info_parser.rs:174 | every integer rendering is accepted as a score |
| ItchParser.FromStr | src/parsers/itch_parser.rs:131-148 | a string maps to a kind exactly when it is that kind's single label: 13 labels, no synonyms |
| ItchParser.OlderLabelsKnownToCurrent | src/parsers/itch_parser.rs:131-148 | every older label other than "Updated" and "Published" is recognised by the current extractor, as the corresponding kind (Author as Authors, Genre as Genres, the others as themselves) |
| ItchParser.ParseItchData | src/parsers/itch_parser.rs:53-111 | the row loop succeeds exactly when the row fold does, then returns the input HTML unchanged, and otherwise fails with the fold's error |
| ItchParser.UnknownLabelFailsPage | src/parsers/itch_parser.rs:66 | an unrecognised label fails the page with `UnknownDataType` carrying the label cell's inner HTML, when the rows before it succeed |
| ItchParser.UnknownRowPolicies | src/parsers/itch_parser.rs:151-159 | for a label neither extractor knows, the current one yields the default record and the older one fails with `UnknownDataType` |
| ItchParser.BadRowFails | src/parsers/itch_parser.rs:61-64 | a row without exactly two cells gives `MissingElements` |
| ItchParser.RowErrorFailsPage | src/parsers/itch_parser.rs:60-106 | a row that fails fails the page: with its own error when the rows before it succeed, with theirs otherwise |
| ItchParser.ParseDateElement | src/parsers/itch_parser.rs:161-185 | no `abbr` or no title gives `MissingData`; a title that does not parse gives `InvalidData` with the title; a title that parses gives `Ok` with the date it parses to, which is a valid calendar date whose title is the one read |
| ItchParser.BadDateRowFails | src/parsers/itch_parser.rs:70-75 | a date row whose cell fails fails the row with that error |
| ItchParser.AssignWritesCellValue | src/parsers/itch_parser.rs:69-105 | status, author, genre, tool and session receive the trimmed text; platforms, tags, languages and inputs the split list; the dates their parsed value; rating and links succeed exactly when their cell parses |
| ItchParser.AssignChangesOnlyItsField | src/parsers/itch_parser.rs:69-105 | a recognised row changes only the field of its kind |
| DateTitles.ParseFormattedTitle | src/parsers/itch_parser.rs:170 | every valid date and time, written as `%d %B %Y @ %H:%M UTC`, parses back to itself |
| DateTitles.ParseDateTitle | src/parsers/itch_parser.rs:170 | a title that parses is valid and is exactly the rendering of its date |
| DateTitles.FindMonthOfName | src/parsers/itch_parser.rs:170 | the month of a title is found from its full English name |
| DateTitles.MonthPrefixUnique | src/parsers/itch_parser.rs:170 | no month name followed by a space begins another month's title |
| Fetcher.FetchUrl | src/scrapers/itch_rss_scraper.rs:109-141 | the retry loop computes `Fetch`: the result, the number of requests and the delays slept |
| Fetcher.FetchBounds | src/scrapers/itch_rss_scraper.rs:110-138 | a fetch sends between 1 and `max_retries + 1` requests and sleeps once before each request after the first |
| Fetcher.FetchExplained | src/scrapers/itch_rss_scraper.rs:113-140 | every request but the last was answered by 429 or a transport failure; the result is decided by the last answer; a retryable last answer means the retry budget was spent |
| Fetcher.FetchSleeps | src/scrapers/itch_rss_scraper.rs:111-136 | the k-th delay (from 0) is `min(300, 2^k)` seconds, so every delay lies in [1, 300] |
| Fetcher.SleepsAreBackoff | src/scrapers/itch_rss_scraper.rs:124-136 | the delays follow the doubling with cap from the current delay |
| Fetcher.FirstAnswerOk | src/scrapers/itch_rss_scraper.rs:118 | a 200 with a body returns that body after one request and no sleep |
| Fetcher.NonRetryableStopsAtOnce | src/scrapers/itch_rss_scraper.rs:117-128 | a status other than 429 ends the fetch after one request: 200 without a readable body is a body-read error, 4xx/5xx a status error, anything else a panic |
| Fetcher.RetriesExhausted | src/scrapers/itch_rss_scraper.rs:119-138 | when every answer is retryable, the fetch sends `max_retries + 1` requests and returns the last error, a 429 status or a transport failure |
| Fetcher.SucceedsAfterRetries | src/scrapers/itch_rss_scraper.rs:113-138 | k retryable answers followed by a 200, with k within the budget, give the body after k + 1 requests |
| RssScraper.ScrapeRssFeed | src/scrapers/itch_rss_scraper.rs:62-107 | the page loop computes the crawl `Pages` up to the page limit and returns `Scrape`: the collected records, or the failure of the fetch that ended it |
| RssScraper.ScrapePage | src/scrapers/itch_rss_scraper.rs:79-103 | one page iteration computes `PageStep` |
| RssScraper.ScrapeItems | src/scrapers/itch_rss_scraper.rs:85-95 | the item loop computes `Items`, stopping at the first failed fetch |
| RssScraper.PageExtractorExtracts | src/scrapers/itch_rss_scraper.rs:87 | the methods' game-page extractor is the current extractor's row fold over the selected rows |
| RssScraper.NoPagesNoRequests | src/scrapers/itch_rss_scraper.rs:79 | a page limit of 0 or less sends no request and returns no records |
| RssScraper.PagesInOrder | src/scrapers/itch_rss_scraper.rs:79-81 | the feed pages fetched are 1, 2, 3, … in order, each once, from `url + "?page=" + n`; all pages up to the limit unless a fetch failed |
| RssScraper.NumberedPagesAt | src/scrapers/itch_rss_scraper.rs:80 | the i-th feed fetch is of page i + 1 |
| RssScraper.PageStepPages | src/scrapers/itch_rss_scraper.rs:79-103 | a page of a running crawl adds exactly its own feed fetch to the page fetches |
| RssScraper.StoppedStaysStopped | src/scrapers/itch_rss_scraper.rs:81-86 | once a fetch has failed the crawl changes no more, and the scrape returns that failure |
| RssScraper.FailedFeedFetchEndsScrape | src/scrapers/itch_rss_scraper.rs:81 | a feed page that cannot be fetched fails the whole scrape with that failure |
| RssScraper.FailedGameFetchEndsCrawl | src/scrapers/itch_rss_scraper.rs:86 | a game page that cannot be fetched stops the crawl with that failure |
| RssScraper.BadFeedSkipsPage | src/scrapers/itch_rss_scraper.rs:83-99 | a feed page that does not decode is reported and skipped, and the crawl goes on |
| RssScraper.BadGamePageSkipsItem | src/scrapers/itch_rss_scraper.rs:87-93 | a game page whose table fails is reported with its error, adds no record, and the crawl goes on |
| RssScraper.GoodGamePageJoined | src/scrapers/itch_rss_scraper.rs:87-90 | a game page whose table parses adds exactly its join with the item to the output |
| RssScraper.PagesOrdered | src/scrapers/itch_rss_scraper.rs:85-94 | the output records' links are the fetched game-page links with some left out, in fetch order |
| RssScraper.OutputBounded | src/scrapers/itch_rss_scraper.rs:85-94 | there is at most one record per game page fetched |
| RssScraper.PagesAccounted | src/scrapers/itch_rss_scraper.rs:81-86 | every request sent is a fetch's first request or follows one of the sleeps, and every sleep lasts 1 to 300 seconds |
| RssScraper.ItemsKeepPages | src/scrapers/itch_rss_scraper.rs:85-95 | the item loop fetches no feed page and keeps the output ordered |
| RssScraper.Combine | src/scrapers/itch_rss_scraper.rs:143-167 | the table and the item, except its guid, can both be read back from the record |
| RssScraper.CombineInjective | src/scrapers/itch_rss_scraper.rs:143-167 | two records are equal exactly when their tables are equal and their items agree apart from the guid |

## Left out

- HTML parsing and CSS selection (`Html::parse_document`, `Selector`, `inner_html`, `text()`). A game page's rows come from a selection function, and cells are abstract values.
- RSS/XML deserialisation (`quick_xml::de::from_str`) is the function `Env.decode`. Its schema and the serde derives are not part of this model.
- InfoTable.ParseRatingElement: the score is kept as its text, not as an `f32`. Its acceptance follows the literal grammar of `f32::from_str` (sign, `inf`, `infinity`, `nan`, decimal with optional exponent); the floating-point value is not modelled.
- DateTitles.ParseDateTitle accepts only the canonical rendering: two-digit day, hour and minute, four-digit year, the full English month name. chrono's leniency is not modelled: single-digit fields, abbreviated or case-varied month names, white-space handling and years beyond four digits. So some titles chrono accepts are `InvalidData` here.
- Fetcher.FetchUrl: the delay is a natural number of seconds; the wall-clock sleep, the tokio timer and the `u64` width of the delay are not modelled. The transport's answers are numbered by request, not tied to time.
- Networking (reqwest): connection handling, redirects and the content of error values. A transport failure, a status error, a body-read error and a panic are the outcomes kept.
- Logging and the progress bar: the `eprintln!` reports are recorded as `Report` values, and the message text is left out. `ProgressBar::new(page_limit as u64)` (which wraps a negative limit) and its ticks are left out.
- The older extractor's `println!` of the record is left out; its record is computed and discarded, as in the source.
- `src/main.rs` (command line, output to file or standard output) is not part of this model. Neither is `src/scrapers/itch_scraper.rs`, the concurrent scraper with no retry.
