/**
 * `scrape_itch_rss_feed` and `combine_itch_rss_and_info_data`
 * (src/scrapers/itch_rss_scraper.rs): walk the RSS pages 1 to the page
 * limit, fetch every listed game page, extract its information table, and
 * join it with the RSS item into one output record.
 *
 * The XML decoding of a feed (`Env.decode`) and the network
 * (`Env.transport`) are parameters of the crawl, and so is the HTML
 * selection of a game page's table rows. The crawl is specified for any
 * page extractor; the methods run it with the current extractor's row fold
 * (`PageExtractor`). The crawl's effects — the fetches it starts, the delays
 * it sleeps, the errors it reports on standard error — are recorded in its
 * state.
 */
module RssScraper {
  import opened Results
  import opened InfoTable
  import opened Numbers
  import opened Fetcher
  import GameInfoParser

  /** One `<item>` of the feed. */
  datatype Item = Item(
    guid: string,
    title: string,
    plainTitle: string,
    link: string,
    price: string,
    description: string,
    pubDate: string,
    createDate: string,
    updateDate: string)

  /** The output record: an RSS item without its guid, joined with the game's table. */
  datatype Record = Record(
    title: string,
    plainTitle: string,
    link: string,
    createDate: string,
    updateDate: string,
    releaseDate: string,
    pubDate: string,
    price: string,
    description: string,
    rating: InfoTable.Rating,
    authors: seq<string>,
    genres: seq<string>,
    madeWith: seq<string>,
    tags: seq<string>,
    averageSession: string,
    languages: seq<string>,
    inputs: seq<string>,
    links: seq<Link>,
    status: string,
    platforms: seq<string>,
    accessibility: seq<string>)

  /**
   * `combine_itch_rss_and_info_data`: every field from one of the two
   * sources, so joining loses nothing but the guid: the table and the item
   * can both be read back from the record.
   */
  function Combine(table: GameInfoParser.MoreInfoTableData, item: Item): (r: Record)
    ensures TableOf(r) == table
    ensures ItemOf(r, item.guid) == item
  {
    Record(
      item.title, item.plainTitle, item.link, item.createDate, item.updateDate,
      table.releaseDate, item.pubDate, item.price, item.description,
      table.rating, table.authors, table.genres, table.madeWith, table.tags,
      table.averageSession, table.languages, table.inputs, table.links,
      table.status, table.platforms, table.accessibility)
  }

  /** The table the record was joined from. */
  function TableOf(r: Record): GameInfoParser.MoreInfoTableData
  {
    GameInfoParser.MoreInfoTableData(
      r.status, r.releaseDate, r.platforms, r.rating, r.authors, r.genres,
      r.madeWith, r.tags, r.averageSession, r.languages, r.inputs, r.links,
      r.accessibility)
  }

  /** The item the record was joined from, given its guid. */
  function ItemOf(r: Record, guid: string): Item
  {
    Item(guid, r.title, r.plainTitle, r.link, r.price, r.description,
         r.pubDate, r.createDate, r.updateDate)
  }

  /** So two joins agree exactly when their tables agree and their items agree apart from the guid. */
  lemma CombineInjective(t1: GameInfoParser.MoreInfoTableData, i1: Item, t2: GameInfoParser.MoreInfoTableData, i2: Item)
    ensures Combine(t1, i1) == Combine(t2, i2) <==> t1 == t2 && i1.(guid := "") == i2.(guid := "")
  {
    if Combine(t1, i1) == Combine(t2, i2) {
      assert ItemOf(Combine(t1, i1), "") == ItemOf(Combine(t2, i2), "");
    }
  }

  // ---------------------------------------------------------------------------
  // The crawl.

  /** Everything the crawl depends on but does not compute. */
  datatype Env = Env(
    url: string,
    maxRetries: nat,
    transport: Transport,
    decode: string -> Option<seq<Item>>)   // `quick_xml::de::from_str::<Rss>`, to the channel's items

  /** What a game page yields: its information table, or why it has none. */
  type Extractor = string -> Result<GameInfoParser.MoreInfoTableData, GameInfoParser.Error>

  /**
   * `parse_itch_game_page_data`: the row fold of the current extractor over
   * the rows that `select` finds in the page's information table.
   */
  function PageExtractor(select: string -> seq<Row>): Extractor
  {
    html => GameInfoParser.GamePageData(select(html))
  }

  /** `ex` extracts as `parse_itch_game_page_data` does from the rows `select` finds. */
  ghost predicate ExtractsWith(ex: Extractor, select: string -> seq<Row>)
  {
    forall html {:trigger select(html)} :: ex(html) == GameInfoParser.GamePageData(select(html))
  }

  /** `PageExtractor(select)` is such an extractor. */
  lemma PageExtractorExtracts(select: string -> seq<Row>)
    ensures ExtractsWith(PageExtractor(select), select)
  {
  }

  /** The fetches the crawl starts, in order. */
  datatype FetchCall = PageFetch(page: int, url: string) | ItemFetch(url: string)

  /** The lines written to standard error. */
  datatype Report = BadFeed(feedUrl: string) | BadGamePage(link: string, error: GameInfoParser.Error)

  datatype Progress = Running | Stopped(failure: Fetched)

  /**
   * The crawl so far: requests sent (which numbers the next one), fetches
   * started, delays slept, reports written, records collected, and whether
   * a failed fetch has ended it.
   */
  datatype Crawl = Crawl(
    requests: nat,
    calls: seq<FetchCall>,
    sleeps: seq<nat>,
    reports: seq<Report>,
    output: seq<Record>,
    progress: Progress)

  function Start(): Crawl
  {
    Crawl(0, [], [], [], [], Running)
  }

  /** `format!("{}?page={}", url, page)`. */
  function PageUrl(url: string, page: int): string
  {
    url + "?page=" + FormatInt(page)
  }

  /** The crawl after one fetch of `url`, logged as `call`: its requests and sleeps added, and a failure ending it. */
  function AfterFetch(st: Crawl, call: FetchCall, run: FetchRun): Crawl
  {
    var st' := st.(requests := st.requests + run.attempts, calls := st.calls + [call],
                   sleeps := st.sleeps + run.sleeps);
    if run.result.Body? then st' else st'.(progress := Stopped(run.result))
  }

  /** One iteration of the item loop: fetch the game page, extract, join or report. */
  function ItemStep(env: Env, ex: Extractor, st: Crawl, item: Item): Crawl
  {
    if st.progress.Stopped? then st
    else
      var run := Fetch(env.transport, item.link, st.requests, env.maxRetries);
      var st' := AfterFetch(st, ItemFetch(item.link), run);
      if !run.result.Body? then st'
      else match ex(run.result.text)
        case Ok(data) => st'.(output := st'.output + [Combine(data, item)])
        case Err(e) => st'.(reports := st'.reports + [BadGamePage(item.link, e)])
  }

  /** The item loop over `items`, in order. */
  function Items(env: Env, ex: Extractor, st: Crawl, items: seq<Item>): Crawl
    decreases |items|
  {
    if items == [] then st
    else ItemStep(env, ex, Items(env, ex, st, items[..|items| - 1]), items[|items| - 1])
  }

  /** One iteration of the page loop: fetch the feed page, decode it, walk its items or report. */
  function PageStep(env: Env, ex: Extractor, st: Crawl, page: int): Crawl
  {
    if st.progress.Stopped? then st
    else
      var feedUrl := PageUrl(env.url, page);
      var run := Fetch(env.transport, feedUrl, st.requests, env.maxRetries);
      var st' := AfterFetch(st, PageFetch(page, feedUrl), run);
      if !run.result.Body? then st'
      else match env.decode(run.result.text)
        case Some(items) => Items(env, ex, st', items)
        case None => st'.(reports := st'.reports + [BadFeed(feedUrl)])
  }

  /** The crawl after pages 1 to `k` (none when `k <= 0`). */
  function Pages(env: Env, ex: Extractor, k: int): Crawl
    decreases k
  {
    if k <= 0 then Start() else PageStep(env, ex, Pages(env, ex, k - 1), k)
  }

  /** What `scrape_itch_rss_feed` returns: the records, or the failure of the fetch that ended it. */
  function Scrape(env: Env, ex: Extractor, pageLimit: int): Result<seq<Record>, Fetched>
  {
    var st := Pages(env, ex, pageLimit);
    match st.progress
    case Running => Ok(st.output)
    case Stopped(failure) => Err(failure)
  }

  /**
   * The inner loop of `scrape_itch_rss_feed`, over the items of one feed
   * page; it ends early, stopped, when a game page cannot be fetched.
   */
  method ScrapeItems(env: Env, select: string -> seq<Row>, ghost ex: Extractor, start: Crawl, items: seq<Item>)
    returns (crawl: Crawl)
    requires ExtractsWith(ex, select) && start.progress.Running?
    ensures crawl == Items(env, ex, start, items)
  {
    crawl := start;
    for j := 0 to |items|
      invariant crawl == Items(env, ex, start, items[..j]) && crawl.progress.Running?
    {
      assert items[..j + 1][..j] == items[..j];
      var item := items[j];
      var game := FetchUrl(env.transport, item.link, crawl.requests, env.maxRetries);
      crawl := AfterFetch(crawl, ItemFetch(item.link), game);
      if !game.result.Body? {
        ItemsStoppedStaysStopped(env, ex, start, items, j + 1);
        assert items[..|items|] == items;
        return;
      }
      var data := GameInfoParser.ParseGamePageData(select(game.result.text));
      match data {
        case Ok(table) => crawl := crawl.(output := crawl.output + [Combine(table, item)]);
        case Err(e) => crawl := crawl.(reports := crawl.reports + [BadGamePage(item.link, e)]);
      }
    }
    assert items[..|items|] == items;
  }

  /** One iteration of the page loop of `scrape_itch_rss_feed`. */
  method ScrapePage(env: Env, select: string -> seq<Row>, ghost ex: Extractor, start: Crawl, page: int)
    returns (crawl: Crawl)
    requires ExtractsWith(ex, select) && start.progress.Running?
    ensures crawl == PageStep(env, ex, start, page)
  {
    var feedUrl := PageUrl(env.url, page);
    var run := FetchUrl(env.transport, feedUrl, start.requests, env.maxRetries);
    crawl := AfterFetch(start, PageFetch(page, feedUrl), run);
    if run.result.Body? {
      match env.decode(run.result.text) {
        case Some(items) =>
          crawl := ScrapeItems(env, select, ex, crawl, items);
        case None =>
          crawl := crawl.(reports := crawl.reports + [BadFeed(feedUrl)]);
      }
    }
  }

  /**
   * `scrape_itch_rss_feed(url, max_retries, page_limit)`: pages 1 to
   * `pageLimit`, ending at the first fetch that fails; returns the result
   * and the crawl it performed.
   */
  method ScrapeRssFeed(env: Env, select: string -> seq<Row>, ghost ex: Extractor, pageLimit: int)
    returns (r: Result<seq<Record>, Fetched>, crawl: Crawl)
    requires ExtractsWith(ex, select)
    ensures crawl == Pages(env, ex, pageLimit)
    ensures r == Scrape(env, ex, pageLimit)
  {
    crawl := Start();
    var page := 1;
    while page <= pageLimit
      invariant 1 <= page <= (if pageLimit >= 1 then pageLimit + 1 else 1)
      invariant crawl == Pages(env, ex, page - 1) && crawl.progress.Running?
    {
      crawl := ScrapePage(env, select, ex, crawl, page);
      assert crawl == Pages(env, ex, page);
      if crawl.progress.Stopped? {
        StoppedStaysStopped(env, ex, page, pageLimit);
        return Err(crawl.progress.failure), crawl;
      }
      page := page + 1;
    }
    if pageLimit < 1 {
      assert Pages(env, ex, pageLimit) == Start();
    } else {
      assert page - 1 == pageLimit;
    }
    return Ok(crawl.output), crawl;
  }

  // ---------------------------------------------------------------------------
  // Properties of the crawl.

  /** Once a fetch has failed, the remaining items change nothing. */
  lemma {:induction false} ItemsKeepStopped(env: Env, ex: Extractor, st: Crawl, items: seq<Item>)
    requires st.progress.Stopped?
    ensures Items(env, ex, st, items) == st
    decreases |items|
  {
    if items != [] {
      ItemsKeepStopped(env, ex, st, items[..|items| - 1]);
    }
  }

  /** Running only stops, never restarts: a stopped prefix of the items decides the whole item loop. */
  lemma {:induction false} ItemsStoppedStaysStopped(env: Env, ex: Extractor, st: Crawl, items: seq<Item>, j: nat)
    requires j <= |items| && Items(env, ex, st, items[..j]).progress.Stopped?
    ensures Items(env, ex, st, items) == Items(env, ex, st, items[..j])
    decreases |items| - j
  {
    if j < |items| {
      assert items[..j + 1][..j] == items[..j];
      ItemsStoppedStaysStopped(env, ex, st, items, j + 1);
    } else {
      assert items[..j] == items;
    }
  }

  /** Once a fetch has failed, the later pages are never requested and the crawl is final. */
  lemma {:induction false} StoppedStaysStopped(env: Env, ex: Extractor, k: int, k': int)
    requires k <= k' && Pages(env, ex, k).progress.Stopped?
    ensures Pages(env, ex, k') == Pages(env, ex, k)
    ensures Scrape(env, ex, k') == Err(Pages(env, ex, k).progress.failure)
    decreases k' - k
  {
    if k < k' {
      StoppedStaysStopped(env, ex, k, k' - 1);
    }
  }

  /** A page limit of 0 or less fetches nothing and returns no records. */
  lemma NoPagesNoRequests(env: Env, ex: Extractor, pageLimit: int)
    requires pageLimit <= 0
    ensures Pages(env, ex, pageLimit).calls == [] && Pages(env, ex, pageLimit).requests == 0
    ensures Scrape(env, ex, pageLimit) == Ok([])
  {
  }

  /** The number of requests sent counts every fetch once and every sleep once more. */
  predicate Accounted(st: Crawl)
  {
    st.requests == |st.calls| + |st.sleeps| && (forall i :: 0 <= i < |st.sleeps| ==> 1 <= st.sleeps[i] <= MaxDelay)
  }

  lemma AfterFetchAccounted(st: Crawl, call: FetchCall, t: Transport, url: string, maxRetries: nat)
    requires Accounted(st)
    ensures Accounted(AfterFetch(st, call, Fetch(t, url, st.requests, maxRetries)))
  {
    var run := Fetch(t, url, st.requests, maxRetries);
    FetchBounds(t, url, st.requests, maxRetries, 0, 1);
    forall k | 0 <= k < |run.sleeps|
      ensures 1 <= run.sleeps[k] <= MaxDelay
    {
      FetchSleeps(t, url, st.requests, maxRetries, k);
    }
  }

  lemma {:induction false} ItemsAccounted(env: Env, ex: Extractor, st: Crawl, items: seq<Item>)
    requires Accounted(st)
    ensures Accounted(Items(env, ex, st, items))
    decreases |items|
  {
    if items != [] {
      var prev := Items(env, ex, st, items[..|items| - 1]);
      ItemsAccounted(env, ex, st, items[..|items| - 1]);
      if prev.progress.Running? {
        AfterFetchAccounted(prev, ItemFetch(items[|items| - 1].link), env.transport, items[|items| - 1].link, env.maxRetries);
      }
    }
  }

  /**
   * Every fetch costs one request plus one per retry, and every sleep
   * between retries lasts 1 to 300 seconds, throughout the crawl.
   */
  lemma {:induction false} PagesAccounted(env: Env, ex: Extractor, k: int)
    ensures Accounted(Pages(env, ex, k))
    decreases k
  {
    if k > 0 {
      PagesAccounted(env, ex, k - 1);
      PageStepAccounted(env, ex, Pages(env, ex, k - 1), k);
    }
  }

  lemma PageStepAccounted(env: Env, ex: Extractor, st: Crawl, k: int)
    requires Accounted(st)
    ensures Accounted(PageStep(env, ex, st, k))
  {
    if st.progress.Running? {
      var feedUrl := PageUrl(env.url, k);
      var run := Fetch(env.transport, feedUrl, st.requests, env.maxRetries);
      AfterFetchAccounted(st, PageFetch(k, feedUrl), env.transport, feedUrl, env.maxRetries);
      var st' := AfterFetch(st, PageFetch(k, feedUrl), run);
      if run.result.Body? && env.decode(run.result.text).Some? {
        ItemsAccounted(env, ex, st', env.decode(run.result.text).value);
      }
    }
  }

  /** The feed pages among the fetches, in order. */
  function PageCalls(calls: seq<FetchCall>): seq<FetchCall>
    decreases |calls|
  {
    if calls == [] then []
    else if calls[|calls| - 1].PageFetch? then PageCalls(calls[..|calls| - 1]) + [calls[|calls| - 1]]
    else PageCalls(calls[..|calls| - 1])
  }

  /** The links of the game pages among the fetches, in order. */
  function ItemLinks(calls: seq<FetchCall>): seq<string>
    decreases |calls|
  {
    if calls == [] then []
    else if calls[|calls| - 1].ItemFetch? then ItemLinks(calls[..|calls| - 1]) + [calls[|calls| - 1].url]
    else ItemLinks(calls[..|calls| - 1])
  }

  /** The links of the output records, in order. */
  function OutputLinks(output: seq<Record>): (links: seq<string>)
    ensures |links| == |output| && forall i :: 0 <= i < |output| ==> links[i] == output[i].link
    decreases |output|
  {
    if output == [] then [] else OutputLinks(output[..|output| - 1]) + [output[|output| - 1].link]
  }

  /** `xs` is `ys` with some elements left out. */
  predicate IsSubsequence(xs: seq<string>, ys: seq<string>)
    decreases |ys|
  {
    xs == [] ||
    (ys != [] &&
     ((xs[|xs| - 1] == ys[|ys| - 1] && IsSubsequence(xs[..|xs| - 1], ys[..|ys| - 1])) ||
      IsSubsequence(xs, ys[..|ys| - 1])))
  }

  lemma {:induction false} SubsequenceNoLonger(xs: seq<string>, ys: seq<string>)
    requires IsSubsequence(xs, ys)
    ensures |xs| <= |ys|
    decreases |ys|
  {
    if xs != [] {
      if xs[|xs| - 1] == ys[|ys| - 1] && IsSubsequence(xs[..|xs| - 1], ys[..|ys| - 1]) {
        SubsequenceNoLonger(xs[..|xs| - 1], ys[..|ys| - 1]);
      } else {
        SubsequenceNoLonger(xs, ys[..|ys| - 1]);
      }
    }
  }

  /** Records are joined only for game pages that were fetched, and in the order they were fetched. */
  predicate Ordered(st: Crawl)
  {
    IsSubsequence(OutputLinks(st.output), ItemLinks(st.calls))
  }

  /** Skipping a fetched link keeps a subsequence a subsequence. */
  lemma SubsequenceSkip(xs: seq<string>, ys: seq<string>, y: string)
    requires IsSubsequence(xs, ys)
    ensures IsSubsequence(xs, ys + [y])
  {
    assert (ys + [y])[..|ys + [y]| - 1] == ys;
  }

  /** Taking a fetched link on both sides keeps a subsequence a subsequence. */
  lemma SubsequenceTake(xs: seq<string>, ys: seq<string>, y: string)
    requires IsSubsequence(xs, ys)
    ensures IsSubsequence(xs + [y], ys + [y])
  {
    assert (ys + [y])[..|ys + [y]| - 1] == ys;
    assert (xs + [y])[..|xs + [y]| - 1] == xs;
  }

  /** A game page fetch adds no feed page fetch. */
  lemma ItemStepKeepsPages(env: Env, ex: Extractor, st: Crawl, item: Item)
    ensures PageCalls(ItemStep(env, ex, st, item).calls) == PageCalls(st.calls)
  {
    if st.progress.Running? {
      var calls := ItemStep(env, ex, st, item).calls;
      assert calls == st.calls + [ItemFetch(item.link)];
      assert calls[..|calls| - 1] == st.calls;
    }
  }

  /** A game page adds its link to the fetches, and at most a record with that link to the output. */
  lemma ItemStepKeepsOrder(env: Env, ex: Extractor, st: Crawl, item: Item)
    requires Ordered(st)
    ensures Ordered(ItemStep(env, ex, st, item))
  {
    if st.progress.Running? {
      var next := ItemStep(env, ex, st, item);
      assert next.calls == st.calls + [ItemFetch(item.link)];
      assert next.calls[..|next.calls| - 1] == st.calls;
      assert ItemLinks(next.calls) == ItemLinks(st.calls) + [item.link];
      if next.output == st.output {
        SubsequenceSkip(OutputLinks(st.output), ItemLinks(st.calls), item.link);
      } else {
        var out := next.output;
        assert out[..|out| - 1] == st.output && out[|out| - 1].link == item.link;
        assert OutputLinks(out) == OutputLinks(st.output) + [item.link];
        SubsequenceTake(OutputLinks(st.output), ItemLinks(st.calls), item.link);
      }
    }
  }

  lemma {:induction false} ItemsKeepPages(env: Env, ex: Extractor, st: Crawl, items: seq<Item>)
    ensures PageCalls(Items(env, ex, st, items).calls) == PageCalls(st.calls)
    ensures Ordered(st) ==> Ordered(Items(env, ex, st, items))
    decreases |items|
  {
    if items != [] {
      ItemsKeepPages(env, ex, st, items[..|items| - 1]);
      ItemStepKeepsPages(env, ex, Items(env, ex, st, items[..|items| - 1]), items[|items| - 1]);
      if Ordered(st) {
        ItemStepKeepsOrder(env, ex, Items(env, ex, st, items[..|items| - 1]), items[|items| - 1]);
      }
    }
  }

  /** `pages` are the fetches of feed pages 1, 2, … `|pages|`, in order, each from its `?page=` URL. */
  predicate NumberedPages(pages: seq<FetchCall>, url: string)
    decreases |pages|
  {
    pages == [] ||
    (NumberedPages(pages[..|pages| - 1], url) && pages[|pages| - 1] == PageFetch(|pages|, PageUrl(url, |pages|)))
  }

  /** So the `i`-th of them fetches page `i + 1` from its URL. */
  lemma {:induction false} NumberedPagesAt(pages: seq<FetchCall>, url: string, i: nat)
    requires NumberedPages(pages, url) && i < |pages|
    ensures pages[i] == PageFetch(i + 1, PageUrl(url, i + 1))
    decreases |pages|
  {
    if i < |pages| - 1 {
      NumberedPagesAt(pages[..|pages| - 1], url, i);
    }
  }

  /** A page of a running crawl adds exactly its own feed fetch to the pages fetched, and keeps the order. */
  lemma PageStepPages(env: Env, ex: Extractor, st: Crawl, k: int)
    requires st.progress.Running?
    ensures PageCalls(PageStep(env, ex, st, k).calls) == PageCalls(st.calls) + [PageFetch(k, PageUrl(env.url, k))]
    ensures Ordered(st) ==> Ordered(PageStep(env, ex, st, k))
  {
    var feedUrl := PageUrl(env.url, k);
    var run := Fetch(env.transport, feedUrl, st.requests, env.maxRetries);
    var st' := AfterFetch(st, PageFetch(k, feedUrl), run);
    assert st'.calls[..|st'.calls| - 1] == st.calls;
    assert ItemLinks(st'.calls) == ItemLinks(st.calls);
    if run.result.Body? && env.decode(run.result.text).Some? {
      ItemsKeepPages(env, ex, st', env.decode(run.result.text).value);
    }
  }

  /** After `m` pages: pages 1 to `m` fetched in order, or fewer when a fetch failed. */
  predicate PagesSoFar(st: Crawl, url: string, m: int)
  {
    var pages := PageCalls(st.calls);
    NumberedPages(pages, url) && |pages| <= (if m <= 0 then 0 else m)
    && (st.progress.Running? ==> |pages| == (if m <= 0 then 0 else m))
  }

  lemma PageStepKeepsPagesSoFar(env: Env, ex: Extractor, st: Crawl, k: int)
    requires k >= 1 && PagesSoFar(st, env.url, k - 1)
    ensures PagesSoFar(PageStep(env, ex, st, k), env.url, k)
  {
    if st.progress.Running? {
      PageStepPages(env, ex, st, k);
      var pages := PageCalls(PageStep(env, ex, st, k).calls);
      assert pages[..|pages| - 1] == PageCalls(st.calls);
    }
  }

  /**
   * The feed pages are fetched as 1, 2, 3, … with their `?page=` URLs, each
   * once; all up to the limit when no fetch failed, and otherwise up to and
   * including the page on which it failed.
   */
  lemma {:induction false} PagesInOrder(env: Env, ex: Extractor, k: int)
    ensures PagesSoFar(Pages(env, ex, k), env.url, k)
    decreases k
  {
    if k > 0 {
      PagesInOrder(env, ex, k - 1);
      PageStepKeepsPagesSoFar(env, ex, Pages(env, ex, k - 1), k);
    }
  }

  /** Every output record comes from a game page that was fetched, in the order fetched. */
  lemma {:induction false} PagesOrdered(env: Env, ex: Extractor, k: int)
    ensures Ordered(Pages(env, ex, k))
    decreases k
  {
    if k > 0 {
      PagesOrdered(env, ex, k - 1);
      PageStepKeepsOrder(env, ex, Pages(env, ex, k - 1), k);
    }
  }

  lemma PageStepKeepsOrder(env: Env, ex: Extractor, st: Crawl, k: int)
    requires Ordered(st)
    ensures Ordered(PageStep(env, ex, st, k))
  {
    if st.progress.Running? {
      PageStepPages(env, ex, st, k);
    }
  }

  /** So the crawl returns at most one record per game page it fetched. */
  lemma OutputBounded(env: Env, ex: Extractor, pageLimit: int)
    ensures |Pages(env, ex, pageLimit).output| <= |ItemLinks(Pages(env, ex, pageLimit).calls)|
  {
    PagesOrdered(env, ex, pageLimit);
    SubsequenceNoLonger(OutputLinks(Pages(env, ex, pageLimit).output), ItemLinks(Pages(env, ex, pageLimit).calls));
  }

  /** A feed page that cannot be decoded is reported and skipped; the crawl goes on with the next page. */
  lemma BadFeedSkipsPage(env: Env, ex: Extractor, k: int, xml: string)
    requires k >= 1 && Pages(env, ex, k - 1).progress.Running?
    requires Fetch(env.transport, PageUrl(env.url, k), Pages(env, ex, k - 1).requests, env.maxRetries).result == Body(xml)
    requires env.decode(xml).None?
    ensures Pages(env, ex, k).progress.Running?
    ensures Pages(env, ex, k).output == Pages(env, ex, k - 1).output
    ensures Pages(env, ex, k).reports == Pages(env, ex, k - 1).reports + [BadFeed(PageUrl(env.url, k))]
    ensures Pages(env, ex, k).calls == Pages(env, ex, k - 1).calls + [PageFetch(k, PageUrl(env.url, k))]
  {
  }

  /** A game page whose table does not parse is reported and skipped; the item loop goes on. */
  lemma BadGamePageSkipsItem(env: Env, ex: Extractor, st: Crawl, item: Item, html: string)
    requires st.progress.Running?
    requires Fetch(env.transport, item.link, st.requests, env.maxRetries).result == Body(html)
    requires ex(html).Err?
    ensures ItemStep(env, ex, st, item).progress.Running?
    ensures ItemStep(env, ex, st, item).output == st.output
    ensures ItemStep(env, ex, st, item).reports ==
            st.reports + [BadGamePage(item.link, ex(html).error)]
  {
  }

  /** A game page that parses adds exactly its join with the item to the output. */
  lemma GoodGamePageJoined(env: Env, ex: Extractor, st: Crawl, item: Item, html: string)
    requires st.progress.Running?
    requires Fetch(env.transport, item.link, st.requests, env.maxRetries).result == Body(html)
    requires ex(html).Ok?
    ensures ItemStep(env, ex, st, item).output ==
            st.output + [Combine(ex(html).value, item)]
    ensures ItemStep(env, ex, st, item).reports == st.reports
  {
  }

  /** A game page that cannot be fetched ends the crawl with that failure, output discarded. */
  lemma FailedGameFetchEndsCrawl(env: Env, ex: Extractor, st: Crawl, item: Item)
    requires st.progress.Running?
    requires !Fetch(env.transport, item.link, st.requests, env.maxRetries).result.Body?
    ensures ItemStep(env, ex, st, item).progress == Stopped(Fetch(env.transport, item.link, st.requests, env.maxRetries).result)
  {
  }

  /** A feed page that cannot be fetched fails the whole scrape with that failure, whatever the page limit beyond it. */
  lemma FailedFeedFetchEndsScrape(env: Env, ex: Extractor, k: int, pageLimit: int)
    requires 1 <= k <= pageLimit && Pages(env, ex, k - 1).progress.Running?
    requires !Fetch(env.transport, PageUrl(env.url, k), Pages(env, ex, k - 1).requests, env.maxRetries).result.Body?
    ensures Scrape(env, ex, pageLimit) ==
            Err(Fetch(env.transport, PageUrl(env.url, k), Pages(env, ex, k - 1).requests, env.maxRetries).result)
  {
    StoppedStaysStopped(env, ex, k, pageLimit);
  }
}
