/** The breadth-first crawl of `Crawler`: a FIFO queue of (url, depth)
    pairs, a visited set and the list of fetched pages, bounded by a page
    count and a depth and confined to the seed's registrable domain. The
    network, HTML parsing, URL validation, `urljoin`, `urlparse` and
    `tldextract` are collaborators given as a `Web` value. */
module Crawler {
  import opened Wrappers

  type Url = string

  /** A fetched page: its URL and its raw HTML. */
  datatype Page = Page(url: Url, html: string)

  /** The foreign functions the crawler calls. */
  datatype Web = Web(
    isValid: Url -> bool,                  // validators.url
    get: Url -> Option<string>,            // requests.get(...).text after raise_for_status; None on RequestException
    hrefs: string -> seq<string>,          // the href of every <a href> of a parsed page, in document order
    resolve: (Url, string) -> Url,         // urljoin(base, href)
    scheme: Url -> string,                 // urlparse(u).scheme
    registrable: Url -> (string, string))  // tldextract.extract(u) as (domain, suffix)

  /** The defaults of `crawl`'s `max_pages` and `max_depth`. */
  const MAX_PAGES := 10
  const MAX_DEPTH := 5

  /** `fetch_content_from_url`: nothing for an invalid URL or a failed request. */
  function FetchContent(web: Web, url: Url): (r: Option<string>)
    ensures r.Some? ==> web.isValid(url)
  {
    if !web.isValid(url) then None else web.get(url)
  }

  /** `if content:` — a page counts as fetched only with non-empty content. */
  predicate Fetched(web: Web, url: Url, html: string)
  {
    FetchContent(web, url) == Some(html) && html != ""
  }

  /** The page at `url` would be fetched with content. */
  predicate HasContent(web: Web, url: Url)
  {
    FetchContent(web, url).Some? && Fetched(web, url, FetchContent(web, url).value)
  }

  predicate IsWebScheme(scheme: string)
  {
    scheme == "http" || scheme == "https"
  }

  /** `is_same_domain`: equal (domain, suffix) pairs. */
  predicate IsSameDomain(web: Web, base: Url, other: Url)
  {
    web.registrable(base) == web.registrable(other)
  }

  /** Comparing extracted pairs makes "same domain" an equivalence relation. */
  lemma SameDomainIsEquivalence(web: Web)
    ensures forall u :: IsSameDomain(web, u, u)
    ensures forall u, v :: IsSameDomain(web, u, v) ==> IsSameDomain(web, v, u)
    ensures forall u, v, w :: IsSameDomain(web, u, v) && IsSameDomain(web, v, w) ==> IsSameDomain(web, u, w)
  {
  }

  /** The links of a page: every href resolved against the page URL, kept
      when its scheme is http or https. */
  function Links(web: Web, base: Url, html: string): set<Url>
  {
    set h | h in web.hrefs(html) && IsWebScheme(web.scheme(web.resolve(base, h))) :: web.resolve(base, h)
  }

  /** `extract_links`. */
  method ExtractLinks(web: Web, base: Url, html: string) returns (links: set<Url>)
    ensures links == Links(web, base, html)
    ensures forall l :: l in links ==> IsWebScheme(web.scheme(l))
    ensures forall h :: h in web.hrefs(html) && IsWebScheme(web.scheme(web.resolve(base, h))) ==> web.resolve(base, h) in links
  {
    var hrefs := web.hrefs(html);
    links := {};
    for i := 0 to |hrefs|
      invariant links == set h | h in hrefs[..i] && IsWebScheme(web.scheme(web.resolve(base, h))) :: web.resolve(base, h)
    {
      var absolute := web.resolve(base, hrefs[i]);
      if IsWebScheme(web.scheme(absolute)) {
        links := links + {absolute};
      }
      assert hrefs[..i + 1] == hrefs[..i] + [hrefs[i]];
    }
    assert hrefs[..|hrefs|] == hrefs;
  }

  /** URL `u`, queued or visited at depth `d`, is a link of one of the first
      `bound` pages, visited at depth `d - 1`. */
  ghost predicate LinkedFrom(web: Web, pages: seq<Page>, depths: seq<int>, u: Url, d: int, bound: int)
  {
    exists j :: 0 <= j < bound && j < |pages| && j < |depths| && depths[j] + 1 == d &&
                u in Links(web, pages[j].url, pages[j].html)
  }

  lemma LinkedFromGrows(web: Web, pages: seq<Page>, depths: seq<int>, u: Url, d: int, bound: int, p: Page, pd: int)
    requires LinkedFrom(web, pages, depths, u, d, bound)
    ensures LinkedFrom(web, pages + [p], depths + [pd], u, d, bound)
  {
    var j :| 0 <= j < bound && j < |pages| && j < |depths| && depths[j] + 1 == d &&
             u in Links(web, pages[j].url, pages[j].html);
    assert (pages + [p])[j] == pages[j] && (depths + [pd])[j] == depths[j];
  }

  /** No URL is visited twice. */
  ghost predicate DistinctUrls(pages: seq<Page>)
  {
    forall i, j :: 0 <= i < j < |pages| ==> pages[i].url != pages[j].url
  }

  /** Every page was fetched with content, within the depth bound. */
  ghost predicate AllFetched(web: Web, maxDepth: int, pages: seq<Page>, depths: seq<int>)
    requires |depths| == |pages|
  {
    forall i :: 0 <= i < |pages| ==> Fetched(web, pages[i].url, pages[i].html) && 0 <= depths[i] <= maxDepth
  }

  /** Every page after the first is a same-domain link of an earlier page one
      level up. */
  ghost predicate AllLinked(web: Web, seed: Url, pages: seq<Page>, depths: seq<int>)
    requires |depths| == |pages|
  {
    forall i :: 0 < i < |pages| ==>
      0 < depths[i] && IsSameDomain(web, seed, pages[i].url) && LinkedFrom(web, pages, depths, pages[i].url, depths[i], i)
  }

  /** Pages are visited in non-decreasing depth order (breadth first). */
  ghost predicate BreadthFirst(depths: seq<int>)
  {
    forall i :: 0 < i < |depths| ==> depths[i - 1] <= depths[i]
  }

  /** What holds of the pages visited so far (and of the crawl's result):
      distinct URLs, each fetched with content, within the depth bound, the
      seed first at depth 0, every later page a same-domain link of an earlier
      page one level up, and depths in non-decreasing (breadth-first) order. */
  ghost predicate PagesOk(web: Web, seed: Url, maxDepth: int, pages: seq<Page>, depths: seq<int>)
  {
    && |depths| == |pages|
    && DistinctUrls(pages)
    && AllFetched(web, maxDepth, pages, depths)
    && (|pages| > 0 ==> pages[0].url == seed && depths[0] == 0)
    && AllLinked(web, seed, pages, depths)
    && BreadthFirst(depths)
  }

  /** The queue entries: depth 0 only for the seed, every deeper entry a
      same-domain link of a visited page one level up. */
  ghost predicate QueueLinked(web: Web, seed: Url, pages: seq<Page>, depths: seq<int>, queue: seq<(Url, int)>)
  {
    && (forall k :: 0 <= k < |queue| ==> 0 <= queue[k].1)
    && (forall k :: 0 <= k < |queue| && queue[k].1 == 0 ==> queue[k].0 == seed)
    && (forall k :: 0 <= k < |queue| && queue[k].1 > 0 ==>
          IsSameDomain(web, seed, queue[k].0) && LinkedFrom(web, pages, depths, queue[k].0, queue[k].1, |pages|))
    && (forall k, l :: 0 <= k <= l < |queue| ==> queue[k].1 <= queue[l].1)
  }

  /** The breadth-first shape of the FIFO queue between two visits: depths
      non-decreasing, at most one level apart, and no shallower than any
      visited page. */
  ghost predicate QueueOk(web: Web, seed: Url, pages: seq<Page>, depths: seq<int>, queue: seq<(Url, int)>)
  {
    && QueueLinked(web, seed, pages, depths, queue)
    && (forall k :: 0 <= k < |queue| ==> queue[k].1 <= queue[0].1 + 1)
    && (queue != [] ==> forall i :: 0 <= i < |depths| ==> depths[i] <= queue[0].1)
  }

  /** The queue while the links of a page visited at depth `d` are appended. */
  ghost predicate QueueDuring(web: Web, seed: Url, pages: seq<Page>, depths: seq<int>, queue: seq<(Url, int)>, d: int)
  {
    && QueueLinked(web, seed, pages, depths, queue)
    && (forall k :: 0 <= k < |queue| ==> d <= queue[k].1 <= d + 1)
    && (forall i :: 0 <= i < |depths| ==> depths[i] <= d)
  }

  /** Dropping the head of the queue (a skipped or unfetchable entry). */
  lemma PopKeeps(web: Web, seed: Url, pages: seq<Page>, depths: seq<int>, queue: seq<(Url, int)>)
    requires QueueOk(web, seed, pages, depths, queue) && queue != []
    ensures QueueOk(web, seed, pages, depths, queue[1..])
  {
  }

  lemma DistinctGrows(pages: seq<Page>, page: Page)
    requires DistinctUrls(pages)
    requires forall i :: 0 <= i < |pages| ==> pages[i].url != page.url
    ensures DistinctUrls(pages + [page])
  {
    var pages' := pages + [page];
    forall i, j | 0 <= i < j < |pages'|
      ensures pages'[i].url != pages'[j].url
    {
      if j < |pages| {
        assert pages'[i] == pages[i] && pages'[j] == pages[j];
      }
    }
  }

  lemma FetchedGrows(web: Web, maxDepth: int, pages: seq<Page>, depths: seq<int>, page: Page, d: int)
    requires |depths| == |pages| && AllFetched(web, maxDepth, pages, depths)
    requires Fetched(web, page.url, page.html) && 0 <= d <= maxDepth
    ensures AllFetched(web, maxDepth, pages + [page], depths + [d])
  {
    var pages', depths' := pages + [page], depths + [d];
    forall i | 0 <= i < |pages'|
      ensures Fetched(web, pages'[i].url, pages'[i].html) && 0 <= depths'[i] <= maxDepth
    {
      if i < |pages| {
        assert pages'[i] == pages[i] && depths'[i] == depths[i];
      }
    }
  }

  lemma LinkedGrows(web: Web, seed: Url, pages: seq<Page>, depths: seq<int>, page: Page, d: int)
    requires |depths| == |pages| && pages != [] && AllLinked(web, seed, pages, depths)
    requires 0 < d && IsSameDomain(web, seed, page.url) && LinkedFrom(web, pages, depths, page.url, d, |pages|)
    ensures AllLinked(web, seed, pages + [page], depths + [d])
  {
    var pages', depths' := pages + [page], depths + [d];
    forall i | 0 < i < |pages'|
      ensures 0 < depths'[i] && IsSameDomain(web, seed, pages'[i].url) && LinkedFrom(web, pages', depths', pages'[i].url, depths'[i], i)
    {
      if i < |pages| {
        assert pages'[i] == pages[i] && depths'[i] == depths[i];
        LinkedFromGrows(web, pages, depths, pages[i].url, depths[i], i, page, d);
      } else {
        LinkedFromGrows(web, pages, depths, page.url, d, |pages|, page, d);
      }
    }
  }

  lemma BreadthFirstGrows(depths: seq<int>, d: int)
    requires BreadthFirst(depths)
    requires forall i :: 0 <= i < |depths| ==> depths[i] <= d
    ensures BreadthFirst(depths + [d])
  {
    var depths' := depths + [d];
    forall i | 0 < i < |depths'|
      ensures depths'[i - 1] <= depths'[i]
    {
      if i < |depths| {
        assert depths'[i - 1] == depths[i - 1] && depths'[i] == depths[i];
      }
    }
  }

  /** Visiting the head of the queue extends the visited pages. */
  lemma VisitKeepsPages(web: Web, seed: Url, maxDepth: int, pages: seq<Page>, depths: seq<int>, queue: seq<(Url, int)>, html: string)
    requires PagesOk(web, seed, maxDepth, pages, depths)
    requires QueueOk(web, seed, pages, depths, queue) && queue != []
    requires forall i :: 0 <= i < |pages| ==> pages[i].url != queue[0].0
    requires queue[0].1 <= maxDepth
    requires Fetched(web, queue[0].0, html)
    requires pages == [] ==> queue[0] == (seed, 0)
    ensures PagesOk(web, seed, maxDepth, pages + [Page(queue[0].0, html)], depths + [queue[0].1])
  {
    var page, d := Page(queue[0].0, html), queue[0].1;
    DistinctGrows(pages, page);
    FetchedGrows(web, maxDepth, pages, depths, page, d);
    if pages != [] {
      LinkedGrows(web, seed, pages, depths, page, d);
    }
    BreadthFirstGrows(depths, d);
  }

  /** Visiting the head of the queue leaves the rest of the queue ready for
      the page's links. */
  lemma VisitKeepsQueue(web: Web, seed: Url, pages: seq<Page>, depths: seq<int>, queue: seq<(Url, int)>, page: Page)
    requires |depths| == |pages|
    requires QueueOk(web, seed, pages, depths, queue) && queue != []
    ensures QueueDuring(web, seed, pages + [page], depths + [queue[0].1], queue[1..], queue[0].1)
  {
    var d := queue[0].1;
    var pages', depths' := pages + [page], depths + [d];
    forall k | 1 <= k < |queue| && queue[k].1 > 0
      ensures LinkedFrom(web, pages', depths', queue[k].0, queue[k].1, |pages|)
    {
      LinkedFromGrows(web, pages, depths, queue[k].0, queue[k].1, |pages|, page, d);
    }
    var rest := queue[1..];
    assert forall k :: 0 <= k < |rest| ==> rest[k] == queue[k + 1];
    assert forall i :: 0 <= i < |depths| ==> depths'[i] == depths[i];
  }

  /** Appending a same-domain link of the page just visited, one level down. */
  lemma EnqueueKeeps(web: Web, seed: Url, pages: seq<Page>, depths: seq<int>, queue: seq<(Url, int)>, d: int, link: Url)
    requires QueueDuring(web, seed, pages, depths, queue, d)
    requires |depths| == |pages| && pages != [] && depths[|pages| - 1] == d && 0 <= d
    requires link in Links(web, pages[|pages| - 1].url, pages[|pages| - 1].html)
    requires IsSameDomain(web, seed, link)
    ensures QueueDuring(web, seed, pages, depths, queue + [(link, d + 1)], d)
  {
    var j := |pages| - 1;
    assert 0 <= j < |pages| && j < |depths| && depths[j] + 1 == d + 1 &&
           link in Links(web, pages[j].url, pages[j].html);
    assert LinkedFrom(web, pages, depths, link, d + 1, |pages|);
  }

  /** Once the page's links are queued the queue has its breadth-first shape. */
  lemma DuringDone(web: Web, seed: Url, pages: seq<Page>, depths: seq<int>, queue: seq<(Url, int)>, d: int)
    requires QueueDuring(web, seed, pages, depths, queue, d)
    ensures QueueOk(web, seed, pages, depths, queue)
  {
  }

  /** The inner loop of `crawl`: append every unvisited same-domain link of
      the page just visited, once each, at one level deeper, and nothing
      else. */
  method EnqueueLinks(web: Web, seed: Url, visited: set<Url>, hyperlinks: set<Url>, queue: seq<(Url, int)>, depth: int,
                      ghost pages: seq<Page>, ghost depths: seq<int>)
    returns (toVisit: seq<(Url, int)>)
    requires |depths| == |pages| && pages != [] && depths[|pages| - 1] == depth && 0 <= depth
    requires hyperlinks == Links(web, pages[|pages| - 1].url, pages[|pages| - 1].html)
    requires QueueDuring(web, seed, pages, depths, queue, depth)
    ensures QueueDuring(web, seed, pages, depths, toVisit, depth)
    ensures |queue| <= |toVisit| && toVisit[..|queue|] == queue
    ensures forall k :: |queue| <= k < |toVisit| ==>
      toVisit[k].0 in hyperlinks && toVisit[k].0 !in visited && IsSameDomain(web, seed, toVisit[k].0) && toVisit[k].1 == depth + 1
    ensures forall l :: l in hyperlinks && l !in visited && IsSameDomain(web, seed, l) ==> (l, depth + 1) in toVisit[|queue|..]
    ensures forall k, k' :: |queue| <= k < k' < |toVisit| ==> toVisit[k].0 != toVisit[k'].0
    ensures Appended(web, seed, visited, hyperlinks, {}, queue, toVisit, depth + 1)
  {
    toVisit := queue;
    var remaining := hyperlinks;
    while remaining != {}
      invariant remaining <= hyperlinks
      invariant QueueDuring(web, seed, pages, depths, toVisit, depth)
      invariant Appended(web, seed, visited, hyperlinks, remaining, queue, toVisit, depth + 1)
      decreases remaining
    {
      var link :| link in remaining;
      if link !in visited && IsSameDomain(web, seed, link) {
        EnqueueKeeps(web, seed, pages, depths, toVisit, depth, link);
        AppendedAdd(web, seed, visited, hyperlinks, remaining, queue, toVisit, depth + 1, link);
        toVisit := toVisit + [(link, depth + 1)];
      } else {
        AppendedSkip(web, seed, visited, hyperlinks, remaining, queue, toVisit, depth + 1, link);
      }
      remaining := remaining - {link};
    }
  }

  /** `toVisit` is `queue` followed by the unvisited same-domain links of
      `links` already taken out of `remaining`, each once, at depth `d`. */
  ghost predicate Appended(web: Web, seed: Url, visited: set<Url>, links: set<Url>, remaining: set<Url>,
                           queue: seq<(Url, int)>, toVisit: seq<(Url, int)>, d: int)
  {
    && |queue| <= |toVisit| && toVisit[..|queue|] == queue
    && (forall k :: |queue| <= k < |toVisit| ==>
          toVisit[k].0 in links && toVisit[k].0 !in visited && IsSameDomain(web, seed, toVisit[k].0) &&
          toVisit[k].1 == d && toVisit[k].0 !in remaining)
    && (forall l :: l in links && l !in remaining && l !in visited && IsSameDomain(web, seed, l) ==>
          (l, d) in toVisit[|queue|..])
    && (forall k, k' :: |queue| <= k < k' < |toVisit| ==> toVisit[k].0 != toVisit[k'].0)
  }

  /** Taking a qualifying link out of `remaining` and queueing it. */
  lemma AppendedAdd(web: Web, seed: Url, visited: set<Url>, links: set<Url>, remaining: set<Url>,
                    queue: seq<(Url, int)>, toVisit: seq<(Url, int)>, d: int, link: Url)
    requires Appended(web, seed, visited, links, remaining, queue, toVisit, d)
    requires link in remaining && remaining <= links && link !in visited && IsSameDomain(web, seed, link)
    ensures Appended(web, seed, visited, links, remaining - {link}, queue, toVisit + [(link, d)], d)
  {
    var toVisit' := toVisit + [(link, d)];
    assert toVisit'[|queue|..] == toVisit[|queue|..] + [(link, d)];
    assert toVisit'[..|queue|] == queue;
    forall k | |queue| <= k < |toVisit|
      ensures toVisit'[k] == toVisit[k]
    {
    }
  }

  /** Taking a link that does not qualify out of `remaining`. */
  lemma AppendedSkip(web: Web, seed: Url, visited: set<Url>, links: set<Url>, remaining: set<Url>,
                     queue: seq<(Url, int)>, toVisit: seq<(Url, int)>, d: int, link: Url)
    requires Appended(web, seed, visited, links, remaining, queue, toVisit, d)
    requires link in remaining && !(link !in visited && IsSameDomain(web, seed, link))
    ensures Appended(web, seed, visited, links, remaining - {link}, queue, toVisit, d)
  {
  }

  /** The loop invariant of `crawl`. */
  ghost predicate CrawlInv(web: Web, seed: Url, maxPages: int, maxDepth: int,
                           visited: set<Url>, toVisit: seq<(Url, int)>, pages: seq<Page>, depths: seq<int>)
  {
    && PagesOk(web, seed, maxDepth, pages, depths)
    && QueueOk(web, seed, pages, depths, toVisit)
    && |pages| == |visited|
    && (forall i :: 0 <= i < |pages| ==> pages[i].url in visited)
    && (|pages| <= maxPages || pages == [])
    && (pages == [] && 0 < maxPages && 0 <= maxDepth && HasContent(web, seed) ==> toVisit == [(seed, 0)])
  }

  /** Dropping the head of the queue without visiting it: it was visited
      already, is too deep, or could not be fetched. */
  lemma SkipKeeps(web: Web, seed: Url, maxPages: int, maxDepth: int,
                  visited: set<Url>, toVisit: seq<(Url, int)>, pages: seq<Page>, depths: seq<int>)
    requires CrawlInv(web, seed, maxPages, maxDepth, visited, toVisit, pages, depths)
    requires toVisit != []
    requires toVisit[0].0 in visited || toVisit[0].1 > maxDepth || !HasContent(web, toVisit[0].0)
    ensures CrawlInv(web, seed, maxPages, maxDepth, visited, toVisit[1..], pages, depths)
  {
    PopKeeps(web, seed, pages, depths, toVisit);
  }

  /** Recording the head of the queue as a visited page and queueing its links. */
  lemma VisitKeeps(web: Web, seed: Url, maxPages: int, maxDepth: int,
                   visited: set<Url>, toVisit: seq<(Url, int)>, pages: seq<Page>, depths: seq<int>,
                   html: string, toVisit': seq<(Url, int)>)
    requires CrawlInv(web, seed, maxPages, maxDepth, visited, toVisit, pages, depths)
    requires toVisit != [] && |visited| < maxPages
    requires toVisit[0].0 !in visited && toVisit[0].1 <= maxDepth && Fetched(web, toVisit[0].0, html)
    requires QueueDuring(web, seed, pages + [Page(toVisit[0].0, html)], depths + [toVisit[0].1], toVisit', toVisit[0].1)
    ensures CrawlInv(web, seed, maxPages, maxDepth, visited + {toVisit[0].0}, toVisit',
                     pages + [Page(toVisit[0].0, html)], depths + [toVisit[0].1])
  {
    VisitKeepsPages(web, seed, maxDepth, pages, depths, toVisit, html);
    DuringDone(web, seed, pages + [Page(toVisit[0].0, html)], depths + [toVisit[0].1], toVisit', toVisit[0].1);
  }

  /** The queue holds an entry for `u` that is not too deep to be visited. */
  ghost predicate Pending(queue: seq<(Url, int)>, u: Url, maxDepth: int)
  {
    exists k :: 0 <= k < |queue| && queue[k].0 == u && queue[k].1 <= maxDepth
  }

  /** Every visited URL is the URL of a recorded page. */
  ghost predicate VisitedArePages(pages: seq<Page>, visited: set<Url>)
  {
    forall u :: u in visited ==> exists j :: 0 <= j < |pages| && pages[j].url == u
  }

  /** No link is lost: every same-domain link with content of a page visited
      above the depth bound is visited already or still pending at most one
      level below that page. */
  ghost predicate LinksCovered(web: Web, seed: Url, maxDepth: int, pages: seq<Page>, depths: seq<int>,
                               visited: set<Url>, queue: seq<(Url, int)>)
    requires |depths| == |pages|
  {
    forall i, l :: 0 <= i < |pages| && depths[i] < maxDepth && l in Links(web, pages[i].url, pages[i].html) &&
                   IsSameDomain(web, seed, l) && HasContent(web, l) ==>
      l in visited || Pending(queue, l, depths[i] + 1)
  }

  /** Level by level: a page visited two or more levels below page `i` comes
      after every same-domain link with content of page `i`. */
  ghost predicate LevelComplete(web: Web, seed: Url, pages: seq<Page>, depths: seq<int>)
    requires |depths| == |pages|
  {
    forall p, i, l :: 0 <= p < |pages| && 0 <= i < |pages| && depths[i] + 1 < depths[p] &&
                      l in Links(web, pages[i].url, pages[i].html) && IsSameDomain(web, seed, l) && HasContent(web, l) ==>
      exists j :: 0 <= j < p && pages[j].url == l
  }

  ghost predicate CoverInv(web: Web, seed: Url, maxDepth: int, visited: set<Url>, toVisit: seq<(Url, int)>,
                           pages: seq<Page>, depths: seq<int>)
  {
    && |depths| == |pages|
    && VisitedArePages(pages, visited)
    && LinksCovered(web, seed, maxDepth, pages, depths, visited, toVisit)
    && LevelComplete(web, seed, pages, depths)
  }

  /** Dropping a head that is visited, too deep or without content loses no
      link: such an entry was never the one a pending link relied on. */
  lemma SkipCovers(web: Web, seed: Url, maxDepth: int, visited: set<Url>, toVisit: seq<(Url, int)>,
                   pages: seq<Page>, depths: seq<int>)
    requires CoverInv(web, seed, maxDepth, visited, toVisit, pages, depths) && toVisit != []
    requires toVisit[0].0 in visited || toVisit[0].1 > maxDepth || !HasContent(web, toVisit[0].0)
    ensures CoverInv(web, seed, maxDepth, visited, toVisit[1..], pages, depths)
  {
    forall i, l | 0 <= i < |pages| && depths[i] < maxDepth && l in Links(web, pages[i].url, pages[i].html) &&
                  IsSameDomain(web, seed, l) && HasContent(web, l) && l !in visited
      ensures Pending(toVisit[1..], l, depths[i] + 1)
    {
      var k :| 0 <= k < |toVisit| && toVisit[k].0 == l && toVisit[k].1 <= depths[i] + 1;
      assert k != 0;
      assert toVisit[1..][k - 1] == toVisit[k];
    }
  }

  /** After a visit, the links pending before are visited or still pending. */
  lemma VisitCoversOld(web: Web, seed: Url, maxDepth: int, visited: set<Url>, toVisit: seq<(Url, int)>,
                       pages: seq<Page>, depths: seq<int>, html: string, toVisit': seq<(Url, int)>)
    requires CoverInv(web, seed, maxDepth, visited, toVisit, pages, depths) && toVisit != []
    requires |toVisit| - 1 <= |toVisit'| && toVisit'[..|toVisit| - 1] == toVisit[1..]
    ensures var pages', depths' := pages + [Page(toVisit[0].0, html)], depths + [toVisit[0].1];
      forall i, l :: 0 <= i < |pages| && depths'[i] < maxDepth && l in Links(web, pages'[i].url, pages'[i].html) &&
                     IsSameDomain(web, seed, l) && HasContent(web, l) ==>
        l in visited + {toVisit[0].0} || Pending(toVisit', l, depths'[i] + 1)
  {
    var pages', depths' := pages + [Page(toVisit[0].0, html)], depths + [toVisit[0].1];
    forall i, l | 0 <= i < |pages| && depths'[i] < maxDepth && l in Links(web, pages'[i].url, pages'[i].html) &&
                  IsSameDomain(web, seed, l) && HasContent(web, l) && l !in visited + {toVisit[0].0}
      ensures Pending(toVisit', l, depths'[i] + 1)
    {
      assert pages'[i] == pages[i] && depths'[i] == depths[i];
      var k :| 0 <= k < |toVisit| && toVisit[k].0 == l && toVisit[k].1 <= depths[i] + 1;
      assert k != 0;
      assert toVisit'[k - 1] == toVisit[1..][k - 1] == toVisit[k];
    }
  }

  /** Visiting the head records a page whose links the turn has queued, and
      keeps the links pending before. */
  lemma VisitCovers(web: Web, seed: Url, maxDepth: int, visited: set<Url>, toVisit: seq<(Url, int)>,
                    pages: seq<Page>, depths: seq<int>, html: string, toVisit': seq<(Url, int)>)
    requires CoverInv(web, seed, maxDepth, visited, toVisit, pages, depths) && toVisit != []
    requires Appended(web, seed, visited + {toVisit[0].0}, Links(web, toVisit[0].0, html), {}, toVisit[1..], toVisit', toVisit[0].1 + 1)
    ensures VisitedArePages(pages + [Page(toVisit[0].0, html)], visited + {toVisit[0].0})
    ensures LinksCovered(web, seed, maxDepth, pages + [Page(toVisit[0].0, html)], depths + [toVisit[0].1],
                         visited + {toVisit[0].0}, toVisit')
  {
    var url, d := toVisit[0].0, toVisit[0].1;
    var visited', pages', depths' := visited + {url}, pages + [Page(url, html)], depths + [d];
    forall u | u in visited'
      ensures exists j :: 0 <= j < |pages'| && pages'[j].url == u
    {
      if u == url {
        assert pages'[|pages|].url == u;
      } else {
        var j :| 0 <= j < |pages| && pages[j].url == u;
        assert pages'[j].url == u;
      }
    }
    VisitCoversOld(web, seed, maxDepth, visited, toVisit, pages, depths, html, toVisit');
    forall l | d < maxDepth && l in Links(web, url, html) && IsSameDomain(web, seed, l) && l !in visited'
      ensures Pending(toVisit', l, d + 1)
    {
      var k :| |toVisit| - 1 <= k < |toVisit'| && toVisit'[k] == (l, d + 1) by {
        assert (l, d + 1) in toVisit'[|toVisit| - 1..];
        var m :| 0 <= m < |toVisit'[|toVisit| - 1..]| && toVisit'[|toVisit| - 1..][m] == (l, d + 1);
        assert toVisit'[|toVisit| - 1 + m] == (l, d + 1);
      }
    }
    assert pages'[|pages|] == Page(url, html) && depths'[|pages|] == d;
  }

  /** The page visited now is at the depth of the head of the queue, which is
      at least that of every page before it; a link of a page two levels up
      cannot still be pending at a depth below the head's, so it was visited
      before. */
  lemma VisitLevel(web: Web, seed: Url, maxDepth: int, visited: set<Url>, toVisit: seq<(Url, int)>,
                   pages: seq<Page>, depths: seq<int>, html: string)
    requires CoverInv(web, seed, maxDepth, visited, toVisit, pages, depths) && toVisit != []
    requires QueueOk(web, seed, pages, depths, toVisit) && toVisit[0].1 <= maxDepth
    ensures LevelComplete(web, seed, pages + [Page(toVisit[0].0, html)], depths + [toVisit[0].1])
  {
    var url, d := toVisit[0].0, toVisit[0].1;
    var pages', depths' := pages + [Page(url, html)], depths + [d];
    forall p, i, l | 0 <= p < |pages'| && 0 <= i < |pages'| && depths'[i] + 1 < depths'[p] &&
                     l in Links(web, pages'[i].url, pages'[i].html) && IsSameDomain(web, seed, l) && HasContent(web, l)
      ensures exists j :: 0 <= j < p && pages'[j].url == l
    {
      assert depths'[p] <= d by {
        if p < |pages| {
          assert depths'[p] == depths[p];
        }
      }
      assert depths'[|pages|] == d;
      assert i < |pages|;
      assert pages'[i] == pages[i] && depths'[i] == depths[i];
      if p < |pages| {
        assert depths'[p] == depths[p];
        var j :| 0 <= j < p && pages[j].url == l;
        assert pages'[j].url == l;
      } else {
        assert forall k :: 0 <= k < |toVisit| ==> d <= toVisit[k].1;
        assert !Pending(toVisit, l, depths[i] + 1);
        assert l in visited;
        var j :| 0 <= j < |pages| && pages[j].url == l;
        assert pages'[j].url == l;
      }
    }
  }

  /** No page up to index `m` that is one level above depth `e` links `w`:
      the first such page, if any, comes after `m`. */
  ghost predicate NotLinkedUpTo(web: Web, pages: seq<Page>, depths: seq<int>, w: Url, e: int, m: int)
    requires |depths| == |pages|
  {
    forall i :: 0 <= i < |pages| && i <= m && depths[i] + 1 == e ==> w !in Links(web, pages[i].url, pages[i].html)
  }

  /** Within a level, pages come in the order of the pages that first linked
      them: a page one level below page `m` that no page up to `m` links
      comes after every same-domain link with content of page `m`. */
  ghost predicate LevelOrder(web: Web, seed: Url, pages: seq<Page>, depths: seq<int>)
    requires |depths| == |pages|
  {
    forall p, m, l :: 0 <= p < |pages| && 0 <= m < |pages| && depths[m] + 1 == depths[p] &&
                      NotLinkedUpTo(web, pages, depths, pages[p].url, depths[p], m) &&
                      l in Links(web, pages[m].url, pages[m].html) && IsSameDomain(web, seed, l) && HasContent(web, l) ==>
      exists j :: 0 <= j < p && pages[j].url == l
  }

  /** The FIFO order of the queue: an entry that is not too deep, and that no
      page up to `m` one level above it links, comes after an entry for every
      unvisited same-domain link with content of page `m`. */
  ghost predicate QueueOrdered(web: Web, seed: Url, maxDepth: int, pages: seq<Page>, depths: seq<int>,
                               visited: set<Url>, queue: seq<(Url, int)>)
    requires |depths| == |pages|
  {
    forall k, m, v :: 0 <= k < |queue| && queue[k].1 <= maxDepth && 0 <= m < |pages| && depths[m] + 1 == queue[k].1 &&
                      NotLinkedUpTo(web, pages, depths, queue[k].0, queue[k].1, m) &&
                      v in Links(web, pages[m].url, pages[m].html) && IsSameDomain(web, seed, v) && HasContent(web, v) &&
                      v !in visited ==>
      exists k' :: 0 <= k' < k && queue[k'].0 == v
  }

  /** The third loop invariant of `crawl`: the order within a level. */
  ghost predicate OrderInv(web: Web, seed: Url, maxDepth: int, visited: set<Url>, toVisit: seq<(Url, int)>,
                           pages: seq<Page>, depths: seq<int>)
  {
    && |depths| == |pages|
    && QueueOrdered(web, seed, maxDepth, pages, depths, visited, toVisit)
    && LevelOrder(web, seed, pages, depths)
  }

  /** Recording a page at depth `d` changes who links a URL at depth `e`
      only for `e == d + 1` and beyond the old pages. */
  lemma NotLinkedGrows(web: Web, pages: seq<Page>, depths: seq<int>, page: Page, d: int, w: Url, e: int, m: int)
    requires |depths| == |pages|
    requires m < |pages| || e != d + 1
    ensures NotLinkedUpTo(web, pages + [page], depths + [d], w, e, m) == NotLinkedUpTo(web, pages, depths, w, e, m)
  {
    var pages', depths' := pages + [page], depths + [d];
    assert forall i :: 0 <= i < |pages| ==> pages'[i] == pages[i] && depths'[i] == depths[i];
    assert depths'[|pages|] == d;
  }

  /** Dropping a visited, too deep or contentless head keeps the queue order:
      the entry it stood for was never the one an unvisited link with
      content relied on. */
  lemma SkipOrders(web: Web, seed: Url, maxDepth: int, visited: set<Url>, toVisit: seq<(Url, int)>,
                   pages: seq<Page>, depths: seq<int>)
    requires OrderInv(web, seed, maxDepth, visited, toVisit, pages, depths) && toVisit != []
    requires forall k :: 0 <= k < |toVisit| ==> toVisit[0].1 <= toVisit[k].1
    requires toVisit[0].0 in visited || toVisit[0].1 > maxDepth || !HasContent(web, toVisit[0].0)
    ensures OrderInv(web, seed, maxDepth, visited, toVisit[1..], pages, depths)
  {
    var rest := toVisit[1..];
    forall k, m, v | 0 <= k < |rest| && rest[k].1 <= maxDepth && 0 <= m < |pages| && depths[m] + 1 == rest[k].1 &&
                     NotLinkedUpTo(web, pages, depths, rest[k].0, rest[k].1, m) &&
                     v in Links(web, pages[m].url, pages[m].html) && IsSameDomain(web, seed, v) && HasContent(web, v) &&
                     v !in visited
      ensures exists k' :: 0 <= k' < k && rest[k'].0 == v
    {
      assert rest[k] == toVisit[k + 1];
      var k' :| 0 <= k' < k + 1 && toVisit[k'].0 == v;
      assert k' != 0;
      assert rest[k' - 1] == toVisit[k'];
    }
  }

  /** After a visit the queue keeps its order: an old entry's earlier
      entries stay ahead of it, and the links a new entry waits for were
      pending in the old queue behind the head. */
  lemma VisitOrdersQueue(web: Web, seed: Url, maxDepth: int, visited: set<Url>, toVisit: seq<(Url, int)>,
                         pages: seq<Page>, depths: seq<int>, html: string, toVisit': seq<(Url, int)>)
    requires |depths| == |pages| && QueueOk(web, seed, pages, depths, toVisit)
    requires LinksCovered(web, seed, maxDepth, pages, depths, visited, toVisit)
    requires OrderInv(web, seed, maxDepth, visited, toVisit, pages, depths) && toVisit != []
    requires toVisit[0].0 !in visited
    requires Appended(web, seed, visited + {toVisit[0].0}, Links(web, toVisit[0].0, html), {}, toVisit[1..], toVisit', toVisit[0].1 + 1)
    ensures QueueOrdered(web, seed, maxDepth, pages + [Page(toVisit[0].0, html)], depths + [toVisit[0].1],
                         visited + {toVisit[0].0}, toVisit')
  {
    var url, d := toVisit[0].0, toVisit[0].1;
    var n := |pages|;
    var visited', pages', depths' := visited + {url}, pages + [Page(url, html)], depths + [d];
    forall k, m, v | 0 <= k < |toVisit'| && toVisit'[k].1 <= maxDepth && 0 <= m < |pages'| && depths'[m] + 1 == toVisit'[k].1 &&
                     NotLinkedUpTo(web, pages', depths', toVisit'[k].0, toVisit'[k].1, m) &&
                     v in Links(web, pages'[m].url, pages'[m].html) && IsSameDomain(web, seed, v) && HasContent(web, v) &&
                     v !in visited'
      ensures exists k' :: 0 <= k' < k && toVisit'[k'].0 == v
    {
      if k < |toVisit| - 1 {
        OldEntryOrdered(web, seed, maxDepth, visited, toVisit, pages, depths, html, toVisit', k, m, v);
      } else {
        NewEntryOrdered(web, seed, maxDepth, visited, toVisit, pages, depths, html, toVisit', k, m, v);
      }
    }
  }

  /** An entry that was already queued behind the head. */
  lemma OldEntryOrdered(web: Web, seed: Url, maxDepth: int, visited: set<Url>, toVisit: seq<(Url, int)>,
                        pages: seq<Page>, depths: seq<int>, html: string, toVisit': seq<(Url, int)>, k: int, m: int, v: Url)
    requires |depths| == |pages| && QueueOk(web, seed, pages, depths, toVisit)
    requires QueueOrdered(web, seed, maxDepth, pages, depths, visited, toVisit) && toVisit != []
    requires |toVisit| - 1 <= |toVisit'| && toVisit'[..|toVisit| - 1] == toVisit[1..]
    requires 0 <= k < |toVisit| - 1 && toVisit'[k].1 <= maxDepth
    requires 0 <= m <= |pages| && (depths + [toVisit[0].1])[m] + 1 == toVisit'[k].1
    requires NotLinkedUpTo(web, pages + [Page(toVisit[0].0, html)], depths + [toVisit[0].1], toVisit'[k].0, toVisit'[k].1, m)
    requires v in Links(web, (pages + [Page(toVisit[0].0, html)])[m].url, (pages + [Page(toVisit[0].0, html)])[m].html)
    requires IsSameDomain(web, seed, v) && HasContent(web, v) && v !in visited + {toVisit[0].0}
    ensures exists k' :: 0 <= k' < k && toVisit'[k'].0 == v
  {
    var pages', depths' := pages + [Page(toVisit[0].0, html)], depths + [toVisit[0].1];
    var w, e := toVisit'[k].0, toVisit'[k].1;
    assert toVisit'[k] == toVisit[1..][k] == toVisit[k + 1];
    // the entry is one level below a recorded page that links it, so `m` comes before that page
    var i :| 0 <= i < |pages| && i < |depths| && depths[i] + 1 == e && w in Links(web, pages[i].url, pages[i].html);
    assert pages'[i] == pages[i] && depths'[i] == depths[i];
    assert m < i;
    assert pages'[m] == pages[m] && depths'[m] == depths[m];
    NotLinkedGrows(web, pages, depths, Page(toVisit[0].0, html), toVisit[0].1, w, e, m);
    var k' :| 0 <= k' < k + 1 && toVisit[k'].0 == v;
    assert k' != 0;
    assert toVisit'[k' - 1] == toVisit[1..][k' - 1] == toVisit[k'];
  }

  /** An entry the visit has just queued: the links it waits for are links
      of an earlier page one level up, pending in the old queue. */
  lemma NewEntryOrdered(web: Web, seed: Url, maxDepth: int, visited: set<Url>, toVisit: seq<(Url, int)>,
                        pages: seq<Page>, depths: seq<int>, html: string, toVisit': seq<(Url, int)>, k: int, m: int, v: Url)
    requires |depths| == |pages| && LinksCovered(web, seed, maxDepth, pages, depths, visited, toVisit) && toVisit != []
    requires Appended(web, seed, visited + {toVisit[0].0}, Links(web, toVisit[0].0, html), {}, toVisit[1..], toVisit', toVisit[0].1 + 1)
    requires |toVisit| - 1 <= k < |toVisit'| && toVisit'[k].1 <= maxDepth
    requires 0 <= m <= |pages| && (depths + [toVisit[0].1])[m] + 1 == toVisit'[k].1
    requires NotLinkedUpTo(web, pages + [Page(toVisit[0].0, html)], depths + [toVisit[0].1], toVisit'[k].0, toVisit'[k].1, m)
    requires v in Links(web, (pages + [Page(toVisit[0].0, html)])[m].url, (pages + [Page(toVisit[0].0, html)])[m].html)
    requires IsSameDomain(web, seed, v) && HasContent(web, v) && v !in visited + {toVisit[0].0}
    ensures exists k' :: 0 <= k' < k && toVisit'[k'].0 == v
  {
    var url, d := toVisit[0].0, toVisit[0].1;
    var pages', depths' := pages + [Page(url, html)], depths + [d];
    var n := |pages|;
    // the new entry is a link of the new page, so `m` is an old page at depth `d`
    assert toVisit'[k].0 in Links(web, url, html) && toVisit'[k].1 == d + 1;
    assert pages'[n] == Page(url, html) && depths'[n] == d;
    assert m < n;
    assert pages'[m] == pages[m] && depths'[m] == depths[m] == d;
    var k0 :| 0 <= k0 < |toVisit| && toVisit[k0].0 == v && toVisit[k0].1 <= d + 1;
    assert k0 != 0;
    assert toVisit'[k0 - 1] == toVisit[1..][k0 - 1] == toVisit[k0];
  }

  /** The page visited now is the head of the queue: every same-domain link
      with content of a page up to which nothing links the head is visited
      already, so it is an earlier page. */
  lemma VisitOrdersPages(web: Web, seed: Url, maxDepth: int, visited: set<Url>, toVisit: seq<(Url, int)>,
                         pages: seq<Page>, depths: seq<int>, html: string)
    requires OrderInv(web, seed, maxDepth, visited, toVisit, pages, depths) && toVisit != []
    requires VisitedArePages(pages, visited)
    requires forall i :: 0 <= i < |depths| ==> depths[i] <= toVisit[0].1
    requires toVisit[0].1 <= maxDepth
    ensures LevelOrder(web, seed, pages + [Page(toVisit[0].0, html)], depths + [toVisit[0].1])
  {
    var url, d := toVisit[0].0, toVisit[0].1;
    var n := |pages|;
    var pages', depths' := pages + [Page(url, html)], depths + [d];
    forall p, m, l | 0 <= p < |pages'| && 0 <= m < |pages'| && depths'[m] + 1 == depths'[p] &&
                     NotLinkedUpTo(web, pages', depths', pages'[p].url, depths'[p], m) &&
                     l in Links(web, pages'[m].url, pages'[m].html) && IsSameDomain(web, seed, l) && HasContent(web, l)
      ensures exists j :: 0 <= j < p && pages'[j].url == l
    {
      assert depths'[p] <= d by {
        if p < n {
          assert depths'[p] == depths[p];
        }
      }
      assert depths'[n] == d;
      assert m < n;
      assert pages'[m] == pages[m] && depths'[m] == depths[m];
      NotLinkedGrows(web, pages, depths, Page(url, html), d, pages'[p].url, depths'[p], m);
      if p < n {
        assert pages'[p] == pages[p] && depths'[p] == depths[p];
        var j :| 0 <= j < p && pages[j].url == l;
        assert pages'[j].url == l;
      } else {
        assert pages'[p].url == url && depths'[p] == d;
        assert l in visited;
        var j :| 0 <= j < n && pages[j].url == l;
        assert pages'[j].url == l;
      }
    }
  }

  /** Visiting the head keeps the order within a level. */
  lemma VisitOrders(web: Web, seed: Url, maxPages: int, maxDepth: int, visited: set<Url>, toVisit: seq<(Url, int)>,
                    pages: seq<Page>, depths: seq<int>, html: string, toVisit': seq<(Url, int)>)
    requires CrawlInv(web, seed, maxPages, maxDepth, visited, toVisit, pages, depths)
    requires CoverInv(web, seed, maxDepth, visited, toVisit, pages, depths)
    requires OrderInv(web, seed, maxDepth, visited, toVisit, pages, depths) && toVisit != []
    requires toVisit[0].0 !in visited && toVisit[0].1 <= maxDepth
    requires Appended(web, seed, visited + {toVisit[0].0}, Links(web, toVisit[0].0, html), {}, toVisit[1..], toVisit', toVisit[0].1 + 1)
    ensures OrderInv(web, seed, maxDepth, visited + {toVisit[0].0}, toVisit',
                     pages + [Page(toVisit[0].0, html)], depths + [toVisit[0].1])
  {
    VisitOrdersQueue(web, seed, maxDepth, visited, toVisit, pages, depths, html, toVisit');
    VisitOrdersPages(web, seed, maxDepth, visited, toVisit, pages, depths, html);
  }

  /** The visiting half of a turn: record the page, mark its URL visited,
      extract its links and queue the unvisited same-domain ones. */
  method VisitHead(web: Web, seed: Url, maxPages: int, maxDepth: int,
                   visited: set<Url>, toVisit: seq<(Url, int)>, pages: seq<Page>, ghost depths: seq<int>, html: string)
    returns (visited': set<Url>, toVisit': seq<(Url, int)>, pages': seq<Page>, ghost depths': seq<int>)
    requires CrawlInv(web, seed, maxPages, maxDepth, visited, toVisit, pages, depths)
    requires CoverInv(web, seed, maxDepth, visited, toVisit, pages, depths)
    requires OrderInv(web, seed, maxDepth, visited, toVisit, pages, depths)
    requires toVisit != [] && |visited| < maxPages
    requires toVisit[0].0 !in visited && toVisit[0].1 <= maxDepth && Fetched(web, toVisit[0].0, html)
    ensures CrawlInv(web, seed, maxPages, maxDepth, visited', toVisit', pages', depths')
    ensures CoverInv(web, seed, maxDepth, visited', toVisit', pages', depths')
    ensures OrderInv(web, seed, maxDepth, visited', toVisit', pages', depths')
    ensures visited' == visited + {toVisit[0].0} && |visited'| == |visited| + 1
    ensures pages' == pages + [Page(toVisit[0].0, html)]
    ensures Appended(web, seed, visited', Links(web, toVisit[0].0, html), {}, toVisit[1..], toVisit', toVisit[0].1 + 1)
  {
    var (currentUrl, depth) := toVisit[0];
    var page := Page(currentUrl, html);
    VisitKeepsQueue(web, seed, pages, depths, toVisit, page);
    pages' := pages + [page];
    depths' := depths + [depth];
    visited' := visited + {currentUrl};
    var hyperlinks := ExtractLinks(web, currentUrl, html);
    toVisit' := EnqueueLinks(web, seed, visited', hyperlinks, toVisit[1..], depth, pages', depths');
    VisitKeeps(web, seed, maxPages, maxDepth, visited, toVisit, pages, depths, html, toVisit');
    VisitCovers(web, seed, maxDepth, visited, toVisit, pages, depths, html, toVisit');
    VisitLevel(web, seed, maxDepth, visited, toVisit, pages, depths, html);
    VisitOrders(web, seed, maxPages, maxDepth, visited, toVisit, pages, depths, html, toVisit');
  }

  /** One turn of the `while` loop of `crawl`: pop the head of the queue;
      skip it when already visited or too deep; otherwise fetch it and, when
      it has content, record the page, mark it visited and queue its links. */
  method CrawlTurn(web: Web, seed: Url, maxPages: int, maxDepth: int,
                   visited: set<Url>, toVisit: seq<(Url, int)>, pages: seq<Page>, ghost depths: seq<int>)
    returns (visited': set<Url>, toVisit': seq<(Url, int)>, pages': seq<Page>, ghost depths': seq<int>)
    requires CrawlInv(web, seed, maxPages, maxDepth, visited, toVisit, pages, depths)
    requires CoverInv(web, seed, maxDepth, visited, toVisit, pages, depths)
    requires OrderInv(web, seed, maxDepth, visited, toVisit, pages, depths)
    requires toVisit != [] && |visited| < maxPages
    ensures CrawlInv(web, seed, maxPages, maxDepth, visited', toVisit', pages', depths')
    ensures CoverInv(web, seed, maxDepth, visited', toVisit', pages', depths')
    ensures OrderInv(web, seed, maxDepth, visited', toVisit', pages', depths')
    ensures toVisit[0].0 in visited || toVisit[0].1 > maxDepth || !HasContent(web, toVisit[0].0) ==>
      visited' == visited && pages' == pages && toVisit' == toVisit[1..]
    ensures toVisit[0].0 !in visited && toVisit[0].1 <= maxDepth && HasContent(web, toVisit[0].0) ==>
      var html := FetchContent(web, toVisit[0].0).value;
      && visited' == visited + {toVisit[0].0}
      && pages' == pages + [Page(toVisit[0].0, html)]
      // the rest of the queue, then exactly the page's unvisited same-domain links, once each, one level down
      && Appended(web, seed, visited', Links(web, toVisit[0].0, html), {}, toVisit[1..], toVisit', toVisit[0].1 + 1)
    ensures |visited'| <= maxPages
    ensures visited' == visited ==> |toVisit'| < |toVisit|
    ensures visited' != visited ==> |visited'| > |visited|
  {
    var (currentUrl, depth) := toVisit[0];
    visited', pages', depths' := visited, pages, depths;
    if currentUrl in visited || depth > maxDepth {
      SkipKeeps(web, seed, maxPages, maxDepth, visited, toVisit, pages, depths);
      SkipCovers(web, seed, maxDepth, visited, toVisit, pages, depths);
      assert forall k :: 0 <= k < |toVisit| ==> toVisit[0].1 <= toVisit[k].1;
      SkipOrders(web, seed, maxDepth, visited, toVisit, pages, depths);
      toVisit' := toVisit[1..];
      return;
    }
    var content := FetchContent(web, currentUrl);
    if content.Some? && content.value != "" {
      visited', toVisit', pages', depths' := VisitHead(web, seed, maxPages, maxDepth, visited, toVisit, pages, depths, content.value);
    } else {
      SkipKeeps(web, seed, maxPages, maxDepth, visited, toVisit, pages, depths);
      SkipCovers(web, seed, maxDepth, visited, toVisit, pages, depths);
      assert forall k :: 0 <= k < |toVisit| ==> toVisit[0].1 <= toVisit[k].1;
      SkipOrders(web, seed, maxDepth, visited, toVisit, pages, depths);
      toVisit' := toVisit[1..];
    }
  }

  /** With the queue empty nothing is pending, so every covered link is
      the URL of a recorded page. */
  lemma DoneCovers(web: Web, seed: Url, maxDepth: int, visited: set<Url>, pages: seq<Page>, depths: seq<int>)
    requires CoverInv(web, seed, maxDepth, visited, [], pages, depths)
    ensures forall i, l :: 0 <= i < |pages| && depths[i] < maxDepth && l in Links(web, pages[i].url, pages[i].html) &&
                           IsSameDomain(web, seed, l) && HasContent(web, l) ==>
      exists j :: 0 <= j < |pages| && pages[j].url == l
  {
    forall i, l | 0 <= i < |pages| && depths[i] < maxDepth && l in Links(web, pages[i].url, pages[i].html) &&
                  IsSameDomain(web, seed, l) && HasContent(web, l)
      ensures exists j :: 0 <= j < |pages| && pages[j].url == l
    {
      assert !Pending([], l, maxDepth);
    }
  }

  /** What a crawl from `seed` returns, with `depths` the depths at which the
      pages were visited: pages as `PagesOk` says, at most `maxPages` of
      them, at least the seed when it has content and the bounds allow one
      page; when the crawl stops below the page budget it has run out of
      queue, so every same-domain link with content of every page above the
      depth bound is among the pages; the pages come level by level; and
      within a level they come in the order of the pages that first linked
      them. */
  ghost predicate CrawlOk(web: Web, seed: Url, maxPages: int, maxDepth: int, pages: seq<Page>, depths: seq<int>)
  {
    && PagesOk(web, seed, maxDepth, pages, depths)
    && (|pages| <= maxPages || pages == [])
    && (0 < maxPages && 0 <= maxDepth && HasContent(web, seed) ==> |pages| > 0)
    && (|pages| < maxPages ==>
          forall i, l :: 0 <= i < |pages| && depths[i] < maxDepth && l in Links(web, pages[i].url, pages[i].html) &&
                         IsSameDomain(web, seed, l) && HasContent(web, l) ==>
            exists j :: 0 <= j < |pages| && pages[j].url == l)
    && LevelComplete(web, seed, pages, depths)
    && LevelOrder(web, seed, pages, depths)
  }

  /** When the loop ends, the invariants give what the crawl returns. */
  lemma CrawlDone(web: Web, seed: Url, maxPages: int, maxDepth: int,
                  visited: set<Url>, toVisit: seq<(Url, int)>, pages: seq<Page>, depths: seq<int>)
    requires CrawlInv(web, seed, maxPages, maxDepth, visited, toVisit, pages, depths)
    requires CoverInv(web, seed, maxDepth, visited, toVisit, pages, depths)
    requires OrderInv(web, seed, maxDepth, visited, toVisit, pages, depths)
    requires toVisit == [] || |visited| >= maxPages
    ensures CrawlOk(web, seed, maxPages, maxDepth, pages, depths)
  {
    if |pages| < maxPages {
      DoneCovers(web, seed, maxDepth, visited, pages, depths);
    }
  }

  /** `crawl`. The order in which the links of one page are queued follows
      Python's set iteration order, which the model leaves open. */
  method Crawl(web: Web, seed: Url, maxPages: int := MAX_PAGES, maxDepth: int := MAX_DEPTH)
    returns (pages: seq<Page>, ghost depths: seq<int>)
    ensures CrawlOk(web, seed, maxPages, maxDepth, pages, depths)
  {
    var visited: set<Url> := {};
    var toVisit: seq<(Url, int)> := [(seed, 0)];
    pages, depths := [], [];
    while toVisit != [] && |visited| < maxPages
      invariant CrawlInv(web, seed, maxPages, maxDepth, visited, toVisit, pages, depths)
      invariant CoverInv(web, seed, maxDepth, visited, toVisit, pages, depths)
      invariant OrderInv(web, seed, maxDepth, visited, toVisit, pages, depths)
      decreases maxPages - |visited|, |toVisit|
    {
      visited, toVisit, pages, depths := CrawlTurn(web, seed, maxPages, maxDepth, visited, toVisit, pages, depths);
    }
    CrawlDone(web, seed, maxPages, maxDepth, visited, toVisit, pages, depths);
  }
}
