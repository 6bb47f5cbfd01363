/** The crawler's shared state and the operations on it that `crawler.py`
    performs inside `with lock:` blocks (plus the queue pop, which the
    thread-safe queue performs on its own). Each function here is one such
    atomic block; `ScrapePage` and `OfferLinks` are `scrape` and the offer
    loop of `worker` run by one thread with no other thread interleaving. */
module Frontier {
  import opened Wrappers
  import opened Text
  import opened Links

  /** A URL: an opaque string, compared by exact string equality. */
  type Url = string

  /** Resolution of a raw reference against the page it was found on
      (`urljoin`); left uninterpreted. `None` stands for the `ValueError`
      `urljoin` raises on a reference it cannot parse. */
  type Resolver = (Url, string) -> Option<Url>

  /** The shared state: the pending FIFO queue, the visited set, and the two
      append-only log files (every attempted URL, and every URL whose page
      contained the search term). */
  datatype State = State(queue: seq<Url>, visited: set<Url>, crawled: seq<Url>, matches: seq<Url>)

  /** The command-line settings the core reads: the search term (`-s`) and
      the URL filter (`-u`); both are empty when not given. */
  datatype Config = Config(searchTerm: string, urlFilter: string)

  /** The outcome of fetching and parsing a page: a failure (network error,
      timeout, non-2xx status, parse error) or the page text with the `href`
      values of its anchors, in document order. */
  datatype FetchResult = FetchFailed | Fetched(text: string, hrefs: seq<string>)

  /** No element occurs twice. */
  predicate NoDup<T(==)>(s: seq<T>) {
    forall i, j | 0 <= i < j < |s| :: s[i] != s[j]
  }

  /** The elements of a sequence, as a set. */
  function Elems<T>(s: seq<T>): set<T> {
    set x | x in s
  }

  /** The state `main` sets up before starting any worker: the start URL
      queued, nothing visited, both logs truncated to empty. */
  function Seed(start: Url): (f: State)
    ensures f.queue == [start] && f.visited == {} && f.crawled == [] && f.matches == []
  {
    State([start], {}, [], [])
  }

  datatype Popped = Popped(url: Url, frontier: State)

  /** `queue_urls.get`: take the oldest pending URL; nothing when the queue is
      empty (the call times out and the worker loops). */
  function Dequeue(f: State): (r: Option<Popped>)
    ensures r.None? <==> f.queue == []
    ensures r.Some? ==> [r.value.url] + r.value.frontier.queue == f.queue
    ensures r.Some? ==> r.value.frontier == f.(queue := r.value.frontier.queue)
  {
    if f.queue == [] then None
    else Some(Popped(f.queue[0], f.(queue := f.queue[1..])))
  }

  datatype Gated = Gated(frontier: State, won: bool)

  /** The claim gate: under the lock, drop `u` if it is already visited,
      otherwise mark it visited before it is fetched. */
  function Gate(f: State, u: Url): (g: Gated)
    ensures g.won <==> u !in f.visited
    ensures g.frontier.visited == f.visited + {u}
    ensures g.frontier == f.(visited := g.frontier.visited)
  {
    if u in f.visited then Gated(f, false)
    else Gated(f.(visited := f.visited + {u}), true)
  }

  /** The search test: a search term was given and occurs literally in the
      page text. The first conjunct matters: the empty string occurs in
      every text. */
  predicate SearchHit(cfg: Config, text: string) {
    cfg.searchTerm != "" && Contains(text, cfg.searchTerm)
  }

  /** Without the first conjunct of `SearchHit` every page would match: the
      empty term occurs in every text, yet an empty term never hits. */
  lemma EmptySearchTermNeverHits(cfg: Config, text: string)
    requires cfg.searchTerm == ""
    ensures Contains(text, cfg.searchTerm) && !SearchHit(cfg, text)
  {
    EmptyOccursEverywhere(text);
  }

  /** The match-log block: append `url` to the match log when the page
      text contains the search term. */
  function NoteMatch(cfg: Config, f: State, url: Url, text: string): (f': State)
    ensures f'.matches == f.matches + [url] <==> SearchHit(cfg, text)
    ensures !SearchHit(cfg, text) ==> f' == f
    ensures f' == f.(matches := f'.matches)
  {
    if SearchHit(cfg, text) then f.(matches := f.matches + [url]) else f
  }

  /** What the link-extraction loop does with one raw reference. */
  datatype Outcome =
      /** an exception ends the loop */
    | Stop
      /** the reference fails the link filter and is skipped */
    | Skip
      /** the reference passes the filter and resolves to `url` */
    | Found(url: Url)

  /** The outcome of one raw reference: `legit_link` raises, or accepts it
      and `urljoin` raises, and the loop ends; `legit_link` rejects it; or
      it is resolved against the page URL. */
  function Judge(join: Resolver, base: Url, raw: string): Outcome {
    match LegitLink(raw)
    case Raise => Stop
    case Reject => Skip
    case Accept =>
      match join(base, raw)
      case None => Stop
      case Some(l) => Found(l)
  }

  /** `Judge` in terms of the two calls: a reference is skipped exactly
      when `legit_link` rejects it, and resolves to a link exactly when
      `legit_link` accepts it and `urljoin` returns, to what `urljoin`
      returned; every other case ends the loop. */
  lemma JudgeSpec(join: Resolver, base: Url, raw: string)
    ensures Judge(join, base, raw) == Skip <==> LegitLink(raw) == Reject
    ensures Judge(join, base, raw).Found? <==> LegitLink(raw) == Accept && join(base, raw).Some?
    ensures Judge(join, base, raw).Found? ==> join(base, raw) == Some(Judge(join, base, raw).url)
    ensures Judge(join, base, raw) == Stop <==>
              LegitLink(raw) == Raise || (LegitLink(raw) == Accept && join(base, raw).None?)
  {
  }

  /** What the extraction loop makes of each reference, in order. Each
      outcome depends only on the reference and the page URL. */
  function Outcomes(join: Resolver, base: Url, hrefs: seq<string>): (os: seq<Outcome>)
    ensures |os| == |hrefs|
    decreases |hrefs|
  {
    if hrefs == [] then [] else [Judge(join, base, hrefs[0])] + Outcomes(join, base, hrefs[1..])
  }

  /** The `k`-th outcome is the outcome of the `k`-th reference. */
  lemma {:induction false} OutcomesSpec(join: Resolver, base: Url, hrefs: seq<string>)
    ensures forall k | 0 <= k < |hrefs| :: Outcomes(join, base, hrefs)[k] == Judge(join, base, hrefs[k])
    decreases |hrefs|
  {
    if hrefs != [] {
      OutcomesSpec(join, base, hrefs[1..]);
      assert forall k | 1 <= k < |hrefs| :: hrefs[k] == hrefs[1..][k - 1];
    }
  }

  /** The outcomes the extraction loop gets through: those before the first
      one that ends the loop. */
  function Reached(os: seq<Outcome>): (pre: seq<Outcome>)
    ensures pre <= os
    ensures Stop !in pre
    ensures |pre| < |os| ==> os[|pre|] == Stop
    decreases |os|
  {
    if os == [] || os[0] == Stop then []
    else
      var rest := Reached(os[1..]);
      assert |rest| < |os| - 1 ==> os[1 + |rest|] == os[1..][|rest|];
      [os[0]] + rest
  }

  /** When no reference ends the loop, the loop gets through all of them;
      this follows from the contract of `Reached`. */
  lemma ReachedAll(os: seq<Outcome>)
    requires Stop !in os
    ensures Reached(os) == os
    decreases |os|
  {
  }

  /** One iteration of the link-extraction loop, for a reference that does
      not end it: a resolved reference is, under the lock, kept when it is
      not yet visited. */
  function ExtractOne(visited: set<Url>, o: Outcome, kept: seq<Url>): seq<Url> {
    match o
    case Found(l) => if l !in visited then kept + [l] else kept
    case _ => kept
  }

  /** The links the extraction loop adds after `kept` are unvisited
      resolutions of references it got through. */
  ghost predicate ExtractSound(visited: set<Url>, reached: seq<Outcome>, kept: seq<Url>, r: seq<Url>) {
    && kept <= r
    && forall l | l in r[|kept|..] :: l !in visited && Found(l) in reached
  }

  /** Every unvisited resolution of a reference the loop got through is in
      the result. */
  ghost predicate ExtractComplete(visited: set<Url>, reached: seq<Outcome>, r: seq<Url>) {
    forall l | Found(l) in reached && l !in visited :: l in r
  }

  lemma ExtractSoundStep(visited: set<Url>, reached: seq<Outcome>, kept: seq<Url>, r: seq<Url>)
    requires reached != []
    requires ExtractSound(visited, reached[1..], ExtractOne(visited, reached[0], kept), r)
    ensures ExtractSound(visited, reached, kept, r)
  {
    var next := ExtractOne(visited, reached[0], kept);
    assert r[|kept|..] == next[|kept|..] + r[|next|..];
    assert reached[0] in reached;
    assert forall o | o in reached[1..] :: o in reached;
  }

  lemma ExtractCompleteStep(visited: set<Url>, reached: seq<Outcome>, kept: seq<Url>, r: seq<Url>)
    requires reached != []
    requires var next := ExtractOne(visited, reached[0], kept);
      next <= r && ExtractComplete(visited, reached[1..], r)
    ensures ExtractComplete(visited, reached, r)
  {
    var o := reached[0];
    var next := ExtractOne(visited, o, kept);
    assert forall x | x in reached :: x == o || x in reached[1..];
    if o.Found? && o.url !in visited {
      assert next[|kept|] == o.url;
      assert r[|kept|] == o.url;
    }
  }

  /** The unvisited resolutions among `os`, in order and with repeats:
      what the loop appends for the outcomes it gets through. */
  function Unvisited(visited: set<Url>, os: seq<Outcome>): seq<Url>
    decreases |os|
  {
    if os == [] then []
    else
      var head := if os[0].Found? && os[0].url !in visited then [os[0].url] else [];
      head + Unvisited(visited, os[1..])
  }

  /** A link occurs in `Unvisited` as often as an outcome resolves to it,
      unless it is visited, when it does not occur at all. */
  lemma {:induction false} UnvisitedCounts(visited: set<Url>, os: seq<Outcome>)
    ensures forall l :: multiset(Unvisited(visited, os))[l] == if l in visited then 0 else multiset(os)[Found(l)]
    decreases |os|
  {
    if os != [] {
      UnvisitedCounts(visited, os[1..]);
      assert os == [os[0]] + os[1..];
    }
  }

  /** One iteration of the loop extends the reference description from the
      rest of the outcomes to all of them. */
  lemma ExtractOrderStep(visited: set<Url>, reached: seq<Outcome>, kept: seq<Url>, r: seq<Url>)
    requires reached != []
    requires r == ExtractOne(visited, reached[0], kept) + Unvisited(visited, reached[1..])
    ensures r == kept + Unvisited(visited, reached)
  {
    var o := reached[0];
    var head := if o.Found? && o.url !in visited then [o.url] else [];
    assert ExtractOne(visited, o, kept) == kept + head;
    assert Unvisited(visited, reached) == head + Unvisited(visited, reached[1..]);
    AppendAssociates(kept, head, Unvisited(visited, reached[1..]));
  }

  /** The link-extraction loop over the outcomes of the remaining
      references, continuing the list `kept` (the source's `fresh`) already
      built. It ends at the first reference that raises, keeping what it
      has; the `except` clause that catches the exception lets `scrape`
      return that list. */
  function ExtractFrom(visited: set<Url>, os: seq<Outcome>, kept: seq<Url>): (r: seq<Url>)
    ensures kept <= r
    ensures |r| <= |kept| + |Reached(os)|
    ensures forall l | l in r[|kept|..] :: l !in visited && Found(l) in Reached(os)
    ensures forall l | Found(l) in Reached(os) && l !in visited :: l in r
    ensures r == kept + Unvisited(visited, Reached(os))
    decreases |os|
  {
    if os == [] || os[0] == Stop then
      assert kept + [] == kept;
      kept
    else
      var next := ExtractOne(visited, os[0], kept);
      var r := ExtractFrom(visited, os[1..], next);
      var reached := Reached(os);
      assert reached[1..] == Reached(os[1..]);
      ExtractSoundStep(visited, reached, kept, r);
      ExtractCompleteStep(visited, reached, kept, r);
      ExtractOrderStep(visited, reached, kept, r);
      r
  }

  /** The loop keeps each unvisited link as many times as the references
      it gets through resolve to it, and no visited link. */
  lemma ExtractFromCounts(visited: set<Url>, os: seq<Outcome>, kept: seq<Url>)
    ensures var r := ExtractFrom(visited, os, kept);
      forall l :: multiset(r[|kept|..])[l] == if l in visited then 0 else multiset(Reached(os))[Found(l)]
  {
    var r := ExtractFrom(visited, os, kept);
    assert r[|kept|..] == Unvisited(visited, Reached(os));
    UnvisitedCounts(visited, Reached(os));
  }

  /** The crawl-log block: append the attempted URL to the crawl log. */
  function LogCrawled(f: State, url: Url): (f': State)
    ensures f'.crawled == f.crawled + [url]
    ensures f' == f.(crawled := f'.crawled)
  {
    f.(crawled := f.crawled + [url])
  }

  datatype Scraped = Scraped(frontier: State, kept: seq<Url>)

  /** `scrape(url)` for a page whose fetch ended in `result`, with no other
      thread acting meanwhile: the match log gets the URL when the search
      term occurs, the links the extraction loop gets through are filtered
      into `kept` (the source's `fresh`), and the URL goes to the crawl log
      whatever happened. */
  function ScrapePage(cfg: Config, join: Resolver, f: State, url: Url, result: FetchResult): (s: Scraped)
    ensures s.frontier.crawled == f.crawled + [url]
    ensures s.frontier.queue == f.queue && s.frontier.visited == f.visited
    ensures s.frontier.matches == f.matches + [url] <==> result.Fetched? && SearchHit(cfg, result.text)
    ensures s.frontier.matches == f.matches || s.frontier.matches == f.matches + [url]
    ensures result.FetchFailed? ==> s.kept == []
    ensures result.Fetched? ==> forall l | l in s.kept ::
      l !in f.visited && Found(l) in Reached(Outcomes(join, url, result.hrefs))
    ensures result.Fetched? ==> forall l | Found(l) in Reached(Outcomes(join, url, result.hrefs)) && l !in f.visited ::
      l in s.kept
    ensures result.Fetched? ==> s.kept == Unvisited(f.visited, Reached(Outcomes(join, url, result.hrefs)))
    ensures result.Fetched? ==> forall l :: multiset(s.kept)[l] ==
                                  if l in f.visited then 0 else multiset(Reached(Outcomes(join, url, result.hrefs)))[Found(l)]
  {
    match result
    case FetchFailed => Scraped(LogCrawled(f, url), [])
    case Fetched(text, hrefs) =>
      var f1 := NoteMatch(cfg, f, url, text);
      var os := Outcomes(join, url, hrefs);
      var kept := ExtractFrom(f1.visited, os, []);
      assert kept[0..] == kept;
      ExtractFromCounts(f1.visited, os, []);
      Scraped(LogCrawled(f1, url), kept)
  }

  /** The URL filter: no filter was given, or the link contains it. */
  predicate PassesUrlFilter(filter: string, link: Url) {
    filter == "" || Contains(link, filter)
  }

  datatype Offered = Offered(frontier: State, appended: bool)

  /** One iteration of the offer loop: a link that passes the URL filter is,
      under the lock, queued when it is not visited. */
  function Offer(cfg: Config, f: State, link: Url): (o: Offered)
    ensures o.appended <==> PassesUrlFilter(cfg.urlFilter, link) && link !in f.visited
    ensures o.frontier.queue == f.queue + (if o.appended then [link] else [])
    ensures o.frontier == f.(queue := o.frontier.queue)
  {
    if PassesUrlFilter(cfg.urlFilter, link) && link !in f.visited
    then Offered(f.(queue := f.queue + [link]), true)
    else Offered(f, false)
  }

  datatype OfferCount = OfferCount(frontier: State, countNew: nat)

  /** What the offer loop promises about its result `r`, given the
      remaining links and the count `countNew` so far. */
  ghost predicate OfferSpec(cfg: Config, f: State, links: seq<Url>, countNew: nat, r: OfferCount) {
    && f.queue <= r.frontier.queue
    && r.countNew == countNew + |r.frontier.queue| - |f.queue|
    && r.frontier == f.(queue := r.frontier.queue)
    && (forall l | l in r.frontier.queue[|f.queue|..] ::
          l in links && l !in f.visited && PassesUrlFilter(cfg.urlFilter, l))
    && (forall l | l in links && l !in f.visited && PassesUrlFilter(cfg.urlFilter, l) ::
          l in r.frontier.queue[|f.queue|..])
  }

  /** One iteration of the offer loop extends the promise from the rest of
      the links to all of them. */
  lemma OfferSpecStep(cfg: Config, f: State, links: seq<Url>, countNew: nat, r: OfferCount)
    requires links != []
    requires var o := Offer(cfg, f, links[0]);
      OfferSpec(cfg, o.frontier, links[1..], if o.appended then countNew + 1 else countNew, r)
    ensures OfferSpec(cfg, f, links, countNew, r)
  {
    var o := Offer(cfg, f, links[0]);
    var q := r.frontier.queue;
    assert q[|f.queue|..] == o.frontier.queue[|f.queue|..] + q[|o.frontier.queue|..];
    assert forall l | l in links[1..] :: l in links;
    assert forall l | l in links :: l == links[0] || l in links[1..];
    if o.appended {
      assert q[|f.queue|] == links[0];
    }
  }

  /** The links that pass the URL filter and are not visited, in order and
      with repeats. */
  function Offerable(filter: string, visited: set<Url>, links: seq<Url>): seq<Url>
    decreases |links|
  {
    if links == [] then []
    else
      var head := if PassesUrlFilter(filter, links[0]) && links[0] !in visited then [links[0]] else [];
      head + Offerable(filter, visited, links[1..])
  }

  /** A link occurs in `Offerable` as often as in the links when it passes
      the URL filter and is not visited, and not at all otherwise. */
  lemma {:induction false} OfferableCounts(filter: string, visited: set<Url>, links: seq<Url>)
    ensures forall l :: multiset(Offerable(filter, visited, links))[l] ==
                        if PassesUrlFilter(filter, l) && l !in visited then multiset(links)[l] else 0
    decreases |links|
  {
    if links != [] {
      OfferableCounts(filter, visited, links[1..]);
      assert links == [links[0]] + links[1..];
    }
  }

  /** One iteration of the offer loop extends the reference description
      from the rest of the links to all of them; `appended` is whether the
      iteration queued the first link. */
  lemma OfferOrderStep(filter: string, visited: set<Url>, links: seq<Url>, appended: bool, q0: seq<Url>, q: seq<Url>)
    requires links != []
    requires appended <==> PassesUrlFilter(filter, links[0]) && links[0] !in visited
    requires q == (q0 + if appended then [links[0]] else []) + Offerable(filter, visited, links[1..])
    ensures q == q0 + Offerable(filter, visited, links)
  {
    var head := if appended then [links[0]] else [];
    AppendAssociates(q0, head, Offerable(filter, visited, links[1..]));
  }

  lemma AppendAssociates(a: seq<Url>, b: seq<Url>, c: seq<Url>)
    ensures (a + b) + c == a + (b + c)
  {
  }

  /** The offer loop over the remaining links with no other thread acting
      meanwhile, continuing from a count of `countNew` links queued so far. */
  function OfferLinks(cfg: Config, f: State, links: seq<Url>, countNew: nat): (r: OfferCount)
    ensures f.queue <= r.frontier.queue
    ensures r.countNew == countNew + |r.frontier.queue| - |f.queue|
    ensures r.frontier == f.(queue := r.frontier.queue)
    ensures forall l | l in r.frontier.queue[|f.queue|..] ::
      l in links && l !in f.visited && PassesUrlFilter(cfg.urlFilter, l)
    ensures forall l | l in links && l !in f.visited && PassesUrlFilter(cfg.urlFilter, l) ::
      l in r.frontier.queue[|f.queue|..]
    decreases |links|
  {
    if links == [] then OfferCount(f, countNew)
    else
      var o := Offer(cfg, f, links[0]);
      var r := OfferLinks(cfg, o.frontier, links[1..], if o.appended then countNew + 1 else countNew);
      OfferSpecStep(cfg, f, links, countNew, r);
      r
  }

  /** The offer loop over `links` is one offer followed by the loop over
      the rest. */
  lemma OfferLinksCons(cfg: Config, f: State, links: seq<Url>, countNew: nat)
    requires links != []
    ensures var o := Offer(cfg, f, links[0]);
      OfferLinks(cfg, f, links, countNew)
      == OfferLinks(cfg, o.frontier, links[1..], if o.appended then countNew + 1 else countNew)
  {
  }

  /** The offer loop appends the links that pass the URL filter and are
      not visited, in their order and with repeats. */
  lemma {:induction false} OfferLinksInOrder(cfg: Config, f: State, links: seq<Url>, countNew: nat)
    ensures OfferLinks(cfg, f, links, countNew).frontier.queue == f.queue + Offerable(cfg.urlFilter, f.visited, links)
    decreases |links|
  {
    if links == [] {
      assert f.queue + [] == f.queue;
    } else {
      var o := Offer(cfg, f, links[0]);
      var n := if o.appended then countNew + 1 else countNew;
      OfferLinksInOrder(cfg, o.frontier, links[1..], n);
      OfferOrderStep(cfg.urlFilter, f.visited, links, o.appended, f.queue, OfferLinks(cfg, o.frontier, links[1..], n).frontier.queue);
    }
  }

  /** The offer loop queues, and counts in `count_new`, each link as many
      times as it occurs when it passes the URL filter and is not visited,
      and no other link. */
  lemma OfferLinksCounts(cfg: Config, f: State, links: seq<Url>, countNew: nat)
    ensures var r := OfferLinks(cfg, f, links, countNew);
      && (forall l :: multiset(r.frontier.queue[|f.queue|..])[l] ==
            if PassesUrlFilter(cfg.urlFilter, l) && l !in f.visited then multiset(links)[l] else 0)
      && r.countNew == countNew + |Offerable(cfg.urlFilter, f.visited, links)|
  {
    var r := OfferLinks(cfg, f, links, countNew);
    OfferLinksInOrder(cfg, f, links, countNew);
    assert r.frontier.queue[|f.queue|..] == Offerable(cfg.urlFilter, f.visited, links);
    OfferableCounts(cfg.urlFilter, f.visited, links);
  }
}
