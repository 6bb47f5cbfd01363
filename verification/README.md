# arachnyx crawler: frontier and link filter, in Dafny

This project models the core of the arachnyx breadth-first web crawler
(`crawler.py`). The core is the shared crawl frontier: a FIFO queue of
pending URLs, a set of visited URLs, and two append-only log files. The
crawl log holds every URL a worker attempted. The match log holds every URL
whose page contained the search term. Worker threads pop URLs, claim them
under a lock, scrape them, and offer the links they find back to the queue.
The project also models the link filter `legit_link` and the page
bookkeeping of `scrape`.

Threads are modelled as an interleaving of atomic steps. Each worker is a
program counter (`Workers.Phase`) over the body of its loop. A step runs one
block of that body that touches shared state, which is either the queue pop
or one `with lock:` block. A run is an arbitrary sequence of steps of
arbitrary workers. So every schedule the lock admits is a run, and the
theorems hold for all of them. The fetch result, the page's `href` values,
exceptions and `urljoin` are inputs of the model.

`legit_link` does not always return. `urlparse` raises `ValueError` on a
netloc with unbalanced brackets, such as `http://[::1`, and so does
`urljoin`. Inside the link loop of `scrape`, such an exception ends the loop,
and the `except` clause keeps the links collected so far. The model gives
every reference an outcome (`Frontier.Outcome`): the loop ends, the
reference is skipped, or it resolves to a link. An outcome depends only on
the reference and the page URL, so the model works out the outcomes when
the page arrives (`Frontier.Outcomes`). The loop still stops at the first
outcome that ends it. So one malformed anchor costs a page every link
after it; "## Findings" states this and the filter as evidently intended.
The rest of the model follows the code as written.

The main theorem is `Workers.CrawlLogDuplicateFree`. For any run from the
start state, it proves the following:

- no URL wins the claim gate twice;
- neither log ever holds a duplicate;
- every claimed URL is either in the crawl log or being scraped right now, and never both;
- at most one worker scrapes a given URL at any moment.

Files:

- `wrappers.dfy`: `Option`.
- `text.dfy`: Python's `in` on strings, `str.find` for one character, and ASCII lower-casing.
- `links.dfy`: the part of `urlparse` that `legit_link` depends on, and `legit_link` with its three outcomes. That part is the cleaning of the reference, the scheme split, and the netloc check that makes `urlparse` raise `ValueError`.
- `frontier.dfy`: the shared state and the lock-guarded blocks. It also has `scrape` and the offer loop, each run without interference.
- `workers.dfy`: the interleaved worker model, its invariant, the run theorems, and the lemmas that connect it to `frontier.dfy`.
- `findings.dfy`: what one malformed anchor does to a page as the code is written, and the filter that answers no instead (see "## Findings").

## Model

| member | source | states |
|---|---|---|
| Links.StripLeading | crawler.py:49 | `urlparse` first strips the leading C0 controls and spaces: the result is a suffix of the reference and does not start with such a character. `StripLeadingDropsBlanks` adds that only such characters were dropped. |
| Links.RemoveUnsafeSpec | crawler.py:49 | `urlparse` then deletes every tab, CR and LF and keeps every other character. |
| Links.CleanOnlyDeletes | crawler.py:49 | Cleaning only deletes characters; it never adds one. |
| Links.CleanKeepsPrintable | crawler.py:49 | A reference without control characters or spaces is parsed as written. |
| Links.SplitSchemeSpec | crawler.py:49-50 | A non-empty scheme is the lower-cased text before the first `:` of the cleaned reference, and that text has the scheme syntax of section 3.1 of RFC 3986. What follows the `:` is the rest. An empty scheme means no text before a first `:` has that syntax, and nothing is split off. |
| Links.Netloc | crawler.py:49 | After a leading `//`, the netloc runs up to the first `/`, `?` or `#`, or to the end. Without `//` there is no netloc. |
| Links.UrlsplitRaises | crawler.py:49 | `urlparse` raises `ValueError` when the netloc has a `[` without a `]` or a `]` without a `[`. Only a reference with an authority part (`//` after the scheme) can raise. |
| Links.NoBracketNoRaise | crawler.py:49 | A reference without `[` and `]` never makes `urlparse` raise. |
| Links.LegitLink | crawler.py:43-50 | Empty references and references starting with `#` are rejected. Every reference starting with `//` is accepted, whatever follows, before anything is parsed. The call raises only when `urlparse` raises. |
| Links.SchemeIsWord | crawler.py:49-50 | For a lower-case word `w`, the parsed scheme is `w` exactly when the cleaned reference starts with `w:` in any letter case. |
| Links.LegitLinkByPrefix | crawler.py:43-50 | Independent description of the filter, in both directions. A reference is accepted exactly when it starts with `//`, or when it is not empty and not a fragment, `urlparse` does not raise, and the cleaned reference starts with `http:` or `https:` ignoring case. It raises exactly when it is not empty, not a fragment, not protocol-relative, and its netloc has unbalanced brackets. |
| Links.AcceptsWebSchemes | crawler.py:43-50 | A reference starting with `http:` or `https:` in any letter case is accepted, or raises when `urlparse` raises. |
| Links.AcceptsLowerCaseWebSchemes | crawler.py:43-50 | The same for `http:` and `https:` in lower case: accepted unless `urlparse` raises, when the call raises. |
| Links.AcceptsAfterLeadingBlank | crawler.py:43-50 | A reference led by a control character or a space, then `http:` or `https:` in any case, is accepted unless `urlparse` raises. The raw checks see the blank; `urlparse` strips it. |
| Links.LeadingBlankIgnored | crawler.py:43-50 | A control character or space in front of a reference that is not empty, a fragment or protocol-relative leaves the verdict unchanged. |
| Links.RaisesOnUnbalancedHost | crawler.py:49 | An `http://` reference whose host has a `[` without a `]`, or the reverse, makes `legit_link` raise. |
| Links.RaisesOnUnclosedIpv6Host | crawler.py:49 | `http://[::1` makes `legit_link` raise. |
| Links.AcceptsWebReferences | crawler.py:49-50 | Every `http://`, `https://` or `HTTP://` reference without brackets is accepted. The capitals pass because the parsed scheme is lower-cased. |
| Links.AcceptsAfterLeadingSpace | crawler.py:43-50 | Every ` http://` reference without brackets is accepted, even though its first character is a space. |
| Links.AcceptsProtocolRelative | crawler.py:47-48 | `//cdn.example.com/x` is accepted. |
| Links.RejectsByFirstChar | crawler.py:43-50 | A reference whose first character is none of a control character, a space, `/`, `h` and `H` is never accepted: it is rejected or raises. |
| Links.RejectsEmptyAndFragment | crawler.py:45-46 | `""` and `#frag` are rejected. |
| Links.RejectsByFirstCharWithoutBrackets | crawler.py:43-50 | A reference without brackets whose first character is none of a control character, a space, `/`, `h` and `H` is rejected. |
| Links.RejectsOtherSchemes | crawler.py:49-50 | Every `ftp://` reference and every `javascript:` reference without brackets is rejected. |
| Links.RejectsRelativePath | crawler.py:43-50 | A reference without a `:` that is not protocol-relative is never accepted, because it has no scheme. Without brackets it is rejected. |
| Frontier.EmptySearchTermNeverHits | crawler.py:67 | The empty search term occurs in every text, yet it never counts as a hit: the `search_term and` guard is what stops every page from matching. |
| Text.IndexOf | crawler.py:49 | The position found is the first `:` of the reference. "None" is returned exactly when there is no `:`. |
| Frontier.Seed | crawler.py:160-168 | Before any worker starts, the queue holds only the start URL, nothing is visited, and both logs are empty. |
| Frontier.Dequeue | crawler.py:113-115 | The pop takes the oldest queued URL and leaves the rest of the queue in order. It returns nothing exactly when the queue is empty. |
| Frontier.Gate | crawler.py:117-121 | The claim is won exactly when the URL was not visited. Afterwards the URL is visited. Nothing else changes: a lost claim leaves the state as it was. |
| Frontier.NoteMatch | crawler.py:66-70 | The match log gains the page URL exactly when a search term was given and occurs in the page text. Otherwise nothing changes. |
| Frontier.JudgeSpec | crawler.py:95-100 | `Judge` is one pass of the loop body. A reference is skipped exactly when `legit_link` returns False. It resolves to a link exactly when `legit_link` returns True and `urljoin` returns, and the link is what `urljoin` returned. In every other case, a raise in `legit_link` or `urljoin`, the loop ends. |
| Frontier.OutcomesSpec | crawler.py:93-100 | The outcome of the `k`-th reference is what one pass of the loop body makes of it. If `legit_link` raises, or accepts and `urljoin` raises, the loop ends. If `legit_link` rejects, the reference is skipped. Otherwise it resolves to the `urljoin` result. |
| Frontier.Reached | crawler.py:93-102 | The loop gets through a prefix of the references that holds no loop-ending outcome. When it stops early, it is at the first reference whose outcome ends it, because the `except` leaves the loop there. |
| Frontier.ReachedAll | crawler.py:93-100 | When no reference raises, the loop gets through all of them. |
| Frontier.UnvisitedCounts | crawler.py:98-102 | A link occurs among the unvisited resolutions as often as an outcome resolves to it, and not at all if it is visited. |
| Frontier.ExtractFrom | crawler.py:93-102 | The links kept before stay in front. After them come the unvisited resolutions of the references the loop got through, in document order and with repeats. Every kept link is unvisited, and every unvisited resolution is kept. |
| Frontier.ExtractFromCounts | crawler.py:93-102 | The loop appends each unvisited link exactly as many times as the references it got through resolve to it, and no visited link. |
| Frontier.LogCrawled | crawler.py:103-106 | The crawl log gains exactly the attempted URL at its end. Nothing else changes. |
| Frontier.ScrapePage | crawler.py:53-107 | The crawl log always gains the URL, whether the fetch failed or not. The match log gains it exactly when the page was fetched and contains the search term. A failed fetch keeps no links. The kept links are the unvisited resolutions of the references the loop got through before any reference raised, in document order, each as many times as references resolve to it. Queue and visited set are unchanged. |
| Frontier.Offer | crawler.py:126-131 | A link is appended exactly when it passes the URL filter and is not visited. Only the queue changes. |
| Frontier.OfferableCounts | crawler.py:124-131 | A link occurs among the offerable links as often as among the given links when it passes the URL filter and is not visited, and not at all otherwise. |
| Frontier.OfferLinks | crawler.py:124-131 | The old queue is kept as a prefix. `count_new` rises by exactly the number of links appended. The appended links are exactly the given links that pass the URL filter and are not visited. Only the queue changes. |
| Frontier.OfferLinksInOrder | crawler.py:124-131 | The queue after the loop is the old queue followed by the given links that pass the URL filter and are not visited, in their order and with repeats. |
| Frontier.OfferLinksCounts | crawler.py:124-131 | The loop queues each link, and counts it in `count_new`, once per occurrence among the given links when it passes the URL filter and is not visited, and never otherwise. |
| Workers.Act | crawler.py:110-134 | The visited set changes only when a claim is won, and only by the claimed URL, whose fetch then starts. A claim is won exactly when the popped URL is unvisited. The crawl log grows only when a worker leaves `scrape`, and only by that worker's own URL. The match log grows only when a fetch arrives with a hit. The queue is unchanged, popped, or extended by one filtered unvisited link. `count_new` counts this worker's own appends. |
| Workers.Start | crawler.py:160-175 | The start state is the seeded frontier with the given number of idle workers. |
| Workers.Step | crawler.py:117-121 | A step that reports a claim added exactly that URL to the visited set, and the URL was not visited before. Any other step leaves the visited set unchanged. |
| Workers.ClaimsAtMostOnce | crawler.py:117-123 | In any run, the claimed URLs have no duplicate and none was visited at the start. The visited set grows by exactly the claimed URLs. So `scrape` runs at most once per URL. |
| Workers.StartEstablishesInv | crawler.py:160-175 | The frontier invariant holds before any worker runs. |
| Workers.StepPreservesInv | crawler.py:98-131 | Any atomic step of any worker preserves the frontier invariant. The invariant has four parts: one scraper per URL; a duplicate-free crawl log; visited equals logged plus in flight; a duplicate-free match log of visited URLs. |
| Workers.ExecutePreservesInv | crawler.py:110-134 | Any run preserves the frontier invariant. |
| Workers.CrawlLogDuplicateFree | crawler.py:103-121 | From the start state, under any schedule, the claims, the crawl log and the match log are all duplicate-free. The claimed URLs are exactly those logged plus those in flight, and no URL is both. At most one worker scrapes a URL at a time. |
| Workers.LogsOnlyGrow | crawler.py:104-106 | Across any run, the crawl log and the match log only gain entries at their ends, and the visited set only grows. |
| Workers.QueueOnlyAdmitsFilteredLinks | crawler.py:125-131 | Across any run, every queued URL is the start URL or passes the URL filter. |
| Workers.OneWorkerLogsInClaimOrder | crawler.py:117-123 | With one worker, a run extends the crawl log plus the URL in flight by exactly the claims, in claim order. |
| Workers.OneWorkerCrawlLogIsClaimOrder | crawler.py:104-123 | With one worker started from the seed, the claims are exactly the crawl log followed by the URL in flight. |
| Workers.TwoWorkersLogOutOfClaimOrder | crawler.py:104-123 | With two workers the crawl log can differ from claim order. In the run given, `a` and then `b` are claimed, the crawl log is `[b]`, and `a` is still being scraped. |
| Workers.SecondWorkerLogsFirst | crawler.py:103-121 | The second half of that run: worker 1 claims `b`, its fetch fails, and it logs `b` while worker 0 stays on `a`. |
| Workers.RunAlone | crawler.py:110-134 | A run in which only one worker acts leaves every other worker in its phase. The shared state, that worker's phase and the claims are those of the worker's own sequence of steps. |
| Workers.SoloExtract | crawler.py:93-106 | A worker in its link loop that finishes `scrape` alone takes one turn per reference the loop gets through, and keeps exactly the links `ExtractFrom` keeps. It then writes the crawl log. No other shared state changes, and it claims nothing. |
| Workers.SoloScrapeIsScrapePage | crawler.py:53-107 | A worker that scrapes a page alone ends in exactly the state `ScrapePage` gives, ready to offer the links it kept. |
| Workers.SoloOfferIsOfferLinks | crawler.py:124-131 | A worker running its offer loop alone queues exactly what `OfferLinks` queues, with the same `count_new`. |
| Workers.SoloClaim | crawler.py:113-121 | A worker that pops and claims alone drops a head URL that is already visited, or else marks an unvisited head visited and starts its fetch. Either way the rest of the queue and both logs are unchanged. |
| Findings.MalformedHrefDropsPage | crawler.py:43-50 | As written: a fetched page whose first anchor is `http://[::1` keeps no links at all, whatever anchors follow, because `urlparse` raises inside `legit_link` and the exception ends the link loop. |
| Findings.JudgeTotal | crawler.py:43-50 | As intended: `legit_link` answers no where it would raise, so such a reference is skipped. Where it does not raise, the outcome is the as-written one. The loop ends only when the reference is accepted and `urljoin` raises. |
| Findings.TotalFilterNeverStops | crawler.py:93-100 | Under the intended filter, when every accepted reference resolves, no reference ends the loop. |
| Findings.TotalFilterKeepsEveryResolution | crawler.py:93-102 | Under the intended filter, when every accepted reference resolves, the page keeps every unvisited resolution of its anchors, in document order and with repeats. |
| Findings.MalformedHrefSkipped | crawler.py:93-102 | Under the intended filter the malformed anchor is skipped, and the page keeps exactly the links it would keep without it. |

## Left out

- The HTTP fetch (`requests.get`, `raise_for_status`, the timeout and the user-agent header) is not modelled. Its outcome is an input: `FetchFailed`, or `Fetched` with the page text.
- BeautifulSoup parsing is not modelled. A fetched page arrives with its anchor `href` values as a given sequence. A parse error counts as `FetchFailed`, because it happens before the search.
- `urljoin` (reference resolution, section 5.2 of RFC 3986) is an uninterpreted function parameter (`Frontier.Resolver`). Its only modelled behaviour is the `ValueError` it raises, given as the result `None`.
- Any other exception raised inside `scrape`'s `try` block after the search is the input `Throw`. This includes a `legit_link` or `urljoin` call that raises in the image loop, and a failing `os.makedirs`. The worker keeps the links it has already collected, then goes on to the crawl log, as Python does. The model lets `Throw` arrive at any turn of the link loop, even after links were kept. In Python the image loop runs before the link loop, so such an exception comes before the first reference is judged, and the link loop's own exceptions are the outcome `Stop`. The model therefore admits more runs than Python can produce; every run theorem quantifies over all runs, so it still holds for Python's runs.
- Links.UrlsplitRaises: only the unbalanced-bracket check of `urlsplit` is modelled. Newer Python versions also raise in three more cases, none of them modelled: when NFKC normalisation of a non-ASCII netloc introduces `/`, `?`, `#`, `@` or `:`; when a bracketed netloc has text before the `[` or a suffix after the `]` that does not start with `:`; and when a bracketed host is not a valid IPv6 or IPvFuture address. For such references the model accepts or rejects where Python raises.
- Links.SplitSchemeSpec: older Python versions also refused a scheme when the rest of the reference was all digits; this is not modelled. Lower-casing is modelled for ASCII letters only, which covers every character a scheme can contain.
- The image download (`crawler.py:73-90`) is not modelled: its `src` filtering, fetches, file names and file writes. It is file I/O, and it does not touch the frontier. Its only effect on the core is an exception that escapes the loop, which is `Throw`.
- Failed writes to the log files are not modelled. The model assumes every append succeeds.
- Real threads, `stop_event`, the one-second `get` timeout, `task_done` and `qsize` are not modelled. A stopped worker is one the schedule no longer picks. An empty-queue timeout is a step that changes nothing.
- The progress `print` is not modelled. Its only value, `count_new`, is carried in the `Offering` phase.
- The SIGINT handler, the sleep loop in `main`, argparse, `print_usage` and colorama output are not modelled. They are lifecycle plumbing and console I/O. Truncating the logs at startup is modelled as the empty logs of `Frontier.Seed`.
- `del.py` is not part of this model. It deletes files under `images/`.
- The crawl log is written at the end of `scrape` (crawler.py:103-106), before `worker` offers anything (crawler.py:124-131). The model follows that order.
- Workers.OneWorkerLogsInClaimOrder: the crawl log follows claim order only when there is one worker. With more workers, a later claim can be logged first while the earlier one is still in flight; `Workers.TwoWorkersLogOutOfClaimOrder` gives such a run. For any number of workers, `Workers.CrawlLogDuplicateFree` still proves that the claims are the crawl log plus the URLs in flight, as sets.

## Findings

| source | as written | input that shows it | evidently intended | confidence | as-written member | corrected member |
|---|---|---|---|---|---|---|
| crawler.py:43-50 | `legit_link` calls `urlparse`, which raises `ValueError` on a netloc with an unbalanced bracket. In the link loop (crawler.py:93-102) that exception leaves the loop, so the page keeps none of the links after the bad anchor. | A fetched page whose anchors are `http://[::1` followed by any others. | A yes/no filter that answers no for a reference it cannot parse, so a bad anchor is skipped and the later links are kept. | not executed; follows from the bracket check in CPython's `urlsplit` | Findings.MalformedHrefDropsPage | Findings.JudgeTotal, Findings.TotalFilterKeepsEveryResolution, Findings.MalformedHrefSkipped |
