# Crawl frontier and URL gate of the site crawler

The repository's two scripts, `link.py` (several seeds) and `web_crawler.py`
(one seed), crawl web sites breadth first. Each takes a seed URL, pops
`(url, depth)` tasks from a FIFO queue, and skips URLs already visited or
deeper than `max_depth`. For every other URL it fetches the page, stores the
page's paragraph text in a collection named after the seed's host, and queues
the page's links that pass `is_valid_url` one level deeper. `is_valid_url`
accepts an http(s) URL that starts with the seed and does not end with a
deny-listed file suffix.

This project models that frontier and its gate in Dafny:

- `Text` covers the Python string operations involved: `find`,
  `startswith`, `endswith`, `lower`, `replace` and `"\n".join`. No line of
  the crawl calls `split`; `Text.Split` exists only as the inverse of `Join`,
  to state that the stored text gives the paragraphs back (`SplitJoin` and
  `JoinSplit`).
- `Url` models the scheme and netloc that `urlparse` extracts, the
  eligibility gate with the deny-list as a parameter, and the collection name
  `netloc.replace('.', '_')`.
- `Frontier` models the loop as functions on a state:
  - one turn of the `while` loop is `Step`;
  - one seed's loop is `Drain`;
  - the `for` over the seeds is `CrawlFrom`;
  - the whole `crawl` is `CrawlSpec`.

  The state holds the queue, the `visited` and `urls` sets, the records
  written to the store, the number of pacing sleeps, and the log of
  "Crawling:" lines. Termination follows from a measure: the number of URLs
  reachable within `max_depth` link steps that are not visited yet, then the
  queue's length.
- `CrawlInvariants` states what the crawl promises and proves it. The proof
  goes through an invariant that every turn keeps.
- `Crawler` holds the loop as the scripts write it. A `for` runs over the
  seeds and a `while` over the queue, with `pop(0)` and `append`, and an
  inner `for` runs over the hrefs. Each of these methods is proved to
  compute the functions of `Frontier`.
- `Link` and `WebCrawler` instantiate the loop for the two scripts, each
  with its own deny-list.

The fetcher (`requests.get` plus BeautifulSoup's `find_all('p')` and
`find_all('a')`) is a parameter `fetch: string -> Response`. It gives, for a
URL, either `RequestFailed` or the page's paragraph texts and its hrefs.
`urljoin` is a parameter `resolve`. An href that is missing (`None`) or empty
is represented as `""`; both are falsy for the `if href:` test.

The deny-list check runs on the whole URL string, not on its path, exactly as
the code does. For example, `https://x.test/a.pdf?x=1` is accepted, and so
is `https://x.test/a.PDF`.

## Model

| member | source | states |
|---|---|---|
| Text.IndexOfAny | link.py:20 | the first position holding a stop character, or the length when there is none; no earlier position holds one |
| Text.StartsWith | link.py:23 | `url.startswith(base_url)`: a string that starts with a prefix is that prefix followed by the rest of the string |
| Text.StartsWithConcat | link.py:23 | a prefix followed by anything starts with that prefix, and with the prefix extended by any leading part of the rest |
| Text.EndsWith | link.py:24 | a string that ends with a suffix is some stem followed by that suffix |
| Text.EndsWithAny | link.py:24 | no string ends with one of an empty tuple of suffixes (`s.endswith(())` is false), and a one-suffix tuple is that suffix's test; with `EndsWithAnyCons` this characterises the tuple test suffix by suffix |
| Text.Lower | link.py:22 | ASCII lower-casing keeps the length, leaves no upper-case letter, maps each upper-case letter to its lower-case partner and keeps every other character |
| Text.LowerIdempotent | link.py:22 | lower-casing a lower-cased string changes nothing |
| Text.ReplaceChar | link.py:55 | replacing one character keeps the length and changes exactly the positions holding the target; the target no longer occurs when it differs from the replacement |
| Text.ReplaceCharConcat | link.py:55 | replacing in a concatenation is replacing in each part |
| Text.Split | link.py:73 | splitting gives at least one piece and no piece holds the separator |
| Text.SplitJoin | link.py:73 | the stored page text, split at "\n", gives back the paragraphs, when none holds a newline |
| Text.JoinSplit | link.py:73 | joining the pieces of a split gives back the original text |
| Text.Join | link.py:73 | `"\n".join(paragraphs)` starts with the first paragraph and is at least one character per separator long |
| Text.JoinPair | link.py:73 | two paragraphs are stored as the first, "\n", the second |
| Text.EndsWithAnyCons | link.py:24 | ending with one of a tuple of suffixes is ending with its first suffix or with one of the rest |
| Text.EndsWithAnyConcat | link.py:24 | ending with one of two concatenated suffix lists is ending with one of either list |
| Text.EndsWithTail | link.py:24 | whether a URL ends with a suffix depends only on its last characters |
| Text.LastCharNotSuffix | link.py:24 | a URL whose last character ends no suffix ends with no suffix |
| Url.HasScheme | link.py:20 | `urlparse` splits off a scheme exactly when some ':' after the first character has an ASCII letter first and only scheme characters before it |
| Url.SchemeShape | link.py:20-22 | `urlparse(url).scheme` is non-empty exactly when a scheme is split off; it is then as long as the text before the first ':', starts with a letter and holds only lower-case scheme characters |
| Url.Netloc | link.py:55 | `urlparse(url).netloc` holds no '/', '?' or '#' and is no longer than the URL |
| Url.HttpSchemeIff | link.py:20-22 | `urlparse(url).scheme` is http or https exactly when the URL starts with "http:" or "https:" in any letter case |
| Url.IsValidUrlIff | link.py:18-25 | `is_valid_url` holds exactly when the URL has an http(s) scheme, starts with the seed and ends with no deny-listed suffix |
| Url.OutOfScopeRejected | link.py:23 | a URL that does not start with the seed is rejected |
| Url.SplitHttpScheme | link.py:20 | "http:" or "https:" followed by anything is parsed with that scheme and the rest |
| Url.NetlocOfHttpUrl | link.py:55 | the netloc of "http(s)://host" followed by a path, query or fragment is the host |
| Url.CollectionName | link.py:55 | the collection name has the netloc's length, contains no '.', holds '_' wherever the netloc holds '.', and matches the netloc everywhere else |
| Url.CollectionNameOfSeed | link.py:55 | the collection name of "http(s)://host/..." is the host with every '.' replaced by '_' |
| Frontier.Links | link.py:84-90 | every queued link is one level deeper, passes the gate under the current seed, was not visited, and comes from a non-empty href of the page |
| Frontier.Step | link.py:58-95 | one turn pops the head and never drops the rest of the queue; new tasks are one level deeper; the head is visited, and one sleep counted, exactly when it was neither visited nor too deep; one log line is written per sleep |
| Frontier.StepQueue | link.py:58-62 | (unfolds `Step`) after a turn the queue is the old tail, plus the page's links in href order when the head was processed and fetched |
| Frontier.StepFetched | link.py:65-95 | (unfolds `Step`) a processed, successfully fetched head is marked visited, its page stored under the seed's collection, its links appended, one sleep counted and one log line written |
| Frontier.StepProgress | link.py:57 | every turn lowers the termination measure, so the `while` loop ends |
| Frontier.DrainStep | link.py:57-58 | (unfolds `Drain`) a seed's loop with tasks left is one turn followed by the loop from the state that turn leaves |
| Frontier.ReachGrows | link.py:57 | the URLs reachable within k link steps grow with k |
| Frontier.LinksInReach | link.py:84-90 | the links queued from a reachable page are reachable one step further |
| Frontier.StepInReach | link.py:58-90 | a turn keeps the queue within the reachable URLs |
| Frontier.Drain | link.py:57-95 | one seed's loop ends with an empty queue and writes one log line per sleep |
| Frontier.CrawlFrom | link.py:51-95 | the seeds loop ends with an empty queue and writes one log line per sleep |
| Frontier.CrawlSpec | link.py:46-97 | the whole crawl ends with nothing left to visit and with exactly one sleep per "Crawling:" line; its other promises are stated by `CrawlInvariants.CrawlSpecSound` |
| CrawlInvariants.Records | link.py:67-81 | the store a log calls for has at most one record per logged URL, and none when every fetch failed |
| CrawlInvariants.LinksComplete | link.py:84-90 | every non-empty, eligible, unvisited href of the page is queued |
| CrawlInvariants.LinksAppend | link.py:84-90 | the links of a list of hrefs are those of its first part followed by those of the rest, so they keep href order |
| CrawlInvariants.DistinctCount | link.py:97 | a log with no URL twice has as many entries as distinct URLs, so the printed count equals the number processed |
| CrawlInvariants.StepBookkeeping | link.py:61-66 | a turn keeps `urls == visited` equal to the logged URLs, no URL logged twice, and one sleep per logged URL |
| CrawlInvariants.StepLogSound | link.py:61-90 | a turn logs only a URL within the depth bound that is its seed or an eligible link under it |
| CrawlInvariants.StepRecords | link.py:68-92 | a turn keeps the store equal to one record per successfully fetched logged URL; a failed fetch stores nothing |
| CrawlInvariants.StepFollowed | link.py:84-90 | a turn keeps every eligible link of a processed page shallower than `max_depth` either visited or queued one level deeper |
| CrawlInvariants.FollowedKept | link.py:58-65 | link obligations met before a turn stay met: visited URLs stay visited, the queue's tail stays queued, and a popped head within the bound is visited |
| CrawlInvariants.FollowedOne | link.py:84-90 | each eligible, unvisited, non-empty href of a freshly fetched page is queued one level deeper |
| CrawlInvariants.FollowedNew | link.py:84-90 | all link obligations of a freshly fetched page are met by the links it appends |
| CrawlInvariants.FollowedConcat | link.py:84-90 | link obligations met for two parts of the log are met for the whole log |
| CrawlInvariants.StepLayered | link.py:58-90 | a turn keeps the queue sorted by depth and spanning at most one level |
| CrawlInvariants.StepOrdered | link.py:58-90 | a turn processes nothing shallower than what this seed already processed |
| CrawlInvariants.StepSound | link.py:57-95 | a turn keeps the whole crawl invariant |
| CrawlInvariants.DrainSound | link.py:57-95 | one seed's loop keeps the crawl invariant |
| CrawlInvariants.DrainGrows | link.py:65 | one seed's loop forgets no visited URL |
| CrawlInvariants.SeedAlreadyVisited | link.py:48-62 | a seed visited earlier is popped and skipped, and nothing else changes |
| CrawlInvariants.SeedVisited | link.py:52-65 | a seed within the depth bound is visited by its own loop |
| CrawlInvariants.StartSeed | link.py:51-57 | starting a seed with a fresh queue keeps the crawl invariant |
| CrawlInvariants.CrawlFromSound | link.py:51-95 | the seeds loop keeps the crawl invariant |
| CrawlInvariants.CrawlFromVisits | link.py:51-65 | every seed is visited when `max_depth` is not negative |
| CrawlInvariants.RecordsSnoc | link.py:81 | (unfolds `Records`) logging one more URL adds its record to the expected store exactly when its fetch succeeded |
| CrawlInvariants.RecordsFromLog | link.py:68-92 | every stored record belongs to a logged URL whose fetch succeeded |
| CrawlInvariants.LogHasRecords | link.py:68-81 | every logged URL whose fetch succeeded has its record stored |
| CrawlInvariants.RecordsFetched | link.py:68-92 | every stored record is among the records of the successfully fetched logged URLs |
| CrawlInvariants.DrainTooDeep | link.py:61-62 | tasks deeper than `max_depth` are dropped at dequeue with no fetch, no store and no sleep |
| CrawlInvariants.CrawlFromAppend | link.py:51 | crawling the seeds `a + b` is crawling `a`, then `b` from where `a` left off |
| CrawlInvariants.RepeatedSeedSkipped | link.py:48-62 | repeating a seed at the end of the list changes nothing, for any `max_depth`, negative included |
| CrawlInvariants.CrawlSpecSound | link.py:46-97 | each URL is processed at most once across all seeds; the count is the number processed; everything processed is within the depth bound and is a seed or an eligible link under its seed; the store holds one record per successful fetch and nothing for a failed one; every eligible link on a processed page shallower than `max_depth` is processed; each seed is crawled breadth first; every seed is processed |
| CrawlInvariants.PromisesKept | link.py:46-97 | the crawl invariant's consequences give every promise of a finished crawl, the store stated record by record |
| CrawlInvariants.CrawlSpecPromises | link.py:46-97 | `crawl(start_urls, max_depth)` keeps every promise of a finished crawl |
| Crawler.AppendLinks | link.py:84-90 | the loop over hrefs appends exactly the page's eligible links, in href order |
| Crawler.Turn | link.py:58-95 | one iteration of the `while` loop computes one turn |
| Crawler.CrawlSeed | link.py:52-95 | the `while` loop of one seed computes that seed's loop from a queue holding the seed at depth 0 |
| Crawler.CrawlSeeds | link.py:51-95 | the `for` loop over the seeds computes the seeds loop from the empty state |
| Crawler.Crawl | link.py:46-97 | the crawl returns the log, store, sleep count and printed count of the whole crawl, and these keep every promise of a finished crawl |
| Link.IsValid | link.py:18-25 | link.py's `is_valid_url` accepts only URLs web_crawler.py's also accepts, and never one ending in ".jpeg" or ".JPG" |
| Link.IsValidIff | link.py:18-25 | link.py's gate holds exactly when the URL has an http(s) scheme, starts with the seed and ends with none of the eight suffixes |
| Link.StricterThanWebCrawler | link.py:24 | link.py rejects whatever web_crawler.py rejects, plus the ".jpeg" and ".JPG" suffixes |
| Link.UpperCasePdfAccepted | link.py:24 | an in-scope ".PDF" URL is accepted, because the suffix test is case-sensitive |
| Link.UpperCaseJpgRejected | link.py:24 | a ".JPG" URL is rejected |
| Link.ScenarioLinks | link.py:84-90 | in the scenario, the internal link passes the gate and the external link does not |
| Link.ScenarioCollection | link.py:55 | the scenario's seed "https://x.test/" files its pages under "x_test" |
| Link.ScenarioFound | link.py:84-90 | of the seed's two links, only the internal one is queued |
| Link.ScenarioFirstTurn | link.py:58-95 | a seed's first turn stores its page under its collection and queues its eligible links |
| Link.ScenarioSeedTurn | link.py:58-95 | from the scenario's inputs, the seed's turn stores its page and queues the internal link only |
| Link.ScenarioSecondTurn | link.py:58-95 | a turn on a fresh link at the depth bound processes it and queues only tasks past the bound |
| Link.TwoTurnCrawl | link.py:57-62 | when two turns leave only tasks past the bound, the crawl ends in the state after those two turns |
| Link.ScenarioOutcome | link.py:64-95 | the two turns leave a log of the seed and the internal link, two visited URLs, two sleeps, and the seed's page as the first record |
| Link.ScenarioRun | link.py:46-97 | the scenario's crawl processes the seed and then the internal link, and nothing else |
| Link.EndToEnd | link.py:46-97 | a seed with one internal and one external link, crawled to depth 1, processes the seed and the internal link only, and stores the seed's page under "x_test" |
| Link.EntriesGated | link.py:61-90 | every logged entry is within the depth bound, its seed or an eligible link under its seed, and fetched exactly when the fetch succeeds |
| Link.CrawlDefault | link.py:46 | `crawl(start_urls)` with `max_depth` left at its default of 2: the crawl of the whole model at depth bound 2, processing nothing deeper than 2 and every seed |
| Link.Crawl | link.py:46-97 | link.py's `crawl` across several seeds, with its deny-list: each URL processed at most once; the count is the number processed; everything is within the depth bound and is its seed or passes link.py's gate under it; each stored record is that of a successfully fetched entry and each of those is stored; every eligible link on a processed page shallower than `max_depth` is processed; breadth first per seed; every seed processed |
| WebCrawler.IsValid | web_crawler.py:18-25 | web_crawler.py's `is_valid_url` accepts only URLs with a scheme that start with the seed, and none ending in one of its six suffixes |
| WebCrawler.IsValidIff | web_crawler.py:18-25 | web_crawler.py's gate holds exactly when the URL has an http(s) scheme, starts with the seed and ends with none of the six suffixes |
| WebCrawler.DenyListIff | web_crawler.py:24 | ending with one of the deny-list is ending with one of the six suffixes |
| WebCrawler.JpegAccepted | web_crawler.py:24 | an in-scope ".jpeg" URL is accepted |
| WebCrawler.UpperCaseJpgAccepted | web_crawler.py:24 | an in-scope ".JPG" URL is accepted |
| WebCrawler.SeedCollection | web_crawler.py:53 | the seed "https://nnrg.edu.in/" stores its pages in the collection "nnrg_edu_in" |
| WebCrawler.SeedHost | web_crawler.py:53 | the host "nnrg.edu.in" with its dots replaced is "nnrg_edu_in" |
| WebCrawler.EntriesGated | web_crawler.py:59-89 | every entry of a one-seed crawl is under the seed, within the depth bound, a URL starting with the seed, and fetched exactly when the fetch succeeds |
| WebCrawler.StoreOfSeed | web_crawler.py:67-80 | in a one-seed crawl, every stored record is in the seed's collection and holds a successfully fetched page, and every such page is stored |
| WebCrawler.Crawl | web_crawler.py:46-96 | web_crawler.py's `crawl` of one seed: every URL is processed at most once; the count is the number processed; everything is within the depth bound and is the seed or passes the gate under it; every stored record is filed under the seed's collection and holds a successfully fetched page joined by "\n", and every such page is stored; every eligible link on a processed page shallower than `max_depth` is processed; processing is in order of depth; the seed is processed |

## Left out

- HTTP and HTML: `requests.get` and BeautifulSoup are the `fetch` parameter. Timeouts, redirects and the parser's handling of markup are not modelled. `fetch` is a function, so a URL is fetched with the same outcome every time; the crawl fetches each URL at most once, so this loses nothing.
- `urljoin` (`get_absolute_url`) is the `resolve` parameter. The resolution rules of RFC 3986 are not modelled.
- The `urlparse` model follows the scheme and netloc rules of Python 3.9.16, 3.10.9 and 3.11.1 and later, where a scheme must start with a letter. It leaves out:
  - stripping of leading whitespace and control characters;
  - removal of tabs and newlines;
  - the checks on bracketed IPv6 hosts;
  - the older scheme rules.
- `ValueError` from `urlparse` and `urljoin`. Both raise it on a malformed URL such as `http://[x`, with an unclosed IPv6 bracket. This happens for an href at link.py:87-88 and web_crawler.py:86-87, and for a seed at link.py:55 and web_crawler.py:53. The scripts catch only `requests.RequestException` (link.py:91, web_crawler.py:90), and the seed's parse is outside any `try`, so the real crawl stops there. The model's `resolve`, `Netloc` and `IsValidUrl` always succeed. Its promises, "every seed is processed" among them, therefore hold for the scripts only on inputs where no such error is raised.
- `store_in_chromadb`:
  - the sentence embedding, which is floating point;
  - ChromaDB persistence;
  - the `hash(url)` document id, which Python randomises.

  A store is a `Record` of collection, URL and content. Errors the store raises are not caught by the scripts and are not modelled.
- `time.sleep(1)` is counted, not timed. `print` output is represented only by the log of "Crawling:" lines and the printed count.
- `chatbot` (link.py:99-116), the prompt for seeds and the question loop of link.py (link.py:119, 125-129) and the module-level model and client set-up are not part of this model. The call `crawl(start_urls)` at link.py:122 is `Link.CrawlDefault`. The hard-coded call at web_crawler.py:99 is represented only by `WebCrawler.SeedCollection`.
