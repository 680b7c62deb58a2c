/** The crawl frontier as a state machine: one function for one turn of the
    `while to_visit:` loop, one for running that loop until the queue is
    empty, and one for the `for start_url in start_urls:` loop around it. The
    imperative crawl in module Crawler is proved to compute exactly these. */
module Frontier {
  import opened Text
  import opened Url

  /** One queue entry `(url, depth)`: a URL and its link distance from the seed */
  datatype Task = Task(url: string, depth: nat)

  /** What fetching a URL yields: the request raised, or the page's `<p>` texts
      and its `<a>` href attributes in document order (an anchor without an
      href attribute is given as "", which Python treats as false too). */
  datatype Response = RequestFailed | Fetched(paragraphs: seq<string>, hrefs: seq<string>)

  /** One document written to the vector store: collection, source URL, text */
  datatype Record = Record(collection: string, url: string, content: string)

  /** One processed URL: the line "Crawling: url (depth d)" with the seed it
      was crawled under and whether its fetch succeeded */
  datatype Visit = Visit(scope: string, url: string, depth: nat, fetched: bool)

  /** The crawl's collaborators and settings: the page fetcher, `urljoin`, the
      suffix deny-list of `is_valid_url`, and `max_depth`. */
  datatype Env = Env(
    fetch: string -> Response,
    resolve: (string, string) -> string,
    deny: seq<string>,
    maxDepth: int)

  /** The crawl's variables: `to_visit`, `visited`, `urls`, the store's log,
      the number of pacing sleeps, and the "Crawling:" log. */
  datatype State = State(
    queue: seq<Task>,
    visited: set<string>,
    urls: set<string>,
    store: seq<Record>,
    sleeps: nat,
    log: seq<Visit>)

  /** The tasks appended while scanning the hrefs of `page` (found at `depth`):
      one per non-empty href whose resolved form is eligible under `scope` and
      not yet visited, in href order. */
  function Links(env: Env, scope: string, page: string, depth: nat, visited: set<string>, hrefs: seq<string>): (r: seq<Task>)
    ensures |r| <= |hrefs|
    ensures forall j :: 0 <= j < |r| ==>
      r[j].depth == depth + 1 && IsValidUrl(r[j].url, scope, env.deny) && r[j].url !in visited
    ensures forall j :: 0 <= j < |r| ==>
      exists k :: 0 <= k < |hrefs| && hrefs[k] != "" && env.resolve(page, hrefs[k]) == r[j].url
    decreases |hrefs|
  {
    if hrefs == [] then []
    else
      var init := hrefs[..|hrefs| - 1];
      var href := hrefs[|hrefs| - 1];
      var full := env.resolve(page, href);
      var before := Links(env, scope, page, depth, visited, init);
      assert forall j :: 0 <= j < |before| ==>
        exists k :: 0 <= k < |hrefs| && hrefs[k] != "" && env.resolve(page, hrefs[k]) == before[j].url by {
        forall j | 0 <= j < |before|
          ensures exists k :: 0 <= k < |hrefs| && hrefs[k] != "" && env.resolve(page, hrefs[k]) == before[j].url
        {
          var k :| 0 <= k < |init| && init[k] != "" && env.resolve(page, init[k]) == before[j].url;
          assert hrefs[k] == init[k];
        }
      }
      if href != "" && IsValidUrl(full, scope, env.deny) && full !in visited then
        before + [Task(full, depth + 1)]
      else
        before
  }

  /** One turn of the crawl loop under seed `scope`: pop the head; skip it if
      already visited or deeper than `max_depth`; otherwise mark it visited,
      fetch it, on success store its paragraphs joined by "\n" under the
      seed's collection and append its eligible links, and sleep once. */
  function Step(env: Env, scope: string, s: State): (r: State)
    requires s.queue != []
    ensures s.queue[1..] <= r.queue
    ensures forall j :: |s.queue| - 1 <= j < |r.queue| ==> r.queue[j].depth == s.queue[0].depth + 1
    ensures r.visited == s.visited + (if r.sleeps == s.sleeps then {} else {s.queue[0].url})
    ensures r.sleeps == s.sleeps + (if s.queue[0].url in s.visited || s.queue[0].depth > env.maxDepth then 0 else 1)
    ensures |r.log| - |s.log| == r.sleeps - s.sleeps
  {
    var task := s.queue[0];
    var rest := s.queue[1..];
    if task.url in s.visited || task.depth > env.maxDepth then
      s.(queue := rest)
    else
      var visited := s.visited + {task.url};
      var urls := s.urls + {task.url};
      match env.fetch(task.url)
      case RequestFailed =>
        State(rest, visited, urls, s.store, s.sleeps + 1,
              s.log + [Visit(scope, task.url, task.depth, false)])
      case Fetched(paragraphs, hrefs) =>
        var found := Links(env, scope, task.url, task.depth, visited, hrefs);
        assert (rest + found)[..|rest|] == rest;
        State(rest + found, visited, urls,
              s.store + [Record(CollectionName(scope), task.url, Join(paragraphs, '\n'))],
              s.sleeps + 1, s.log + [Visit(scope, task.url, task.depth, true)])
  }

  /** The URLs reachable from `seed` in at most `k` link steps, resolving every
      href of every fetched page. Everything the crawl can queue within
      `max_depth` lies in this finite set, which bounds the crawl. */
  ghost function Reach(env: Env, seed: string, k: nat): set<string>
  {
    if k == 0 then {seed}
    else
      var prev := Reach(env, seed, k - 1);
      prev + set u, h | u in prev && env.fetch(u).Fetched? && h in env.fetch(u).hrefs :: env.resolve(u, h)
  }

  lemma {:induction false} ReachGrows(env: Env, seed: string, j: nat, k: nat)
    requires j <= k
    ensures Reach(env, seed, j) <= Reach(env, seed, k)
    decreases k
  {
    if j < k {
      ReachGrows(env, seed, j, k - 1);
    }
  }

  /** Every queued task within the depth bound is reachable at its depth. */
  ghost predicate InReach(env: Env, scope: string, queue: seq<Task>) {
    forall i :: 0 <= i < |queue| && queue[i].depth <= env.maxDepth ==>
      queue[i].url in Reach(env, scope, queue[i].depth)
  }

  /** The number of URLs the crawl of `scope` may still process */
  ghost function Budget(env: Env, scope: string, visited: set<string>): nat {
    if env.maxDepth < 0 then 0 else |Reach(env, scope, env.maxDepth as nat) - visited|
  }

  /** Resolving any href of a fetched page reachable at `depth` gives a URL
      reachable at `depth + 1`. */
  lemma ReachNext(env: Env, scope: string, page: string, depth: nat, href: string)
    requires page in Reach(env, scope, depth) && env.fetch(page).Fetched? && href in env.fetch(page).hrefs
    ensures env.resolve(page, href) in Reach(env, scope, depth + 1)
  {
  }

  /** The links found on a page reachable at `depth` are reachable one step further. */
  lemma LinksInReach(env: Env, scope: string, page: string, depth: nat, visited: set<string>)
    requires page in Reach(env, scope, depth) && env.fetch(page).Fetched?
    ensures InReach(env, scope, Links(env, scope, page, depth, visited, env.fetch(page).hrefs))
  {
    var hrefs := env.fetch(page).hrefs;
    var found := Links(env, scope, page, depth, visited, hrefs);
    forall j | 0 <= j < |found|
      ensures found[j].url in Reach(env, scope, found[j].depth)
    {
      var k :| 0 <= k < |hrefs| && hrefs[k] != "" && env.resolve(page, hrefs[k]) == found[j].url;
      ReachNext(env, scope, page, depth, hrefs[k]);
    }
  }

  /** The queue after a turn: the old tail, followed by the links of the page
      when it was processed and fetched. */
  lemma StepQueue(env: Env, scope: string, s: State)
    requires s.queue != []
    ensures var task := s.queue[0];
      Step(env, scope, s).queue ==
        if task.url in s.visited || task.depth > env.maxDepth || env.fetch(task.url).RequestFailed? then s.queue[1..]
        else s.queue[1..] + Links(env, scope, task.url, task.depth, s.visited + {task.url}, env.fetch(task.url).hrefs)
  {
  }

  /** A turn that processes a URL whose fetch succeeds, field by field */
  lemma StepFetched(env: Env, scope: string, s: State)
    requires s.queue != [] && s.queue[0].url !in s.visited && s.queue[0].depth <= env.maxDepth
    requires env.fetch(s.queue[0].url).Fetched?
    ensures var t := s.queue[0]; var page := env.fetch(t.url);
      Step(env, scope, s) == State(s.queue[1..] + Links(env, scope, t.url, t.depth, s.visited + {t.url}, page.hrefs),
        s.visited + {t.url}, s.urls + {t.url},
        s.store + [Record(CollectionName(scope), t.url, Join(page.paragraphs, '\n'))], s.sleeps + 1,
        s.log + [Visit(scope, t.url, t.depth, true)])
  {
  }

  lemma InReachConcat(env: Env, scope: string, a: seq<Task>, b: seq<Task>)
    requires InReach(env, scope, a) && InReach(env, scope, b)
    ensures InReach(env, scope, a + b)
  {
    forall i | 0 <= i < |a + b| && (a + b)[i].depth <= env.maxDepth
      ensures (a + b)[i].url in Reach(env, scope, (a + b)[i].depth)
    {
      if i >= |a| {
        assert (a + b)[i] == b[i - |a|];
      }
    }
  }

  lemma InReachTail(env: Env, scope: string, q: seq<Task>)
    requires q != [] && InReach(env, scope, q)
    ensures InReach(env, scope, q[1..])
  {
    forall i | 0 <= i < |q| - 1 && q[1..][i].depth <= env.maxDepth
      ensures q[1..][i].url in Reach(env, scope, q[1..][i].depth)
    {
      assert q[1..][i] == q[i + 1];
    }
  }

  /** A turn of the loop keeps the queue within reach. */
  lemma StepInReach(env: Env, scope: string, s: State)
    requires s.queue != [] && InReach(env, scope, s.queue)
    ensures InReach(env, scope, Step(env, scope, s).queue)
  {
    var task := s.queue[0];
    StepQueue(env, scope, s);
    InReachTail(env, scope, s.queue);
    if !(task.url in s.visited || task.depth > env.maxDepth) && env.fetch(task.url).Fetched? {
      var found := Links(env, scope, task.url, task.depth, s.visited + {task.url}, env.fetch(task.url).hrefs);
      LinksInReach(env, scope, task.url, task.depth, s.visited + {task.url});
      InReachConcat(env, scope, s.queue[1..], found);
    }
  }

  /** A turn of the loop keeps the queue within reach, and either processes a
      URL (one less to go) or drops the head (a shorter queue). */
  lemma StepProgress(env: Env, scope: string, s: State)
    requires s.queue != [] && InReach(env, scope, s.queue)
    ensures InReach(env, scope, Step(env, scope, s).queue)
    ensures var r := Step(env, scope, s);
      Budget(env, scope, r.visited) < Budget(env, scope, s.visited)
      || (Budget(env, scope, r.visited) == Budget(env, scope, s.visited) && |r.queue| < |s.queue|)
  {
    StepInReach(env, scope, s);
    var task := s.queue[0];
    var r := Step(env, scope, s);
    if !(task.url in s.visited || task.depth > env.maxDepth) {
      var m := env.maxDepth as nat;
      ReachGrows(env, scope, task.depth, m);
      var all := Reach(env, scope, m);
      assert r.visited == s.visited + {task.url};
      assert all - r.visited == (all - s.visited) - {task.url};
      assert task.url in all - s.visited;
    }
  }

  /** The `while to_visit:` loop run to the end: turns until the queue is empty */
  ghost function Drain(env: Env, scope: string, s: State): (r: State)
    requires InReach(env, scope, s.queue)
    ensures r.queue == []
    ensures |r.log| - |s.log| == r.sleeps - s.sleeps
    decreases Budget(env, scope, s.visited), |s.queue|
  {
    if s.queue == [] then s
    else
      StepProgress(env, scope, s);
      Drain(env, scope, Step(env, scope, s))
  }

  /** A seed's loop with tasks left is one turn, then the loop from there. */
  lemma DrainStep(env: Env, scope: string, s: State)
    requires s.queue != [] && InReach(env, scope, s.queue)
    ensures InReach(env, scope, Step(env, scope, s).queue)
    ensures Drain(env, scope, s) == Drain(env, scope, Step(env, scope, s))
  {
    StepProgress(env, scope, s);
  }

  /** The state at the start of a seed's loop: `to_visit = [(start_url, 0)]` */
  function Seeded(scope: string, s: State): State {
    s.(queue := [Task(scope, 0)])
  }

  /** The `for start_url in start_urls:` loop from state `s` */
  ghost function CrawlFrom(env: Env, seeds: seq<string>, s: State): (r: State)
    ensures seeds != [] ==> r.queue == []
    ensures |r.log| - |s.log| == r.sleeps - s.sleeps
    decreases |seeds|
  {
    if seeds == [] then s
    else CrawlFrom(env, seeds[1..], Drain(env, seeds[0], Seeded(seeds[0], s)))
  }

  /** Empty queue, nothing visited, nothing stored, no sleeps */
  function Initial(): State {
    State([], {}, {}, [], 0, [])
  }

  /** `crawl(start_urls, max_depth)` as a function of its collaborators */
  ghost function CrawlSpec(env: Env, seeds: seq<string>): (r: State)
    ensures seeds != [] ==> r.queue == []
    ensures r.sleeps == |r.log|
  {
    CrawlFrom(env, seeds, Initial())
  }
}
