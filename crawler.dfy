/** The crawl loop as the scripts write it: a `for` over the seeds, a
    `while` over the queue with `pop(0)` and `append`, and a `for` over the
    page's hrefs. It is proved to compute `Frontier.CrawlSpec`, and, through
    the lemmas of CrawlInvariants, to keep the crawl's promises. */
module Crawler {
  import opened Text
  import opened Url
  import opened Frontier
  import opened CrawlInvariants

  /** The `for link in soup.find_all('a'):` loop with its `if href:` test:
      appends to `queue` every non-empty href of `page` whose resolved form is
      eligible under `scope` and not yet visited, at one level deeper. */
  method AppendLinks(env: Env, scope: string, page: string, depth: nat, visited: set<string>,
                     hrefs: seq<string>, queue: seq<Task>) returns (q: seq<Task>)
    ensures q == queue + Links(env, scope, page, depth, visited, hrefs)
  {
    q := queue;
    for i := 0 to |hrefs|
      invariant q == queue + Links(env, scope, page, depth, visited, hrefs[..i])
    {
      var href := hrefs[i];
      if href != "" {
        var fullUrl := env.resolve(page, href);
        if IsValidUrl(fullUrl, scope, env.deny) && fullUrl !in visited {
          q := q + [Task(fullUrl, depth + 1)];
        }
      }
      assert hrefs[..i + 1][..i] == hrefs[..i];
    }
    assert hrefs[..|hrefs|] == hrefs;
  }

  /** One turn of the `while to_visit:` loop: pop the head, skip it or
      process it. */
  method Turn(env: Env, scope: string, baseDomain: string, s: State) returns (r: State)
    requires s.queue != [] && baseDomain == CollectionName(scope)
    ensures r == Step(env, scope, s)
  {
    var toVisit := s.queue;
    var task := toVisit[0];
    toVisit := toVisit[1..];
    if task.url in s.visited || task.depth > env.maxDepth {
      return s.(queue := toVisit);
    }
    var visited := s.visited + {task.url};
    var urls := s.urls + {task.url};
    var store := s.store;
    var log := s.log;
    match env.fetch(task.url) {
      case RequestFailed =>
        log := log + [Visit(scope, task.url, task.depth, false)];
      case Fetched(paragraphs, hrefs) =>
        log := log + [Visit(scope, task.url, task.depth, true)];
        store := store + [Record(baseDomain, task.url, Join(paragraphs, '\n'))];
        toVisit := AppendLinks(env, scope, task.url, task.depth, visited, hrefs, toVisit);
    }
    r := State(toVisit, visited, urls, store, s.sleeps + 1, log);
  }

  /** The `while to_visit:` loop of one seed, from `to_visit = [(start_url, 0)]` */
  method CrawlSeed(env: Env, startUrl: string, s: State) returns (r: State)
    ensures r == Drain(env, startUrl, Seeded(startUrl, s))
  {
    var baseDomain := CollectionName(startUrl);
    r := Seeded(startUrl, s);
    ghost var seeded := r;
    assert InReach(env, startUrl, r.queue);
    while r.queue != []
      invariant InReach(env, startUrl, r.queue)
      invariant Drain(env, startUrl, r) == Drain(env, startUrl, seeded)
      decreases Budget(env, startUrl, r.visited), |r.queue|
    {
      StepProgress(env, startUrl, r);
      r := Turn(env, startUrl, baseDomain, r);
    }
  }

  /** The `for start_url in start_urls:` loop, from the empty state */
  method CrawlSeeds(env: Env, seeds: seq<string>) returns (s: State)
    ensures s == CrawlSpec(env, seeds)
  {
    s := Initial();
    for k := 0 to |seeds|
      invariant CrawlFrom(env, seeds[k..], s) == CrawlSpec(env, seeds)
    {
      assert seeds[k..][1..] == seeds[k + 1..];
      s := CrawlSeed(env, seeds[k], s);
    }
    assert seeds[|seeds|..] == [];
  }

  /** `crawl(start_urls, max_depth)`. Returns the "Crawling:" log, the records
      written to the store, the number of pacing sleeps, and the count printed
      at the end (`len(urls)`). */
  method Crawl(env: Env, seeds: seq<string>) returns (log: seq<Visit>, store: seq<Record>, sleeps: nat, reported: nat)
    ensures var r := CrawlSpec(env, seeds);
      log == r.log && store == r.store && sleeps == r.sleeps && reported == |r.urls|
    ensures CrawlPromises(env, seeds, log, store, sleeps, reported)
  {
    var s := CrawlSeeds(env, seeds);
    log, store, sleeps, reported := s.log, s.store, s.sleeps, |s.urls|;
    CrawlSpecPromises(env, seeds);
  }
}
