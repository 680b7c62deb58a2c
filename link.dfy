/** `link.py`: the multi-seed crawler, with its eight-suffix deny-list and a
    `visited` set shared by all seeds. */
module Link {
  import opened Text
  import opened Url
  import opened Frontier
  import opened CrawlInvariants
  import Crawler
  import WebCrawler

  /** The suffixes `is_valid_url` of link.py rejects */
  const DenyList: seq<string> := [".pdf", ".doc", ".xls", ".png", ".jpg", ".gif", ".jpeg", ".JPG"]

  /** The default of `crawl`'s `max_depth` */
  const DefaultMaxDepth: int := 2

  /** `is_valid_url(url, base_url)` of link.py */
  predicate IsValid(url: string, baseUrl: string): (b: bool)
    ensures b ==> WebCrawler.IsValid(url, baseUrl)
    ensures b ==> !EndsWith(url, ".jpeg") && !EndsWith(url, ".JPG")
  {
    assert forall i :: 0 <= i < |WebCrawler.DenyList| ==> DenyList[i] == WebCrawler.DenyList[i];
    assert DenyList[6] == ".jpeg" && DenyList[7] == ".JPG";
    IsValidUrl(url, baseUrl, DenyList)
  }

  /** The gate without reference to the URL parser: "http:" or "https:" in
      any letter case in front, the base URL as a literal prefix, and none of
      the eight suffixes at the end. */
  lemma IsValidIff(url: string, baseUrl: string)
    ensures IsValid(url, baseUrl) <==>
      ((|url| >= 5 && Lower(url[..5]) == "http:") || (|url| >= 6 && Lower(url[..6]) == "https:"))
      && baseUrl <= url
      && !EndsWith(url, ".pdf") && !EndsWith(url, ".doc") && !EndsWith(url, ".xls")
      && !EndsWith(url, ".png") && !EndsWith(url, ".jpg") && !EndsWith(url, ".gif")
      && !EndsWith(url, ".jpeg") && !EndsWith(url, ".JPG")
  {
    StricterThanWebCrawler(url, baseUrl);
    WebCrawler.IsValidIff(url, baseUrl);
  }

  /** The two scripts' gates differ exactly on ".jpeg" and ".JPG", which only
      link.py rejects. */
  lemma StricterThanWebCrawler(url: string, baseUrl: string)
    ensures IsValid(url, baseUrl) <==>
      WebCrawler.IsValid(url, baseUrl) && !EndsWith(url, ".jpeg") && !EndsWith(url, ".JPG")
  {
    assert DenyList == WebCrawler.DenyList + [".jpeg", ".JPG"];
    EndsWithAnyConcat(url, WebCrawler.DenyList, [".jpeg", ".JPG"]);
    var extra := [".jpeg", ".JPG"];
    assert EndsWithAny(url, extra) <==> EndsWith(url, extra[0]) || EndsWith(url, extra[1]);
  }

  /** An upper-case ".PDF" URL in scope is accepted: the test is case-sensitive. */
  lemma UpperCasePdfAccepted(stem: string, baseUrl: string)
    requires IsHttpScheme(stem + ".PDF") && baseUrl <= stem + ".PDF"
    ensures IsValid(stem + ".PDF", baseUrl)
  {
    var url := stem + ".PDF";
    assert url[|url| - 1] == 'F';
    assert forall i :: 0 <= i < |DenyList| ==> DenyList[i] != [] && DenyList[i][|DenyList[i]| - 1] != 'F';
    LastCharNotSuffix(url, DenyList);
  }

  /** A URL ending in upper-case ".JPG" is rejected, whatever else it is. */
  lemma UpperCaseJpgRejected(url: string, baseUrl: string)
    requires EndsWith(url, ".JPG")
    ensures !IsValid(url, baseUrl)
  {
    assert DenyList[7] == ".JPG";
  }

  /** The seed, internal link and external link of the end-to-end scenario */
  predicate ScenarioUrls(root: string, link: string, other: string) {
    root == "https" + "://" + "x.test" + "/" && link == root + "a" && other == "https" + "://" + "other.test" + "/"
  }

  lemma ScenarioScheme(root: string, link: string)
    requires root == "https" + "://" + "x.test" + "/" && link == root + "a"
    ensures IsHttpScheme(link)
  {
    SplitHttpScheme("https", "//x.test/a");
    assert "https" + ":" + "//x.test/a" == link;
  }

  /** No deny-listed suffix ends in 'a'. */
  lemma EndsInANotDenied(url: string)
    requires url != [] && url[|url| - 1] == 'a'
    ensures !EndsWithAny(url, DenyList)
  {
    assert forall i :: 0 <= i < |DenyList| ==> DenyList[i] != [] && DenyList[i][|DenyList[i]| - 1] != 'a';
    LastCharNotSuffix(url, DenyList);
  }

  /** In the scenario, the internal link is eligible and the external one is not. */
  lemma ScenarioLinks(root: string, link: string, other: string)
    requires ScenarioUrls(root, link, other)
    ensures IsValid(link, root) && !IsValid(other, root)
  {
    ScenarioScheme(root, link);
    EndsInANotDenied(link);
    assert other[8] != root[8];
  }

  lemma HostCollection()
    ensures ReplaceChar("x.test", '.', '_') == "x_test"
  {
  }

  /** The scenario's seed files its page under "x_test". */
  lemma ScenarioCollection(root: string)
    requires root == "https" + "://" + "x.test" + "/"
    ensures CollectionName(root) == "x_test"
  {
    CollectionNameOfSeed("https", "x.test", "/");
    HostCollection();
  }

  /** Of the seed's two links, only the internal one is queued. */
  lemma ScenarioFound(env: Env, root: string, link: string, other: string)
    requires ScenarioUrls(root, link, other) && env.deny == DenyList
    requires env.resolve(root, link) == link && env.resolve(root, other) == other
    ensures Links(env, root, root, 0, {root}, [link, other]) == [Task(link, 1)]
  {
    ScenarioLinks(root, link, other);
    var hrefs := [link, other];
    assert hrefs[..1] == [link] && [link][..0] == [];
    assert Links(env, root, root, 0, {root}, [link]) == [Task(link, 1)];
  }

  /** The seed's turn stores its page and queues the internal link only. */
  lemma ScenarioFirstTurn(env: Env, p: string, q: string, root: string, link: string, hrefs: seq<string>)
    requires env.maxDepth >= 0 && env.fetch(root) == Fetched([p, q], hrefs)
    requires Links(env, root, root, 0, {root}, hrefs) == [Task(link, 1)]
    requires CollectionName(root) == "x_test"
    ensures Step(env, root, Seeded(root, Initial())) ==
      State([Task(link, 1)], {root}, {root}, [Record("x_test", root, p + "\n" + q)], 1, [Visit(root, root, 0, true)])
  {
    var s0 := Seeded(root, Initial());
    assert s0 == State([Task(root, 0)], {}, {}, [], 0, []);
    StepFetched(env, root, s0);
    var r := Step(env, root, s0);
    assert s0.queue[1..] == [];
    assert s0.visited + {root} == {root};
    assert s0.urls + {root} == {root};
    assert r.queue == s0.queue[1..] + Links(env, root, root, 0, {root}, hrefs) == [Task(link, 1)];
    assert r.visited == {root} && r.urls == {root} && r.sleeps == 1;
    assert r.store == [] + [Record("x_test", root, Join([p, q], '\n'))];
    assert r.log == [] + [Visit(root, root, 0, true)];
    JoinPair(p, q, '\n');
  }

  /** The internal link's turn processes it and queues only tasks past the
      depth bound. */
  lemma ScenarioSecondTurn(env: Env, s1: State, root: string, link: string)
    requires env.maxDepth == 1 && s1.queue == [Task(link, 1)] && link !in s1.visited
    ensures var s2 := Step(env, root, s1);
      s2.log == s1.log + [Visit(root, link, 1, env.fetch(link).Fetched?)]
      && s2.urls == s1.urls + {link}
      && s2.sleeps == s1.sleeps + 1
      && s2.store == s1.store + (if env.fetch(link).Fetched? then [RecordOf(env, s2.log[|s1.log|])] else [])
      && forall j :: 0 <= j < |s2.queue| ==> s2.queue[j].depth == 2
  {
  }

  /** A seed whose two turns leave only tasks past the depth bound: the crawl
      ends in the state after those two turns, with the queue emptied. */
  lemma TwoTurnCrawl(env: Env, root: string)
    requires InReach(env, root, Step(env, root, Seeded(root, Initial())).queue)
    requires Step(env, root, Seeded(root, Initial())).queue != []
    requires var s2 := Step(env, root, Step(env, root, Seeded(root, Initial())));
      forall j :: 0 <= j < |s2.queue| ==> s2.queue[j].depth > env.maxDepth
    ensures CrawlSpec(env, [root]) == Step(env, root, Step(env, root, Seeded(root, Initial()))).(queue := [])
  {
    var s0 := Seeded(root, Initial());
    assert InReach(env, root, s0.queue);
    DrainStep(env, root, s0);
    var s1 := Step(env, root, s0);
    DrainStep(env, root, s1);
    DrainTooDeep(env, root, Step(env, root, s1));
    assert [root][1..] == [];
    assert CrawlSpec(env, [root]) == CrawlFrom(env, [], Drain(env, root, s0));
  }

  /** The scenario's first turn, from the scenario's inputs. */
  lemma ScenarioSeedTurn(env: Env, p: string, q: string, root: string, link: string, other: string)
    requires ScenarioUrls(root, link, other) && env.deny == DenyList && env.maxDepth == 1
    requires env.fetch(root) == Fetched([p, q], [link, other])
    requires env.resolve(root, link) == link && env.resolve(root, other) == other
    ensures Step(env, root, Seeded(root, Initial())) ==
      State([Task(link, 1)], {root}, {root}, [Record("x_test", root, p + "\n" + q)], 1, [Visit(root, root, 0, true)])
  {
    ScenarioFound(env, root, link, other);
    ScenarioCollection(root);
    ScenarioFirstTurn(env, p, q, root, link, [link, other]);
  }

  /** What the two turns leave behind, read off the final state. */
  lemma ScenarioOutcome(root: string, link: string, p: string, q: string, fetched: bool,
                        s1: State, s2: State, extra: seq<Record>)
    requires s1 == State([Task(link, 1)], {root}, {root}, [Record("x_test", root, p + "\n" + q)], 1, [Visit(root, root, 0, true)])
    requires s2.log == s1.log + [Visit(root, link, 1, fetched)] && s2.urls == s1.urls + {link}
    requires s2.sleeps == s1.sleeps + 1 && s2.store == s1.store + extra && |extra| == (if fetched then 1 else 0)
    ensures s2.log == [Visit(root, root, 0, true), Visit(root, link, 1, fetched)]
    ensures s2.urls == {root, link} && s2.sleeps == 2
    ensures |s2.store| == (if fetched then 2 else 1) && s2.store[0] == Record("x_test", root, p + "\n" + q)
  {
  }

  /** The scenario's crawl: the seed's turn, the internal link's turn, and
      then only tasks past the depth bound, which are dropped. */
  lemma ScenarioRun(env: Env, p: string, q: string, root: string, link: string, other: string)
    requires ScenarioUrls(root, link, other) && env.deny == DenyList && env.maxDepth == 1
    requires env.fetch(root) == Fetched([p, q], [link, other])
    requires env.resolve(root, link) == link && env.resolve(root, other) == other
    ensures var r := CrawlSpec(env, [root]);
      r.log == [Visit(root, root, 0, true), Visit(root, link, 1, env.fetch(link).Fetched?)]
      && r.urls == {root, link}
      && r.sleeps == 2
      && |r.store| == (if env.fetch(link).Fetched? then 2 else 1)
      && r.store[0] == Record("x_test", root, p + "\n" + q)
  {
    ScenarioSeedTurn(env, p, q, root, link, other);
    var s1 := Step(env, root, Seeded(root, Initial()));
    assert |link| != |root|;
    ScenarioSecondTurn(env, s1, root, link);
    var s2 := Step(env, root, s1);
    ReachNext(env, root, root, 0, link);
    assert InReach(env, root, s1.queue);
    TwoTurnCrawl(env, root);
    var fetched := env.fetch(link).Fetched?;
    var extra := if fetched then [RecordOf(env, s2.log[|s1.log|])] else [];
    ScenarioOutcome(root, link, p, q, fetched, s1, s2, extra);
  }

  /** The end-to-end run: seed "https://x.test/", whose page has two
      paragraphs, the internal link "https://x.test/a" and the external link
      "https://other.test/", crawled to depth 1. Exactly the seed and
      "https://x.test/a" are processed, whatever the latter returns; the
      external link is never queued; the seed's page is stored under
      "x_test". */
  lemma EndToEnd(fetch: string -> Response, resolve: (string, string) -> string, p: string, q: string)
    requires fetch("https://x.test/") == Fetched([p, q], ["https://x.test/a", "https://other.test/"])
    requires resolve("https://x.test/", "https://x.test/a") == "https://x.test/a"
    requires resolve("https://x.test/", "https://other.test/") == "https://other.test/"
    ensures var r := CrawlSpec(Env(fetch, resolve, DenyList, 1), ["https://x.test/"]);
      r.log == [Visit("https://x.test/", "https://x.test/", 0, true),
                Visit("https://x.test/", "https://x.test/a", 1, fetch("https://x.test/a").Fetched?)]
      && r.urls == {"https://x.test/", "https://x.test/a"}
      && r.sleeps == 2
      && |r.store| == (if fetch("https://x.test/a").Fetched? then 2 else 1)
      && r.store[0] == Record("x_test", "https://x.test/", p + "\n" + q)
  {
    var root := "https" + "://" + "x.test" + "/";
    var link, other := root + "a", "https" + "://" + "other.test" + "/";
    assert root == "https://x.test/" && link == "https://x.test/a" && other == "https://other.test/";
    ScenarioRun(Env(fetch, resolve, DenyList, 1), p, q, root, link, other);
  }

  /** What the crawl's log promises about each entry, under this script's gate */
  lemma EntriesGated(fetch: string -> Response, resolve: (string, string) -> string, maxDepth: int,
                     startUrls: seq<string>, log: seq<Visit>)
    requires forall i :: 0 <= i < |log| ==>
      VisitSound(Env(fetch, resolve, DenyList, maxDepth), log[i]) && log[i].scope in startUrls
    ensures forall i :: 0 <= i < |log| ==>
      log[i].scope in startUrls && log[i].depth <= maxDepth && StartsWith(log[i].url, log[i].scope)
      && (log[i].depth == 0 ==> log[i].url == log[i].scope)
      && (log[i].depth > 0 ==> IsValid(log[i].url, log[i].scope))
      && (log[i].fetched <==> fetch(log[i].url).Fetched?)
  {
    forall i | 0 <= i < |log|
      ensures StartsWith(log[i].url, log[i].scope)
    {
      assert VisitSound(Env(fetch, resolve, DenyList, maxDepth), log[i]);
    }
  }

  /** `crawl(start_urls, max_depth)`: one `visited` set across all seeds, a
      fresh queue per seed, this script's deny-list. */
  method Crawl(fetch: string -> Response, resolve: (string, string) -> string, startUrls: seq<string>, maxDepth: int)
    returns (log: seq<Visit>, store: seq<Record>, sleeps: nat, reported: nat)
    ensures var r := CrawlSpec(Env(fetch, resolve, DenyList, maxDepth), startUrls);
      log == r.log && store == r.store && sleeps == r.sleeps && reported == |r.urls|
    ensures Distinct(log) && sleeps == |log| && reported == |log|
    ensures forall i :: 0 <= i < |log| ==>
      log[i].scope in startUrls && log[i].depth <= maxDepth && StartsWith(log[i].url, log[i].scope)
      && (log[i].depth == 0 ==> log[i].url == log[i].scope)
      && (log[i].depth > 0 ==> IsValid(log[i].url, log[i].scope))
      && (log[i].fetched <==> fetch(log[i].url).Fetched?)
    ensures forall j :: 0 <= j < |store| ==> store[j] in FetchedRecords(Env(fetch, resolve, DenyList, maxDepth), log)
    ensures forall i :: 0 <= i < |log| && fetch(log[i].url).Fetched? ==>
      RecordOf(Env(fetch, resolve, DenyList, maxDepth), log[i]) in store
    ensures BreadthFirst(log)
    ensures LinksCovered(Env(fetch, resolve, DenyList, maxDepth), log)
    ensures maxDepth >= 0 ==> forall i :: 0 <= i < |startUrls| ==> startUrls[i] in LoggedUrls(log)
  {
    var env := Env(fetch, resolve, DenyList, maxDepth);
    log, store, sleeps, reported := Crawler.Crawl(env, startUrls);
    EntriesGated(fetch, resolve, maxDepth, startUrls, log);
  }

  /** `crawl(start_urls)` with `max_depth` left at its default */
  method CrawlDefault(fetch: string -> Response, resolve: (string, string) -> string, startUrls: seq<string>)
    returns (log: seq<Visit>, store: seq<Record>, sleeps: nat, reported: nat)
    ensures var r := CrawlSpec(Env(fetch, resolve, DenyList, DefaultMaxDepth), startUrls);
      log == r.log && store == r.store && sleeps == r.sleeps && reported == |r.urls|
    ensures forall i :: 0 <= i < |log| ==> log[i].depth <= 2
    ensures forall i :: 0 <= i < |startUrls| ==> startUrls[i] in LoggedUrls(log)
  {
    log, store, sleeps, reported := Crawl(fetch, resolve, startUrls, DefaultMaxDepth);
  }
}
