/** What the crawl promises, stated over `Frontier.CrawlSpec` and proved by
    invariants that every turn of the loop keeps: each URL is processed at
    most once, nothing deeper than `max_depth` is processed, every processed
    URL is a seed or an eligible link under its seed, failed fetches store
    nothing, every successful page stores one record, every eligible link of a
    page within the depth bound is followed, and each seed's pages are
    processed breadth first. */
module CrawlInvariants {
  import opened Text
  import opened Url
  import opened Frontier

  /** The URLs of the log's entries */
  ghost function LoggedUrls(log: seq<Visit>): set<string> {
    set i | 0 <= i < |log| :: log[i].url
  }

  /** No URL is processed twice */
  ghost predicate Distinct(log: seq<Visit>) {
    forall i, j :: 0 <= i < j < |log| ==> log[i].url != log[j].url
  }

  /** A processed URL was within the depth bound, its fetch outcome is the
      fetcher's, and it is its seed (depth 0) or an eligible link under it. */
  ghost predicate VisitSound(env: Env, v: Visit) {
    v.depth <= env.maxDepth
    && v.fetched == env.fetch(v.url).Fetched?
    && (v.depth == 0 ==> v.url == v.scope)
    && (v.depth > 0 ==> IsValidUrl(v.url, v.scope, env.deny))
  }

  /** The store's expected contents for a log: one record per successfully
      fetched URL, in order, under its seed's collection, holding the page's
      paragraphs joined by "\n". */
  ghost function Records(env: Env, log: seq<Visit>): (r: seq<Record>)
    ensures |r| <= |log|
    ensures (forall i :: 0 <= i < |log| ==> env.fetch(log[i].url).RequestFailed?) ==> r == []
    decreases |log|
  {
    if log == [] then []
    else
      var v := log[|log| - 1];
      Records(env, log[..|log| - 1]) +
        match env.fetch(v.url)
        case RequestFailed => []
        case Fetched(paragraphs, _) => [Record(CollectionName(v.scope), v.url, Join(paragraphs, '\n'))]
  }

  /** The hrefs a URL's page offers (none when the fetch fails) */
  ghost function Hrefs(env: Env, url: string): seq<string> {
    match env.fetch(url)
    case RequestFailed => []
    case Fetched(_, hrefs) => hrefs
  }

  /** An href of the page of `v` that the crawl must follow (non-empty,
      eligible under `v`'s seed, found above the depth bound) has been
      visited or is waiting in the queue one level deeper. */
  ghost predicate Followed(env: Env, visited: set<string>, queue: seq<Task>, v: Visit, href: string) {
    var target := env.resolve(v.url, href);
    (v.depth < env.maxDepth && href != "" && IsValidUrl(target, v.scope, env.deny))
      ==> (target in visited || Task(target, v.depth + 1) in queue)
  }

  ghost predicate AllFollowed(env: Env, visited: set<string>, queue: seq<Task>, log: seq<Visit>) {
    forall i, k :: 0 <= i < |log| && 0 <= k < |Hrefs(env, log[i].url)| ==>
      Followed(env, visited, queue, log[i], Hrefs(env, log[i].url)[k])
  }

  /** Every eligible link of a processed page shallower than `max_depth` was processed */
  ghost predicate LinksCovered(env: Env, log: seq<Visit>) {
    AllFollowed(env, LoggedUrls(log), [], log)
  }

  /** Within one seed, URLs are processed in order of non-decreasing depth */
  ghost predicate BreadthFirst(log: seq<Visit>) {
    forall i, j :: 0 <= i < j < |log| && log[i].scope == log[j].scope ==> log[i].depth <= log[j].depth
  }

  /** The sets, counters and logs agree: `urls == visited`, the visited set is
      the set of logged URLs, none logged twice, and one sleep per entry. */
  ghost predicate Bookkeeping(s: State) {
    s.urls == s.visited && s.visited == LoggedUrls(s.log) && Distinct(s.log) && s.sleeps == |s.log|
  }

  /** Every logged entry is sound */
  ghost predicate LogSound(env: Env, log: seq<Visit>) {
    forall i :: 0 <= i < |log| ==> VisitSound(env, log[i])
  }

  /** Every logged entry was crawled under one of `seeds`, which is visited */
  ghost predicate LogScoped(seeds: seq<string>, s: State) {
    forall i :: 0 <= i < |s.log| ==> s.log[i].scope in seeds && s.log[i].scope in s.visited
  }

  /** The store holds what the log says it should */
  ghost predicate StoreMatches(env: Env, s: State) {
    s.store == Records(env, s.log)
  }

  /** The invariant of the crawl between turns, for the seeds `seeds` */
  ghost predicate Sound(env: Env, seeds: seq<string>, s: State) {
    Bookkeeping(s)
    && LogSound(env, s.log)
    && LogScoped(seeds, s)
    && StoreMatches(env, s)
    && AllFollowed(env, s.visited, s.queue, s.log)
    && BreadthFirst(s.log)
  }

  /** A queued task under `scope` is the seed itself (depth 0) or an eligible link */
  ghost predicate TaskSound(env: Env, scope: string, t: Task) {
    (t.depth == 0 ==> t.url == scope) && (t.depth > 0 ==> IsValidUrl(t.url, scope, env.deny))
  }

  ghost predicate QueueSound(env: Env, scope: string, queue: seq<Task>) {
    forall j :: 0 <= j < |queue| ==> TaskSound(env, scope, queue[j])
  }

  /** Queue depths are sorted and span at most one level */
  ghost predicate Layered(queue: seq<Task>) {
    forall i, j :: 0 <= i <= j < |queue| ==> queue[i].depth <= queue[j].depth <= queue[i].depth + 1
  }

  /** Nothing this seed has processed is deeper than anything still queued */
  ghost predicate NotDeeper(scope: string, log: seq<Visit>, queue: seq<Task>) {
    forall i, j :: 0 <= i < |log| && 0 <= j < |queue| && log[i].scope == scope ==>
      log[i].depth <= queue[j].depth
  }

  /** Until the seed itself is visited, only depth-0 tasks are queued */
  ghost predicate SeedFirst(scope: string, s: State) {
    scope in s.visited || forall j :: 0 <= j < |s.queue| ==> s.queue[j].depth == 0
  }

  /** What additionally holds while the queue of seed `scope` is drained */
  ghost predicate Draining(env: Env, scope: string, s: State) {
    InReach(env, scope, s.queue)
    && QueueSound(env, scope, s.queue)
    && Layered(s.queue)
    && NotDeeper(scope, s.log, s.queue)
    && SeedFirst(scope, s)
  }

  lemma LoggedUrlsSnoc(log: seq<Visit>, v: Visit)
    ensures LoggedUrls(log + [v]) == LoggedUrls(log) + {v.url}
  {
    var log' := log + [v];
    assert forall i :: 0 <= i < |log| ==> log'[i] == log[i];
    assert log'[|log|] == v;
  }

  /** A log without repeats has as many URLs as entries. */
  lemma {:induction false} DistinctCount(log: seq<Visit>)
    requires Distinct(log)
    ensures |LoggedUrls(log)| == |log|
    decreases |log|
  {
    if log != [] {
      var init := log[..|log| - 1];
      var v := log[|log| - 1];
      assert log == init + [v];
      DistinctCount(init);
      LoggedUrlsSnoc(init, v);
      assert v.url !in LoggedUrls(init);
    }
  }

  /** Every eligible, not yet visited, non-empty href of a page is among its links. */
  lemma {:induction false} LinksComplete(env: Env, scope: string, page: string, depth: nat, visited: set<string>,
                                         hrefs: seq<string>, k: nat)
    requires k < |hrefs| && hrefs[k] != ""
    requires IsValidUrl(env.resolve(page, hrefs[k]), scope, env.deny)
    requires env.resolve(page, hrefs[k]) !in visited
    ensures Task(env.resolve(page, hrefs[k]), depth + 1) in Links(env, scope, page, depth, visited, hrefs)
    decreases |hrefs|
  {
    var init := hrefs[..|hrefs| - 1];
    if k < |hrefs| - 1 {
      assert init[k] == hrefs[k];
      LinksComplete(env, scope, page, depth, visited, init, k);
    }
  }

  /** Links of a longer href list start with the links of its prefix:
      links are appended in href order. */
  lemma {:induction false} LinksAppend(env: Env, scope: string, page: string, depth: nat, visited: set<string>,
                                       a: seq<string>, b: seq<string>)
    ensures Links(env, scope, page, depth, visited, a + b)
         == Links(env, scope, page, depth, visited, a) + Links(env, scope, page, depth, visited, b)
    decreases |b|
  {
    if b == [] {
      assert a + b == a;
    } else {
      var b' := b[..|b| - 1];
      assert (a + b)[..|a + b| - 1] == a + b';
      assert (a + b)[|a + b| - 1] == b[|b| - 1];
      LinksAppend(env, scope, page, depth, visited, a, b');
    }
  }

  /** Bookkeeping survives a turn. */
  lemma StepBookkeeping(env: Env, scope: string, s: State)
    requires s.queue != [] && Bookkeeping(s)
    ensures Bookkeeping(Step(env, scope, s))
  {
    var t := s.queue[0];
    var r := Step(env, scope, s);
    if !(t.url in s.visited || t.depth > env.maxDepth) {
      var v := r.log[|s.log|];
      assert r.log == s.log + [v] && v.url == t.url;
      LoggedUrlsSnoc(s.log, v);
      forall i, j | 0 <= i < j < |r.log| ensures r.log[i].url != r.log[j].url {
        if j == |s.log| {
          assert r.log[i].url in LoggedUrls(s.log);
        } else {
          assert r.log[i] == s.log[i] && r.log[j] == s.log[j];
        }
      }
    }
  }

  /** The store keeps matching the log. */
  lemma StepRecords(env: Env, scope: string, s: State)
    requires s.queue != [] && StoreMatches(env, s)
    ensures StoreMatches(env, Step(env, scope, s))
  {
    var t := s.queue[0];
    var r := Step(env, scope, s);
    if !(t.url in s.visited || t.depth > env.maxDepth) {
      assert r.log[..|r.log| - 1] == s.log;
    }
  }

  /** Queued tasks stay sound. */
  lemma StepQueueSound(env: Env, scope: string, s: State)
    requires s.queue != [] && QueueSound(env, scope, s.queue)
    ensures QueueSound(env, scope, Step(env, scope, s).queue)
  {
    var r := Step(env, scope, s);
    StepQueue(env, scope, s);
    assert forall j :: 0 <= j < |s.queue| - 1 ==> r.queue[j] == s.queue[j + 1];
  }

  /** Logged entries stay sound. */
  lemma StepLogSound(env: Env, scope: string, s: State)
    requires s.queue != [] && QueueSound(env, scope, s.queue) && LogSound(env, s.log)
    ensures LogSound(env, Step(env, scope, s).log)
  {
    var t := s.queue[0];
    var r := Step(env, scope, s);
    if !(t.url in s.visited || t.depth > env.maxDepth) {
      assert TaskSound(env, scope, t);
      assert forall i :: 0 <= i < |s.log| ==> r.log[i] == s.log[i];
    }
  }

  /** Logged entries stay within the seeds, whose own URLs are visited. */
  lemma StepLogScoped(env: Env, seeds: seq<string>, scope: string, s: State)
    requires scope in seeds && s.queue != []
    requires QueueSound(env, scope, s.queue) && LogScoped(seeds, s) && SeedFirst(scope, s)
    ensures LogScoped(seeds, Step(env, scope, s)) && SeedFirst(scope, Step(env, scope, s))
  {
    var t := s.queue[0];
    var r := Step(env, scope, s);
    StepQueue(env, scope, s);
    assert forall j :: 0 <= j < |s.queue| - 1 ==> r.queue[j] == s.queue[j + 1];
    if !(t.url in s.visited || t.depth > env.maxDepth) {
      assert TaskSound(env, scope, t);
      assert forall i :: 0 <= i < |s.log| ==> r.log[i] == s.log[i];
      assert scope in r.visited;
    }
  }

  lemma FollowedConcat(env: Env, visited: set<string>, queue: seq<Task>, a: seq<Visit>, b: seq<Visit>)
    requires AllFollowed(env, visited, queue, a) && AllFollowed(env, visited, queue, b)
    ensures AllFollowed(env, visited, queue, a + b)
  {
    forall i, k | 0 <= i < |a + b| && 0 <= k < |Hrefs(env, (a + b)[i].url)|
      ensures Followed(env, visited, queue, (a + b)[i], Hrefs(env, (a + b)[i].url)[k])
    {
      if i < |a| {
        assert (a + b)[i] == a[i];
      } else {
        assert (a + b)[i] == b[i - |a|];
      }
    }
  }

  /** Obligations met before a turn stay met: visited URLs stay visited, the
      tail of the queue stays queued, and the popped head, when within the
      depth bound, ends up visited. */
  lemma FollowedKept(env: Env, visited: set<string>, queue: seq<Task>, visited': set<string>, queue': seq<Task>,
                     log: seq<Visit>)
    requires queue != [] && AllFollowed(env, visited, queue, log)
    requires visited <= visited' && queue[1..] <= queue'
    requires queue[0].depth <= env.maxDepth ==> queue[0].url in visited'
    ensures AllFollowed(env, visited', queue', log)
  {
    forall i, k | 0 <= i < |log| && 0 <= k < |Hrefs(env, log[i].url)|
      ensures Followed(env, visited', queue', log[i], Hrefs(env, log[i].url)[k])
    {
      var v := log[i];
      var href := Hrefs(env, v.url)[k];
      var target := env.resolve(v.url, href);
      assert Followed(env, visited, queue, v, href);
      if v.depth < env.maxDepth && href != "" && IsValidUrl(target, v.scope, env.deny) && target !in visited {
        var j :| 0 <= j < |queue| && queue[j] == Task(target, v.depth + 1);
        if j > 0 {
          assert queue'[j - 1] == queue[1..][j - 1] == queue[j];
        }
      }
    }
  }

  /** One href of a freshly fetched page is followed by the links it appends. */
  lemma FollowedOne(env: Env, scope: string, page: string, depth: nat, fetched: bool,
                    visited: set<string>, rest: seq<Task>, hrefs: seq<string>, k: nat)
    requires k < |hrefs|
    ensures Followed(env, visited, rest + Links(env, scope, page, depth, visited, hrefs),
                     Visit(scope, page, depth, fetched), hrefs[k])
  {
    var target := env.resolve(page, hrefs[k]);
    if depth < env.maxDepth && hrefs[k] != "" && IsValidUrl(target, scope, env.deny) && target !in visited {
      var found := Links(env, scope, page, depth, visited, hrefs);
      LinksComplete(env, scope, page, depth, visited, hrefs, k);
      assert Task(target, depth + 1) in found;
    }
  }

  /** The obligations of a freshly fetched page are met by the links it
      appends. */
  lemma FollowedNew(env: Env, scope: string, page: string, depth: nat, fetched: bool,
                    visited: set<string>, rest: seq<Task>)
    ensures AllFollowed(env, visited, rest + Links(env, scope, page, depth, visited, Hrefs(env, page)),
                        [Visit(scope, page, depth, fetched)])
  {
    var v := Visit(scope, page, depth, fetched);
    var hrefs := Hrefs(env, page);
    var queue := rest + Links(env, scope, page, depth, visited, hrefs);
    forall i, k | 0 <= i < |[v]| && 0 <= k < |Hrefs(env, [v][i].url)|
      ensures Followed(env, visited, queue, [v][i], Hrefs(env, [v][i].url)[k])
    {
      assert [v][i] == v;
      FollowedOne(env, scope, page, depth, fetched, visited, rest, hrefs, k);
    }
  }

  /** The link obligations of processed pages stay met. */
  lemma StepFollowed(env: Env, scope: string, s: State)
    requires s.queue != [] && AllFollowed(env, s.visited, s.queue, s.log)
    ensures var r := Step(env, scope, s); AllFollowed(env, r.visited, r.queue, r.log)
  {
    var t := s.queue[0];
    var r := Step(env, scope, s);
    StepQueue(env, scope, s);
    FollowedKept(env, s.visited, s.queue, r.visited, r.queue, s.log);
    if !(t.url in s.visited || t.depth > env.maxDepth) {
      var v := Visit(scope, t.url, t.depth, env.fetch(t.url).Fetched?);
      assert r.log == s.log + [v];
      if env.fetch(t.url).Fetched? {
        FollowedNew(env, scope, t.url, t.depth, v.fetched, r.visited, s.queue[1..]);
      } else {
        FollowedNew(env, scope, t.url, t.depth, v.fetched, r.visited, s.queue[1..]);
        assert Links(env, scope, t.url, t.depth, r.visited, Hrefs(env, t.url)) == [];
        assert s.queue[1..] + [] == s.queue[1..];
      }
      FollowedConcat(env, r.visited, r.queue, s.log, [v]);
    }
  }

  /** The queue stays layered: the old tail, then entries one level below the
      popped head. */
  lemma StepLayered(env: Env, scope: string, s: State)
    requires s.queue != [] && Layered(s.queue)
    ensures Layered(Step(env, scope, s).queue)
  {
    var t := s.queue[0];
    var r := Step(env, scope, s);
    var n := |s.queue| - 1;
    assert forall j :: 0 <= j < n ==> r.queue[j] == s.queue[j + 1];
    assert forall j :: 0 <= j < n ==> t.depth <= r.queue[j].depth <= t.depth + 1;
  }

  /** Breadth-first order: the queue is no shallower than what this seed has
      processed, so a newly processed entry is no shallower than old ones. */
  lemma StepOrdered(env: Env, scope: string, s: State)
    requires s.queue != [] && Layered(s.queue) && BreadthFirst(s.log) && NotDeeper(scope, s.log, s.queue)
    ensures var r := Step(env, scope, s);
      BreadthFirst(r.log) && NotDeeper(scope, r.log, r.queue)
  {
    var t := s.queue[0];
    var r := Step(env, scope, s);
    var n := |s.queue| - 1;
    assert forall j :: 0 <= j < n ==> r.queue[j] == s.queue[j + 1];
    assert forall j :: 0 <= j < |r.queue| ==> t.depth <= r.queue[j].depth;
    assert forall i :: 0 <= i < |s.log| ==> r.log[i] == s.log[i];
    if !(t.url in s.visited || t.depth > env.maxDepth) {
      assert r.log[|s.log|].depth == t.depth && r.log[|s.log|].scope == scope;
    }
  }

  /** One turn keeps both invariants. */
  lemma StepSound(env: Env, seeds: seq<string>, scope: string, s: State)
    requires scope in seeds && s.queue != []
    requires Sound(env, seeds, s) && Draining(env, scope, s)
    ensures Sound(env, seeds, Step(env, scope, s)) && Draining(env, scope, Step(env, scope, s))
  {
    StepBookkeeping(env, scope, s);
    StepRecords(env, scope, s);
    StepQueueSound(env, scope, s);
    StepLogSound(env, scope, s);
    StepLogScoped(env, seeds, scope, s);
    StepFollowed(env, scope, s);
    StepLayered(env, scope, s);
    StepOrdered(env, scope, s);
    StepInReach(env, scope, s);
  }

  /** Draining a seed's queue keeps the crawl invariant. */
  lemma {:induction false} DrainSound(env: Env, seeds: seq<string>, scope: string, s: State)
    requires scope in seeds && Sound(env, seeds, s) && Draining(env, scope, s)
    ensures Sound(env, seeds, Drain(env, scope, s))
    decreases Budget(env, scope, s.visited), |s.queue|
  {
    if s.queue != [] {
      StepProgress(env, scope, s);
      StepSound(env, seeds, scope, s);
      DrainSound(env, seeds, scope, Step(env, scope, s));
    }
  }

  /** Draining never forgets a visited URL. */
  lemma {:induction false} DrainGrows(env: Env, scope: string, s: State)
    requires InReach(env, scope, s.queue)
    ensures s.visited <= Drain(env, scope, s).visited
    decreases Budget(env, scope, s.visited), |s.queue|
  {
    if s.queue != [] {
      StepProgress(env, scope, s);
      DrainGrows(env, scope, Step(env, scope, s));
    }
  }

  /** A seed visited earlier (under another seed, or the same seed given
      twice) is popped, skipped, and nothing else happens. */
  lemma SeedAlreadyVisited(env: Env, scope: string, s: State)
    requires s.queue == [] && scope in s.visited
    ensures Drain(env, scope, Seeded(scope, s)) == s
  {
    var s0 := Seeded(scope, s);
    assert InReach(env, scope, s0.queue);
    StepProgress(env, scope, s0);
    assert Step(env, scope, s0) == s;
  }

  /** Link obligations met by visited URLs alone stay met whatever is queued. */
  lemma FollowedAnyQueue(env: Env, visited: set<string>, queue: seq<Task>, log: seq<Visit>)
    requires AllFollowed(env, visited, [], log)
    ensures AllFollowed(env, visited, queue, log)
  {
    forall i, k | 0 <= i < |log| && 0 <= k < |Hrefs(env, log[i].url)|
      ensures Followed(env, visited, queue, log[i], Hrefs(env, log[i].url)[k])
    {
      assert Followed(env, visited, [], log[i], Hrefs(env, log[i].url)[k]);
    }
  }

  /** A seed not visited yet starts a drain that meets the drain invariant. */
  lemma SeedFresh(env: Env, seeds: seq<string>, scope: string, s: State)
    requires scope in seeds && Sound(env, seeds, s) && s.queue == [] && scope !in s.visited
    ensures Sound(env, seeds, Seeded(scope, s)) && Draining(env, scope, Seeded(scope, s))
  {
    var s0 := Seeded(scope, s);
    FollowedAnyQueue(env, s.visited, s0.queue, s.log);
    assert Sound(env, seeds, s0);
    SeedDraining(env, scope, s);
  }

  lemma SeedDraining(env: Env, scope: string, s: State)
    requires scope !in s.visited
    requires forall i :: 0 <= i < |s.log| ==> s.log[i].scope in s.visited
    ensures Draining(env, scope, Seeded(scope, s))
  {
    var s0 := Seeded(scope, s);
    assert InReach(env, scope, s0.queue);
    assert forall i :: 0 <= i < |s.log| ==> s.log[i].scope != scope;
    assert NotDeeper(scope, s0.log, s0.queue);
  }

  /** A seed within the depth bound is visited by the end of its drain. */
  lemma SeedVisited(env: Env, scope: string, s: State)
    requires env.maxDepth >= 0
    ensures scope in Drain(env, scope, Seeded(scope, s)).visited
  {
    var s0 := Seeded(scope, s);
    assert InReach(env, scope, s0.queue);
    StepProgress(env, scope, s0);
    var s1 := Step(env, scope, s0);
    assert scope in s1.visited;
    DrainGrows(env, scope, s1);
  }

  /** Starting a seed keeps the crawl invariant. */
  lemma StartSeed(env: Env, seeds: seq<string>, scope: string, s: State)
    requires scope in seeds && Sound(env, seeds, s) && s.queue == []
    ensures Sound(env, seeds, Drain(env, scope, Seeded(scope, s)))
  {
    if scope in s.visited {
      SeedAlreadyVisited(env, scope, s);
    } else {
      SeedFresh(env, seeds, scope, s);
      DrainSound(env, seeds, scope, Seeded(scope, s));
    }
  }

  /** The seeds loop keeps the crawl invariant. */
  lemma {:induction false} CrawlFromSound(env: Env, seeds: seq<string>, rest: seq<string>, s: State)
    requires forall i :: 0 <= i < |rest| ==> rest[i] in seeds
    requires Sound(env, seeds, s) && s.queue == []
    ensures Sound(env, seeds, CrawlFrom(env, rest, s))
    decreases |rest|
  {
    if rest != [] {
      StartSeed(env, seeds, rest[0], s);
      var s1 := Drain(env, rest[0], Seeded(rest[0], s));
      assert forall i :: 0 <= i < |rest[1..]| ==> rest[1..][i] == rest[i + 1];
      CrawlFromSound(env, seeds, rest[1..], s1);
    }
  }

  /** The seeds loop visits every seed when the depth bound admits depth 0,
      and forgets no visited URL. */
  lemma {:induction false} CrawlFromVisits(env: Env, rest: seq<string>, s: State)
    ensures s.visited <= CrawlFrom(env, rest, s).visited
    ensures env.maxDepth >= 0 ==> forall i :: 0 <= i < |rest| ==> rest[i] in CrawlFrom(env, rest, s).visited
    decreases |rest|
  {
    if rest != [] {
      var s0 := Seeded(rest[0], s);
      assert InReach(env, rest[0], s0.queue);
      var s1 := Drain(env, rest[0], s0);
      DrainGrows(env, rest[0], s0);
      if env.maxDepth >= 0 {
        SeedVisited(env, rest[0], s);
      }
      CrawlFromVisits(env, rest[1..], s1);
      assert forall i :: 1 <= i < |rest| ==> rest[i] == rest[1..][i - 1];
    }
  }

  /** The record a successfully fetched entry stores */
  ghost function RecordOf(env: Env, v: Visit): Record
    requires env.fetch(v.url).Fetched?
  {
    Record(CollectionName(v.scope), v.url, Join(env.fetch(v.url).paragraphs, '\n'))
  }

  /** The records the successfully fetched entries of a log call for */
  ghost function FetchedRecords(env: Env, log: seq<Visit>): set<Record> {
    set i | 0 <= i < |log| && env.fetch(log[i].url).Fetched? :: RecordOf(env, log[i])
  }

  lemma InFetchedRecords(env: Env, log: seq<Visit>, i: nat)
    requires i < |log| && env.fetch(log[i].url).Fetched?
    ensures RecordOf(env, log[i]) in FetchedRecords(env, log)
  {
  }

  lemma RecordsSnoc(env: Env, log: seq<Visit>, v: Visit)
    ensures Records(env, log + [v]) ==
      Records(env, log) + (if env.fetch(v.url).Fetched? then [RecordOf(env, v)] else [])
  {
    assert (log + [v])[..|log|] == log;
  }

  /** Every stored record is the record of a successfully fetched entry of
      the log: a failed fetch stores nothing. */
  lemma {:induction false} RecordsFromLog(env: Env, log: seq<Visit>)
    ensures forall j :: 0 <= j < |Records(env, log)| ==>
      exists i :: 0 <= i < |log| && env.fetch(log[i].url).Fetched? && Records(env, log)[j] == RecordOf(env, log[i])
    decreases |log|
  {
    if log != [] {
      var init := log[..|log| - 1];
      var v := log[|log| - 1];
      assert log == init + [v];
      RecordsSnoc(env, init, v);
      RecordsFromLog(env, init);
      var rs := Records(env, log);
      var before := Records(env, init);
      assert rs == before + (if env.fetch(v.url).Fetched? then [RecordOf(env, v)] else []);
      forall j | 0 <= j < |rs|
        ensures exists i :: 0 <= i < |log| && env.fetch(log[i].url).Fetched? && rs[j] == RecordOf(env, log[i])
      {
        if j < |before| {
          assert rs[j] == before[j];
          var i :| 0 <= i < |init| && env.fetch(init[i].url).Fetched? && before[j] == RecordOf(env, init[i]);
          assert log[i] == init[i];
        } else {
          var i := |log| - 1;
          assert log[i] == v && env.fetch(v.url).Fetched? && rs[j] == RecordOf(env, v);
        }
      }
    } else {
      assert Records(env, log) == [];
    }
  }

  /** Every stored record is among the records the log calls for. */
  lemma RecordsFetched(env: Env, log: seq<Visit>)
    ensures forall j :: 0 <= j < |Records(env, log)| ==> Records(env, log)[j] in FetchedRecords(env, log)
  {
    var rs := Records(env, log);
    RecordsFromLog(env, log);
    forall j | 0 <= j < |rs|
      ensures rs[j] in FetchedRecords(env, log)
    {
      var i :| 0 <= i < |log| && env.fetch(log[i].url).Fetched? && rs[j] == RecordOf(env, log[i]);
      InFetchedRecords(env, log, i);
    }
  }

  /** Every successfully fetched entry of the log has its record stored. */
  lemma {:induction false} LogHasRecords(env: Env, log: seq<Visit>)
    ensures forall i :: 0 <= i < |log| && env.fetch(log[i].url).Fetched? ==> RecordOf(env, log[i]) in Records(env, log)
    decreases |log|
  {
    if log != [] {
      var init := log[..|log| - 1];
      var v := log[|log| - 1];
      assert log == init + [v];
      RecordsSnoc(env, init, v);
      LogHasRecords(env, init);
      forall i | 0 <= i < |log| && env.fetch(log[i].url).Fetched?
        ensures RecordOf(env, log[i]) in Records(env, log)
      {
        if i < |init| {
          assert log[i] == init[i];
        }
      }
    }
  }

  /** A queue holding only tasks past the depth bound drains without
      effect: every entry is dropped at dequeue, with no fetch and no sleep. */
  lemma {:induction false} DrainTooDeep(env: Env, scope: string, s: State)
    requires forall j :: 0 <= j < |s.queue| ==> s.queue[j].depth > env.maxDepth
    ensures InReach(env, scope, s.queue) && Drain(env, scope, s) == s.(queue := [])
    decreases |s.queue|
  {
    if s.queue != [] {
      StepProgress(env, scope, s);
      var r := Step(env, scope, s);
      assert r == s.(queue := s.queue[1..]);
      DrainTooDeep(env, scope, r);
    }
  }

  /** The seeds loop over `a + b` is the loop over `a`, then over `b`. */
  lemma {:induction false} CrawlFromAppend(env: Env, a: seq<string>, b: seq<string>, s: State)
    ensures CrawlFrom(env, a + b, s) == CrawlFrom(env, b, CrawlFrom(env, a, s))
    decreases |a|
  {
    if a == [] {
      assert a + b == b;
    } else {
      assert (a + b)[0] == a[0];
      assert (a + b)[1..] == a[1..] + b;
      CrawlFromAppend(env, a[1..], b, Drain(env, a[0], Seeded(a[0], s)));
    }
  }

  /** Giving a seed again changes nothing: its second run finds it visited
      and ends at once, or, under a negative `max_depth`, finds it too deep. */
  lemma RepeatedSeedSkipped(env: Env, seeds: seq<string>, seed: string)
    requires seed in seeds
    ensures CrawlSpec(env, seeds + [seed]) == CrawlSpec(env, seeds)
  {
    var r := CrawlSpec(env, seeds);
    CrawlFromAppend(env, seeds, [seed], Initial());
    if env.maxDepth >= 0 {
      CrawlFromVisits(env, seeds, Initial());
      var i :| 0 <= i < |seeds| && seeds[i] == seed;
      SeedAlreadyVisited(env, seed, r);
    } else {
      DrainTooDeep(env, seed, Seeded(seed, r));
    }
    assert CrawlFrom(env, [seed], r) == CrawlFrom(env, [], Drain(env, seed, Seeded(seed, r)));
  }

  /** The promises of `crawl(start_urls, max_depth)`:
      - each URL is processed (visited, fetched, slept after) at most once,
        across all seeds, and the printed count is the number processed;
      - every processed URL is within the depth bound, is a seed (depth 0) or
        an eligible link under the seed it was found from;
      - the store holds exactly one record per successful fetch, in order,
        under that seed's collection, and nothing for a failed one;
      - every eligible link of a processed page shallower than `max_depth` was processed;
      - each seed's URLs are processed breadth first;
      - every seed is processed, unless the depth bound is negative. */
  lemma CrawlSpecSound(env: Env, seeds: seq<string>)
    ensures var r := CrawlSpec(env, seeds);
      Distinct(r.log) && r.sleeps == |r.log| && |r.urls| == |r.log| && r.urls == LoggedUrls(r.log)
      && (forall i :: 0 <= i < |r.log| ==> VisitSound(env, r.log[i]) && r.log[i].scope in seeds)
      && r.store == Records(env, r.log)
      && LinksCovered(env, r.log)
      && BreadthFirst(r.log)
      && (env.maxDepth >= 0 ==> forall i :: 0 <= i < |seeds| ==> seeds[i] in LoggedUrls(r.log))
  {
    var s := Initial();
    assert Sound(env, seeds, s);
    CrawlFromSound(env, seeds, seeds, s);
    CrawlFromVisits(env, seeds, s);
    var r := CrawlSpec(env, seeds);
    if seeds == [] {
      assert r == s;
    }
    DistinctCount(r.log);
  }

  /** The promises of a finished crawl, about its log, its store, its number
      of sleeps and its printed count:
      - each URL is processed (visited, fetched, slept after) at most once,
        and the count is the number processed;
      - every processed URL is within the depth bound and is a seed (depth 0)
        or an eligible link under the seed it was found from;
      - the store holds one record per successful fetch, in order, under that
        seed's collection, and nothing for a failed one: each stored record
        is the record of a successfully fetched entry, and each such entry
        has its record stored;
      - every eligible link of a processed page shallower than `max_depth` was processed;
      - each seed's URLs are processed breadth first;
      - every seed is processed, unless the depth bound is negative. */
  ghost predicate CrawlPromises(env: Env, seeds: seq<string>, log: seq<Visit>, store: seq<Record>, sleeps: nat, reported: nat) {
    Distinct(log) && sleeps == |log| && reported == |log|
    && (forall i :: 0 <= i < |log| ==> VisitSound(env, log[i]) && log[i].scope in seeds)
    && store == Records(env, log)
    && (forall j :: 0 <= j < |store| ==> store[j] in FetchedRecords(env, log))
    && (forall i :: 0 <= i < |log| && env.fetch(log[i].url).Fetched? ==> RecordOf(env, log[i]) in store)
    && LinksCovered(env, log)
    && BreadthFirst(log)
    && (env.maxDepth >= 0 ==> forall i :: 0 <= i < |seeds| ==> seeds[i] in LoggedUrls(log))
  }

  /** The promises follow from the crawl invariant's consequences. */
  lemma PromisesKept(env: Env, seeds: seq<string>, log: seq<Visit>, store: seq<Record>, sleeps: nat, reported: nat)
    requires Distinct(log) && sleeps == |log| && reported == |log|
    requires forall i :: 0 <= i < |log| ==> VisitSound(env, log[i]) && log[i].scope in seeds
    requires store == Records(env, log) && LinksCovered(env, log) && BreadthFirst(log)
    requires env.maxDepth >= 0 ==> forall i :: 0 <= i < |seeds| ==> seeds[i] in LoggedUrls(log)
    ensures CrawlPromises(env, seeds, log, store, sleeps, reported)
  {
    RecordsFetched(env, log);
    LogHasRecords(env, log);
  }

  /** `crawl(start_urls, max_depth)` keeps its promises. */
  lemma CrawlSpecPromises(env: Env, seeds: seq<string>)
    ensures var r := CrawlSpec(env, seeds);
      CrawlPromises(env, seeds, r.log, r.store, r.sleeps, |r.urls|)
  {
    var r := CrawlSpec(env, seeds);
    CrawlSpecSound(env, seeds);
    PromisesKept(env, seeds, r.log, r.store, r.sleeps, |r.urls|);
  }
}
