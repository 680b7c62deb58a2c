/** `web_crawler.py`: the single-seed crawler, with its six-suffix deny-list. */
module WebCrawler {
  import opened Text
  import opened Url
  import opened Frontier
  import opened CrawlInvariants
  import Crawler

  /** The suffixes `is_valid_url` of web_crawler.py rejects */
  const DenyList: seq<string> := [".pdf", ".doc", ".xls", ".png", ".jpg", ".gif"]

  /** `is_valid_url(url, base_url)` of web_crawler.py */
  predicate IsValid(url: string, baseUrl: string): (b: bool)
    ensures b ==> HasScheme(url) && baseUrl <= url
    ensures b ==> (!EndsWith(url, ".pdf") && !EndsWith(url, ".doc") && !EndsWith(url, ".xls")
                   && !EndsWith(url, ".png") && !EndsWith(url, ".jpg") && !EndsWith(url, ".gif"))
  {
    var d := DenyList;
    assert d[0] == ".pdf" && d[1] == ".doc" && d[2] == ".xls" && d[3] == ".png" && d[4] == ".jpg" && d[5] == ".gif";
    IsValidUrl(url, baseUrl, DenyList)
  }

  /** Ending with one of the deny-list is ending with one of the six suffixes. */
  lemma DenyListIff(url: string)
    ensures EndsWithAny(url, DenyList) <==>
      EndsWith(url, ".pdf") || EndsWith(url, ".doc") || EndsWith(url, ".xls")
      || EndsWith(url, ".png") || EndsWith(url, ".jpg") || EndsWith(url, ".gif")
  {
    var d := DenyList;
    assert d[0] == ".pdf" && d[1] == ".doc" && d[2] == ".xls" && d[3] == ".png" && d[4] == ".jpg" && d[5] == ".gif";
    if EndsWithAny(url, d) {
      var i :| 0 <= i < |d| && EndsWith(url, d[i]);
      assert i == 0 || i == 1 || i == 2 || i == 3 || i == 4 || i == 5;
    }
  }

  /** The gate without reference to the URL parser: "http:" or "https:" in
      any letter case in front, the base URL as a literal prefix, and none of
      the six suffixes at the end. */
  lemma IsValidIff(url: string, baseUrl: string)
    ensures IsValid(url, baseUrl) <==>
      ((|url| >= 5 && Lower(url[..5]) == "http:") || (|url| >= 6 && Lower(url[..6]) == "https:"))
      && baseUrl <= url
      && !EndsWith(url, ".pdf") && !EndsWith(url, ".doc") && !EndsWith(url, ".xls")
      && !EndsWith(url, ".png") && !EndsWith(url, ".jpg") && !EndsWith(url, ".gif")
  {
    HttpSchemeIff(url);
    DenyListIff(url);
  }

  /** A ".jpeg" URL in scope is accepted: the list has ".jpg" only. */
  lemma JpegAccepted(stem: string, baseUrl: string)
    requires IsHttpScheme(stem + ".jpeg") && baseUrl <= stem + ".jpeg"
    ensures IsValid(stem + ".jpeg", baseUrl)
  {
    forall i | 0 <= i < |DenyList|
      ensures !EndsWith(stem + ".jpeg", DenyList[i])
    {
      EndsWithTail(stem, ".jpeg", DenyList[i]);
    }
  }

  /** An upper-case ".JPG" URL in scope is accepted: the test is case-sensitive. */
  lemma UpperCaseJpgAccepted(stem: string, baseUrl: string)
    requires IsHttpScheme(stem + ".JPG") && baseUrl <= stem + ".JPG"
    ensures IsValid(stem + ".JPG", baseUrl)
  {
    forall i | 0 <= i < |DenyList|
      ensures !EndsWith(stem + ".JPG", DenyList[i])
    {
      EndsWithTail(stem, ".JPG", DenyList[i]);
    }
  }

  /** The host "nnrg.edu.in", dots replaced, is "nnrg_edu_in". */
  lemma SeedHost(host: string)
    requires host == "nnrg" + "." + "edu" + "." + "in"
    ensures ReplaceChar(host, '.', '_') == "nnrg" + "_" + "edu" + "_" + "in"
  {
    ReplaceCharConcat("nnrg" + "." + "edu" + ".", "in", '.', '_');
    ReplaceCharConcat("nnrg" + "." + "edu", ".", '.', '_');
    ReplaceCharConcat("nnrg" + ".", "edu", '.', '_');
    ReplaceCharConcat("nnrg", ".", '.', '_');
  }

  /** The script's own seed, "https://nnrg.edu.in/", files its pages under
      "nnrg_edu_in". */
  lemma SeedCollection(seed: string)
    requires seed == "https" + "://" + "nnrg" + "." + "edu" + "." + "in" + "/"
    ensures CollectionName(seed) == "nnrg" + "_" + "edu" + "_" + "in"
  {
    var host := "nnrg" + "." + "edu" + "." + "in";
    assert seed == "https" + "://" + host + "/";
    CollectionNameOfSeed("https", host, "/");
    SeedHost(host);
  }

  /** What the crawl's log promises about each entry of a one-seed crawl */
  lemma EntriesGated(fetch: string -> Response, resolve: (string, string) -> string, maxDepth: int,
                     startUrl: string, log: seq<Visit>)
    requires forall i :: 0 <= i < |log| ==>
      VisitSound(Env(fetch, resolve, DenyList, maxDepth), log[i]) && log[i].scope in [startUrl]
    ensures forall i :: 0 <= i < |log| ==>
      log[i].scope == startUrl && log[i].depth <= maxDepth && StartsWith(log[i].url, startUrl)
      && (log[i].depth == 0 ==> log[i].url == startUrl)
      && (log[i].depth > 0 ==> IsValid(log[i].url, startUrl))
      && (log[i].fetched <==> fetch(log[i].url).Fetched?)
  {
    forall i | 0 <= i < |log|
      ensures log[i].scope == startUrl && StartsWith(log[i].url, startUrl)
    {
      assert VisitSound(Env(fetch, resolve, DenyList, maxDepth), log[i]);
    }
  }

  /** The record of an entry of a one-seed crawl, spelled out */
  lemma RecordOfSeed(env: Env, startUrl: string, v: Visit)
    requires v.scope == startUrl && env.fetch(v.url).Fetched?
    ensures RecordOf(env, v) == Record(CollectionName(startUrl), v.url, Join(env.fetch(v.url).paragraphs, '\n'))
  {
  }

  /** In a one-seed crawl, the store's records are filed under the seed's
      collection and hold the pages of the successfully fetched entries. */
  lemma StoreOfSeed(fetch: string -> Response, resolve: (string, string) -> string, maxDepth: int,
                    startUrl: string, log: seq<Visit>, store: seq<Record>)
    requires forall i :: 0 <= i < |log| ==> log[i].scope == startUrl
    requires forall j :: 0 <= j < |store| ==> store[j] in FetchedRecords(Env(fetch, resolve, DenyList, maxDepth), log)
    requires forall i :: 0 <= i < |log| && fetch(log[i].url).Fetched? ==>
      RecordOf(Env(fetch, resolve, DenyList, maxDepth), log[i]) in store
    ensures forall j :: 0 <= j < |store| ==>
      (store[j].collection == CollectionName(startUrl)
       && exists i :: 0 <= i < |log| && fetch(log[i].url).Fetched?
            && store[j] == Record(CollectionName(startUrl), log[i].url, Join(fetch(log[i].url).paragraphs, '\n')))
    ensures forall i :: 0 <= i < |log| && fetch(log[i].url).Fetched? ==>
      Record(CollectionName(startUrl), log[i].url, Join(fetch(log[i].url).paragraphs, '\n')) in store
  {
    var env := Env(fetch, resolve, DenyList, maxDepth);
    forall j | 0 <= j < |store|
      ensures store[j].collection == CollectionName(startUrl)
        && exists i :: 0 <= i < |log| && fetch(log[i].url).Fetched?
             && store[j] == Record(CollectionName(startUrl), log[i].url, Join(fetch(log[i].url).paragraphs, '\n'))
    {
      assert store[j] in FetchedRecords(env, log);
      var i :| 0 <= i < |log| && fetch(log[i].url).Fetched? && store[j] == RecordOf(env, log[i]);
      RecordOfSeed(env, startUrl, log[i]);
    }
    forall i | 0 <= i < |log| && fetch(log[i].url).Fetched?
      ensures Record(CollectionName(startUrl), log[i].url, Join(fetch(log[i].url).paragraphs, '\n')) in store
    {
      RecordOfSeed(env, startUrl, log[i]);
    }
  }

  /** `crawl(start_url, max_depth)`: the shared crawl loop run on the one seed
      `start_url`, under this script's deny-list. */
  method Crawl(fetch: string -> Response, resolve: (string, string) -> string, startUrl: string, maxDepth: int)
    returns (log: seq<Visit>, store: seq<Record>, sleeps: nat, reported: nat)
    ensures var r := CrawlSpec(Env(fetch, resolve, DenyList, maxDepth), [startUrl]);
      log == r.log && store == r.store && sleeps == r.sleeps && reported == |r.urls|
    ensures Distinct(log) && sleeps == |log| && reported == |log|
    ensures forall i :: 0 <= i < |log| ==>
      log[i].scope == startUrl && log[i].depth <= maxDepth && StartsWith(log[i].url, startUrl)
      && (log[i].depth == 0 ==> log[i].url == startUrl)
      && (log[i].depth > 0 ==> IsValid(log[i].url, startUrl))
      && (log[i].fetched <==> fetch(log[i].url).Fetched?)
    ensures forall j :: 0 <= j < |store| ==>
      (store[j].collection == CollectionName(startUrl)
       && exists i :: 0 <= i < |log| && fetch(log[i].url).Fetched?
            && store[j] == Record(CollectionName(startUrl), log[i].url, Join(fetch(log[i].url).paragraphs, '\n')))
    ensures forall i :: 0 <= i < |log| && fetch(log[i].url).Fetched? ==>
      Record(CollectionName(startUrl), log[i].url, Join(fetch(log[i].url).paragraphs, '\n')) in store
    ensures forall i, j :: 0 <= i < j < |log| ==> log[i].depth <= log[j].depth
    ensures LinksCovered(Env(fetch, resolve, DenyList, maxDepth), log)
    ensures maxDepth >= 0 ==> startUrl in LoggedUrls(log)
  {
    var env := Env(fetch, resolve, DenyList, maxDepth);
    log, store, sleeps, reported := Crawler.Crawl(env, [startUrl]);
    EntriesGated(fetch, resolve, maxDepth, startUrl, log);
    StoreOfSeed(fetch, resolve, maxDepth, startUrl, log, store);
    assert [startUrl][0] == startUrl;
  }
}
