/** The part of `urllib.parse.urlparse` the crawler reads (the scheme and the
    network location), the URL eligibility gate `is_valid_url`, and the
    collection name derived from a seed. */
module Url {
  import opened Text

  predicate IsAsciiLetter(c: char) {
    'a' <= c <= 'z' || 'A' <= c <= 'Z'
  }

  /** Characters `urlsplit` accepts in a scheme (its `scheme_chars`) */
  predicate IsSchemeChar(c: char) {
    IsAsciiLetter(c) || '0' <= c <= '9' || c == '+' || c == '-' || c == '.'
  }

  /** Position of the first ':' of `url` (or `|url|`) */
  function ColonAt(url: string): nat {
    IndexOfAny(url, {':'})
  }

  /** `urlsplit` splits off a scheme when the first ':' is not the first
      character, the first character is an ASCII letter, and every character
      before the ':' is a scheme character. Equivalently: some ':' past the
      first character has only scheme characters in front of it, since a
      scheme character is never a ':'. */
  predicate HasScheme(url: string): (b: bool)
    ensures b <==> (exists i :: 0 < i < |url| && url[i] == ':' && IsAsciiLetter(url[0])
                              && forall k :: 0 <= k < i ==> IsSchemeChar(url[k]))
  {
    var i := ColonAt(url);
    0 < i < |url| && IsAsciiLetter(url[0]) && forall k :: 0 <= k < i ==> IsSchemeChar(url[k])
  }

  /** `urlparse(url).scheme`: the text before the first ':', lower-cased, or "" */
  function Scheme(url: string): string {
    if HasScheme(url) then Lower(url[..ColonAt(url)]) else ""
  }

  /** A scheme is present exactly when `urlsplit` splits one off; it is then
      as long as the text before the first ':', starts with a letter, and
      holds only lower-case scheme characters. */
  lemma SchemeShape(url: string)
    ensures Scheme(url) != "" <==> HasScheme(url)
    ensures HasScheme(url) ==> |Scheme(url)| == ColonAt(url) && IsAsciiLetter(Scheme(url)[0])
    ensures forall i :: 0 <= i < |Scheme(url)| ==> IsSchemeChar(Scheme(url)[i]) && !('A' <= Scheme(url)[i] <= 'Z')
  {
  }

  /** What `urlsplit` goes on to parse once the scheme is split off */
  function AfterScheme(url: string): string {
    if HasScheme(url) then url[ColonAt(url) + 1..] else url
  }

  /** `urlparse(url).netloc`: after a leading "//", everything up to the first
      '/', '?' or '#'; "" when there is no "//". */
  function Netloc(url: string): (r: string)
    ensures '/' !in r && '?' !in r && '#' !in r
    ensures |r| <= |url|
  {
    var rest := AfterScheme(url);
    if |rest| >= 2 && rest[..2] == "//" then
      var authority := rest[2..];
      authority[..IndexOfAny(authority, {'/', '?', '#'})]
    else ""
  }

  /** The scheme test of `is_valid_url`: `parsed.scheme in ["http", "https"]` */
  predicate IsHttpScheme(url: string) {
    Scheme(url) == "http" || Scheme(url) == "https"
  }

  /** `is_valid_url(url, base_url)` with the suffix deny-list as a parameter:
      an http(s) URL, starting with the literal scope string, not ending with
      any deny-listed suffix (compared case-sensitively). */
  predicate IsValidUrl(url: string, scope: string, deny: seq<string>) {
    IsHttpScheme(url) && StartsWith(url, scope) && !EndsWithAny(url, deny)
  }

  /** The collection a seed's pages go to: `urlparse(seed).netloc.replace('.', '_')` */
  function CollectionName(seed: string): (r: string)
    ensures |r| == |Netloc(seed)|
    ensures '.' !in r
    ensures forall i :: 0 <= i < |r| && Netloc(seed)[i] != '.' ==> r[i] == Netloc(seed)[i]
    ensures forall i :: 0 <= i < |r| && Netloc(seed)[i] == '.' ==> r[i] == '_'
  {
    ReplaceChar(Netloc(seed), '.', '_')
  }

  /** The scheme is http or https exactly when the URL begins with "http:" or
      "https:" in any mix of letter cases. */
  lemma HttpSchemeIff(url: string)
    ensures IsHttpScheme(url) <==>
      (|url| >= 5 && Lower(url[..5]) == "http:") || (|url| >= 6 && Lower(url[..6]) == "https:")
  {
    if IsHttpScheme(url) {
      HttpSchemeHasPrefix(url);
    } else if (|url| >= 5 && Lower(url[..5]) == "http:") || (|url| >= 6 && Lower(url[..6]) == "https:") {
      HttpPrefixHasScheme(url);
    }
  }

  lemma HttpPrefixHasScheme(url: string)
    requires (|url| >= 5 && Lower(url[..5]) == "http:") || (|url| >= 6 && Lower(url[..6]) == "https:")
    ensures IsHttpScheme(url)
  {
    var n := if |url| >= 5 && Lower(url[..5]) == "http:" then 4 else 5;
    var word := Lower(url[..n + 1]);
    assert forall k :: 0 <= k <= n ==> word[k] == LowerChar(url[k]);
    LowerPrefixScheme(url, n);
    assert Lower(url[..n]) == word[..n];
  }

  lemma LowerSnoc(s: string, n: nat)
    requires n < |s|
    ensures Lower(s[..n + 1]) == Lower(s[..n]) + [LowerChar(s[n])]
  {
  }

  lemma HttpSchemeHasPrefix(url: string)
    requires IsHttpScheme(url)
    ensures (|url| >= 5 && Lower(url[..5]) == "http:") || (|url| >= 6 && Lower(url[..6]) == "https:")
  {
    var i := ColonAt(url);
    assert HasScheme(url);
    assert |Lower(url[..i])| == i;
    assert url[i] == ':';
    LowerSnoc(url, i);
  }

  /** If the first `n + 1` characters lower-case to `n` letters and a ':',
      the scheme is those `n` letters. */
  lemma LowerPrefixScheme(url: string, n: nat)
    requires 0 < n < |url|
    requires LowerChar(url[n]) == ':'
    requires forall k :: 0 <= k < n ==> 'a' <= LowerChar(url[k]) <= 'z'
    ensures Scheme(url) == Lower(url[..n])
  {
    assert Lower(url[..n + 1])[n] == LowerChar(url[n]);
    assert url[n] == ':';
    forall k | 0 <= k < n ensures url[k] != ':' && IsAsciiLetter(url[k]) {
      assert Lower(url[..n + 1])[k] == LowerChar(url[k]);
    }
    IndexOfAnyAt(url, {':'}, n);
  }

  /** `is_valid_url` without reference to the URL parser: the URL begins with
      "http:" or "https:" (any letter case), begins with the scope, and ends
      with no deny-listed suffix. */
  lemma IsValidUrlIff(url: string, scope: string, deny: seq<string>)
    ensures IsValidUrl(url, scope, deny) <==>
      ((|url| >= 5 && Lower(url[..5]) == "http:") || (|url| >= 6 && Lower(url[..6]) == "https:"))
      && scope <= url
      && forall i :: 0 <= i < |deny| ==> !EndsWith(url, deny[i])
  {
    HttpSchemeIff(url);
  }

  /** A URL outside the scope's literal prefix is never eligible, whatever the
      deny-list. */
  lemma OutOfScopeRejected(url: string, scope: string, deny: seq<string>)
    requires !(scope <= url)
    ensures !IsValidUrl(url, scope, deny)
  {
  }

  /** "http:" or "https:" in front of anything is split off as the scheme. */
  lemma SplitHttpScheme(scheme: string, rest: string)
    requires scheme == "http" || scheme == "https"
    ensures Scheme(scheme + ":" + rest) == scheme
    ensures AfterScheme(scheme + ":" + rest) == rest
  {
    var url := scheme + ":" + rest;
    var n := |scheme|;
    assert url[n] == ':';
    assert forall k :: 0 <= k < n ==> url[k] == scheme[k];
    LowerPrefixScheme(url, n);
    assert url[..n] == scheme;
    IndexOfAnyAt(url, {':'}, n);
    assert url[n + 1..] == rest;
  }

  /** For "http(s)://host" followed by a path, query or fragment, the network
      location is the host. */
  lemma NetlocOfHttpUrl(scheme: string, host: string, tail: string)
    requires scheme == "http" || scheme == "https"
    requires '/' !in host && '?' !in host && '#' !in host
    requires tail == [] || tail[0] in {'/', '?', '#'}
    ensures Netloc(scheme + "://" + host + tail) == host
  {
    var rest := "//" + host + tail;
    assert scheme + "://" + host + tail == scheme + ":" + rest;
    SplitHttpScheme(scheme, rest);
    NetlocAfterSlashes(scheme + ":" + rest, host, tail);
  }

  lemma NetlocAfterSlashes(url: string, host: string, tail: string)
    requires AfterScheme(url) == "//" + host + tail
    requires '/' !in host && '?' !in host && '#' !in host
    requires tail == [] || tail[0] in {'/', '?', '#'}
    ensures Netloc(url) == host
  {
    var rest := AfterScheme(url);
    assert rest[..2] == "//";
    assert rest[2..] == host + tail;
    HostEndsAuthority(host, tail);
  }

  lemma HostEndsAuthority(host: string, tail: string)
    requires '/' !in host && '?' !in host && '#' !in host
    requires tail == [] || tail[0] in {'/', '?', '#'}
    ensures (host + tail)[..IndexOfAny(host + tail, {'/', '?', '#'})] == host
  {
    var authority := host + tail;
    var r := IndexOfAny(authority, {'/', '?', '#'});
    if tail != [] {
      assert authority[|host|] == tail[0];
    }
    assert r == |host|;
    assert authority[..|host|] == host;
  }

  /** A seed "http(s)://host/..." files its pages under the host with every
      '.' turned into '_'. */
  lemma CollectionNameOfSeed(scheme: string, host: string, tail: string)
    requires scheme == "http" || scheme == "https"
    requires '/' !in host && '?' !in host && '#' !in host
    requires tail == [] || tail[0] in {'/', '?', '#'}
    ensures CollectionName(scheme + "://" + host + tail) == ReplaceChar(host, '.', '_')
  {
    NetlocOfHttpUrl(scheme, host, tail);
  }
}
