/** String operations of Python's `str` that the crawler relies on:
    `find`, `startswith`, `endswith` (with a tuple of suffixes), `lower`
    (on ASCII), `replace` of one character and `"\n".join`; `Split` is here
    only as the inverse of `Join`. */
module Text {

  /** Index of the first character of `s` that is in `stops`, or `|s|` when
      there is none (Python's `find`, with "not found" as `|s|` instead of -1). */
  function IndexOfAny(s: string, stops: set<char>): (r: nat)
    ensures r <= |s|
    ensures r < |s| ==> s[r] in stops
    ensures forall k :: 0 <= k < r ==> s[k] !in stops
  {
    if s == [] then 0
    else if s[0] in stops then 0
    else 1 + IndexOfAny(s[1..], stops)
  }

  /** `s.startswith(prefix)` */
  predicate StartsWith(s: string, prefix: string): (b: bool)
    ensures b ==> |prefix| <= |s| && s == prefix + s[|prefix|..]
  {
    prefix <= s
  }

  /** Every string starts with itself followed by anything, and with its own
      first characters. */
  lemma StartsWithConcat(prefix: string, rest: string)
    ensures StartsWith(prefix + rest, prefix)
    ensures forall n :: 0 <= n <= |rest| ==> StartsWith(prefix + rest, prefix + rest[..n])
  {
    forall n | 0 <= n <= |rest| ensures prefix + rest[..n] <= prefix + rest {
      assert (prefix + rest)[..|prefix| + n] == prefix + rest[..n];
    }
  }

  /** `s.endswith(suffix)` */
  predicate EndsWith(s: string, suffix: string): (b: bool)
    ensures b ==> |suffix| <= |s| && s == s[..|s| - |suffix|] + suffix
  {
    |suffix| <= |s| && s[|s| - |suffix|..] == suffix
  }

  /** `s.endswith(tuple(suffixes))`: true when one of the suffixes ends `s` */
  predicate EndsWithAny(s: string, suffixes: seq<string>): (b: bool)
    ensures suffixes == [] ==> !b
    ensures |suffixes| == 1 ==> (b <==> EndsWith(s, suffixes[0]))
  {
    exists i :: 0 <= i < |suffixes| && EndsWith(s, suffixes[i])
  }

  /** `c.lower()` for the ASCII range; other characters are left alone. */
  function LowerChar(c: char): char {
    if 'A' <= c <= 'Z' then (c as int + 32) as char else c
  }

  /** `s.lower()` for the ASCII range: no upper-case letter survives, an
      upper-case letter becomes its lower-case partner, and every other
      character is kept. */
  function Lower(s: string): (r: string)
    ensures |r| == |s|
    ensures forall i :: 0 <= i < |r| ==> !('A' <= r[i] <= 'Z')
    ensures forall i :: 0 <= i < |s| && 'A' <= s[i] <= 'Z' ==> r[i] as int == s[i] as int + 32
    ensures forall i :: 0 <= i < |s| && !('A' <= s[i] <= 'Z') ==> r[i] == s[i]
  {
    seq(|s|, i requires 0 <= i < |s| => LowerChar(s[i]))
  }

  /** Lower-casing twice is lower-casing once. */
  lemma LowerIdempotent(s: string)
    ensures Lower(Lower(s)) == Lower(s)
  {
    var once := Lower(s);
    forall i | 0 <= i < |once| ensures Lower(once)[i] == once[i] {
      assert !('A' <= once[i] <= 'Z');
    }
  }

  /** `s.replace(target, replacement)` for one-character arguments */
  function ReplaceChar(s: string, target: char, replacement: char): (r: string)
    ensures |r| == |s|
    ensures forall i :: 0 <= i < |s| ==> r[i] == (if s[i] == target then replacement else s[i])
    ensures target != replacement ==> target !in r
  {
    if s == [] then []
    else [if s[0] == target then replacement else s[0]] + ReplaceChar(s[1..], target, replacement)
  }

  /** Replacing in a concatenation is replacing in each part. */
  lemma ReplaceCharConcat(a: string, b: string, target: char, replacement: char)
    ensures ReplaceChar(a + b, target, replacement) == ReplaceChar(a, target, replacement) + ReplaceChar(b, target, replacement)
  {
    var l, r := ReplaceChar(a + b, target, replacement), ReplaceChar(a, target, replacement) + ReplaceChar(b, target, replacement);
    assert forall i :: 0 <= i < |l| ==> l[i] == r[i];
  }

  /** `sep.join(parts)` for a one-character separator */
  function Join(parts: seq<string>, sep: char): (r: string)
    ensures parts != [] ==> parts[0] <= r
    ensures |r| >= |parts| - 1
  {
    if parts == [] then ""
    else if |parts| == 1 then parts[0]
    else parts[0] + [sep] + Join(parts[1..], sep)
  }

  lemma JoinPair(a: string, b: string, sep: char)
    ensures Join([a, b], sep) == a + [sep] + b
  {
    assert [a, b][1..] == [b];
  }

  /** `s.split(sep)` for a one-character separator: always at least one piece */
  function Split(s: string, sep: char): (r: seq<string>)
    ensures |r| >= 1
    ensures forall i :: 0 <= i < |r| ==> sep !in r[i]
    decreases |s|
  {
    var i := IndexOfAny(s, {sep});
    if i == |s| then [s] else [s[..i]] + Split(s[i + 1..], sep)
  }

  /** The first stop character of `s` is at `n` exactly when `s[n]` is one and
      no earlier character is. */
  lemma IndexOfAnyAt(s: string, stops: set<char>, n: nat)
    requires n < |s| && s[n] in stops
    requires forall k :: 0 <= k < n ==> s[k] !in stops
    ensures IndexOfAny(s, stops) == n
  {
  }

  /** Splitting at a first separator that follows `head` yields `head` first. */
  lemma SplitAt(head: string, rest: string, sep: char)
    requires sep !in head
    ensures Split(head + [sep] + rest, sep) == [head] + Split(rest, sep)
  {
    var s := head + [sep] + rest;
    assert s[|head|] == sep;
    assert forall k :: 0 <= k < |head| ==> s[k] == head[k];
    IndexOfAnyAt(s, {sep}, |head|);
    assert s[..|head|] == head;
    assert s[|head| + 1..] == rest;
  }

  /** Splitting a joined list gives the list back when no part holds the
      separator (the empty list is the exception: it joins to "" which
      splits to [""]). */
  lemma {:induction false} SplitJoin(parts: seq<string>, sep: char)
    requires parts != []
    requires forall i :: 0 <= i < |parts| ==> sep !in parts[i]
    ensures Split(Join(parts, sep), sep) == parts
    decreases |parts|
  {
    if |parts| == 1 {
      assert IndexOfAny(parts[0], {sep}) == |parts[0]|;
    } else {
      var tail := parts[1..];
      assert forall i :: 0 <= i < |tail| ==> tail[i] == parts[i + 1];
      SplitJoin(tail, sep);
      assert Join(parts, sep) == parts[0] + [sep] + Join(tail, sep);
      SplitAt(parts[0], Join(tail, sep), sep);
      assert parts == [parts[0]] + tail;
    }
  }

  /** Joining the pieces of a split gives the original string back. */
  lemma {:induction false} JoinSplit(s: string, sep: char)
    ensures Join(Split(s, sep), sep) == s
    decreases |s|
  {
    var i := IndexOfAny(s, {sep});
    if i < |s| {
      JoinSplit(s[i + 1..], sep);
      var tail := Split(s[i + 1..], sep);
      var pieces := [s[..i]] + tail;
      assert pieces[1..] == tail;
      assert Join(pieces, sep) == s[..i] + [sep] + Join(tail, sep);
      assert s == s[..i] + [s[i]] + s[i + 1..];
    }
  }

  /** Whether `stem + tail` ends with a suffix depends on `tail` alone: fully
      when the suffix fits in `tail`, and through the suffix's last `|tail|`
      characters when it does not. */
  lemma EndsWithTail(stem: string, tail: string, suffix: string)
    ensures |suffix| <= |tail| ==> (EndsWith(stem + tail, suffix) <==> EndsWith(tail, suffix))
    ensures |suffix| > |tail| && EndsWith(stem + tail, suffix) ==> EndsWith(tail, suffix[|suffix| - |tail|..])
  {
    var s := stem + tail;
    if |suffix| <= |tail| {
      assert s[|s| - |suffix|..] == tail[|tail| - |suffix|..];
    } else if EndsWith(s, suffix) {
      assert s[|s| - |tail|..] == tail;
      assert suffix[|suffix| - |tail|..] == s[|s| - |suffix|..][|suffix| - |tail|..];
    }
  }

  /** A string ends with none of the suffixes when its last character ends
      none of them. */
  lemma LastCharNotSuffix(s: string, suffixes: seq<string>)
    requires s != []
    requires forall i :: 0 <= i < |suffixes| ==> suffixes[i] != [] && suffixes[i][|suffixes[i]| - 1] != s[|s| - 1]
    ensures !EndsWithAny(s, suffixes)
  {
  }

  /** Ending with one of `[x] + rest` is ending with `x` or with one of `rest`. */
  lemma EndsWithAnyCons(s: string, x: string, rest: seq<string>)
    ensures EndsWithAny(s, [x] + rest) <==> EndsWith(s, x) || EndsWithAny(s, rest)
  {
    var all := [x] + rest;
    assert all[0] == x;
    assert forall i :: 0 <= i < |rest| ==> all[i + 1] == rest[i];
    if EndsWithAny(s, all) {
      var i :| 0 <= i < |all| && EndsWith(s, all[i]);
      if i > 0 {
        assert all[i] == rest[i - 1];
      }
    }
  }

  /** Ending with one of `a + b` is ending with one of `a` or one of `b`. */
  lemma EndsWithAnyConcat(s: string, a: seq<string>, b: seq<string>)
    ensures EndsWithAny(s, a + b) <==> EndsWithAny(s, a) || EndsWithAny(s, b)
  {
    if EndsWithAny(s, a + b) {
      var i :| 0 <= i < |a + b| && EndsWith(s, (a + b)[i]);
      if i >= |a| {
        assert (a + b)[i] == b[i - |a|];
      }
    }
    if EndsWithAny(s, b) {
      var i :| 0 <= i < |b| && EndsWith(s, b[i]);
      assert (a + b)[|a| + i] == b[i];
    }
    if EndsWithAny(s, a) {
      var i :| 0 <= i < |a| && EndsWith(s, a[i]);
      assert (a + b)[i] == a[i];
    }
  }
}
