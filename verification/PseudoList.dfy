/**
 Listing in the PSEUDO backend: `startAfter` strings, pages, and chains of pages.
 */
module PseudoList {
  import opened Bytes
  import opened Collections
  import opened Pseudo
  import opened PseudoExact
  import opened PseudoRank

  const SLASH: byte := 0x2F

  /** Where the first "/" is, or the length if there is none. */
  function FirstSlash(s: Str): (n: nat)
    ensures n <= |s| && (forall k :: 0 <= k < n ==> s[k] != SLASH) && (n < |s| ==> s[n] == SLASH)
  {
    if s == [] || s[0] == SLASH then 0 else 1 + FirstSlash(s[1..])
  }

  /** strings.SplitN(s, "/", n), for n > 0. */
  function SplitN(s: Str, n: nat): (r: Path)
    requires n > 0
    ensures 0 < |r| <= n
    decreases n
  {
    if n == 1 || FirstSlash(s) == |s| then [s]
    else [s[..FirstSlash(s)]] + SplitN(s[FirstSlash(s) + 1..], n - 1)
  }

  function Join(p: Path): Str {
    if p == [] then [] else if |p| == 1 then p[0] else p[0] + [SLASH] + Join(p[1..])
  }

  /** Splitting loses nothing, and only the last element may hold a "/". */
  lemma {:induction false} SplitJoins(s: Str, n: nat)
    requires n > 0
    ensures Join(SplitN(s, n)) == s
    ensures forall k :: 0 <= k < |SplitN(s, n)| - 1 ==> SLASH !in SplitN(s, n)[k]
    decreases n
  {
    hide SplitN, Join, FirstSlash;
    SplitIs(s, n);
    if n > 1 && FirstSlash(s) < |s| {
      var head, tail := s[..FirstSlash(s)], s[FirstSlash(s) + 1..];
      SplitJoins(tail, n - 1);
      JoinIs(head, SplitN(tail, n - 1));
      assert s == head + [SLASH] + tail;
    }
  }

  lemma SplitIs(s: Str, n: nat)
    requires n > 0
    ensures n == 1 || FirstSlash(s) == |s| ==> SplitN(s, n) == [s] && Join([s]) == s
    ensures n > 1 && FirstSlash(s) < |s| ==>
      SplitN(s, n) == [s[..FirstSlash(s)]] + SplitN(s[FirstSlash(s) + 1..], n - 1) && SLASH !in s[..FirstSlash(s)]
  {
  }

  lemma JoinIs(head: Str, rest: Path)
    requires rest != []
    ensures Join([head] + rest) == head + [SLASH] + Join(rest)
  {
    assert ([head] + rest)[1..] == rest;
  }

  lemma {:induction false} FirstSlashAt(s: Str, n: nat)
    requires n < |s| && s[n] == SLASH && SLASH !in s[..n]
    ensures FirstSlash(s) == n
  {
    if n > 0 {
      assert s[..n][0] == s[0];
      assert s[1..][..n - 1] == s[..n][1..];
      FirstSlashAt(s[1..], n - 1);
    }
  }

  lemma SplitHead(head: Str, rest: Str, n: nat)
    requires n > 1 && SLASH !in head
    ensures SplitN(head + [SLASH] + rest, n) == [head] + SplitN(rest, n - 1)
  {
    var s := head + [SLASH] + rest;
    assert s[..|head|] == head && s[|head|] == SLASH && s[|head| + 1..] == rest;
    FirstSlashAt(s, |head|);
  }

  lemma SplitLast(e: Str, n: nat)
    requires n > 0 && SLASH !in e
    ensures SplitN(e, n) == [e]
  {
  }

  /** Elements without a "/" come back from the string they make. */
  lemma {:induction false} JoinSplits(es: Path, n: nat)
    requires 0 < |es| <= n && forall k :: 0 <= k < |es| ==> SLASH !in es[k]
    ensures SplitN(Join(es), n) == es
    decreases |es|
  {
    hide SplitN;
    if |es| > 1 {
      JoinSplits(es[1..], n - 1);
      SplitHead(es[0], Join(es[1..]), n);
      assert es == [es[0]] + es[1..];
    } else {
      SplitLast(es[0], n);
      assert es == [es[0]];
    }
  }

  // -------- Where a listing starts --------

  /** The elements of startAfter, for a listing of a directory at depth `d`. */
  function Elements(c: Config, d: nat, startAfter: Str): (es: Path)
    requires Validated(c) && Exists(c, d)
  {
    DirectoriesAreShallow(c, d);
    SplitN(startAfter, MaxPathDepth(c) + 1 - d)
  }

  /** The index that a listing starts at. */
  function From(c: Config, d: nat, startAfter: Str, token: Option<nat>): nat
    requires Validated(c) && Exists(c, d)
  {
    if startAfter != [] then Token(c, d, Elements(c, d, startAfter)) else if token.Some? then token.value else 0
  }

  /** What a listing after these elements should hold. */
  function Later(es: Path): Path -> bool {
    p => !AtOrBefore(p, es)
  }

  /** Listing from a right token is filtering the full listing by path-element order. */
  lemma ListingFromToken(c: Config, d: nat, es: Path, token: nat)
    requires Validated(c) && d <= 3 && Counts(c, d, es, token)
    ensures Listing(c, d)[token..] == Filter(Listing(c, d), Later(es))
  {
    hide Objects, Unrank;
    var l := Listing(c, d);
    FilterAll(l[..token], Later(es), false);
    FilterAll(l[token..], Later(es), true);
    FilterAppend(l[..token], l[token..], Later(es));
    assert l == l[..token] + l[token..];
  }

  /** The listing after startAfter is what it should be. */
  ghost predicate RightAfter(c: Config, d: nat, startAfter: Str)
    requires Validated(c) && Exists(c, d)
  {
    Counts(c, d, Elements(c, d, startAfter), From(c, d, startAfter, None))
  }

  /** A format prints one path element. */
  ghost predicate OnePiece(f: Format) {
    forall n :: f.show(n) != [] && SLASH !in f.show(n)
  }

  lemma PrintedIsElement(c: Config, e: Str)
    requires OnePiece(c.dir) && OnePiece(c.file) && Printed(c, e)
    ensures e != [] && SLASH !in e
  {
  }

  lemma WrongString(c: Config, d: nat, es: Path)
    requires Validated(c) && Exists(c, d) && OnePiece(c.dir) && OnePiece(c.file)
    requires 0 < |es| <= MaxPathDepth(c) + 1 - d && (forall k :: 0 <= k < |es| ==> Printed(c, es[k])) && !Counts(c, d, es, Token(c, d, es))
    ensures Join(es) != [] && !RightAfter(c, d, Join(es))
  {
    hide Counts, Token, Printed, OnePiece;
    forall k | 0 <= k < |es| ensures es[k] != [] && SLASH !in es[k] {
      PrintedIsElement(c, es[k]);
    }
    JoinSplits(es, MaxPathDepth(c) + 1 - d);
  }

  /** Over all startAfter strings: the token is right for each exactly if directory names read back and no other number prints among the names. */
  lemma StringsRightIff(c: Config, d: nat)
    requires Validated(c) && Ordered(c) && Exists(c, d) && OnePiece(c.dir) && OnePiece(c.file)
    ensures (forall s :: s != [] ==> RightAfter(c, d, s)) <==> AllNamesOk(c, d)
  {
    hide Counts, Ordered, Token, NamesOk, OnePiece;
    if AllNamesOk(c, d) {
      forall s | s != [] ensures RightAfter(c, d, s) {
        TokenCounts(c, d, Elements(c, d, s));
      }
    } else {
      var depth :| d <= depth <= 3 && !NamesOk(c, depth);
      var es := WrongBelow(c, d, depth);
      OnlyWhereNamesAre(c, depth);
      DirectoriesAreShallow(c, depth);
      WrongString(c, d, es);
    }
  }

  // -------- Pages --------

  datatype Page = Page(objects: seq<Path>, next: Option<nat>)

  datatype Result = Listed(page: Page) | BothGiven

  datatype Limits = Limits(maxItems: nat, directoryPageSize: nat, maxListPageSize: nat)

  function AtMostSize(n: nat, limit: nat, always: bool): nat {
    if (always || limit != 0) && n > limit then limit else n
  }

  /** No limit in force is exceeded; 0 puts the first two out of force. */
  predicate WithinLimits(n: nat, limits: Limits) {
    && (limits.maxItems != 0 ==> n <= limits.maxItems) && (limits.directoryPageSize != 0 ==> n <= limits.directoryPageSize)
    && n <= limits.maxListPageSize
  }

  /** One of the limits in force is reached. */
  predicate AtLimit(n: nat, limits: Limits) {
    (limits.maxItems != 0 && n == limits.maxItems) || (limits.directoryPageSize != 0 && n == limits.directoryPageSize) || n == limits.maxListPageSize
  }

  function PageSize(n: nat, limits: Limits): (size: nat)
    ensures size <= n && WithinLimits(size, limits) && (size < n ==> AtLimit(size, limits))
  {
    AtMostSize(AtMostSize(AtMostSize(n, limits.maxItems, false), limits.directoryPageSize, false), limits.maxListPageSize, true)
  }

  /** The page at `from`, and the token of the page after it if there is one. */
  function PageAt(l: seq<Path>, from: nat, limits: Limits, keep: Path -> bool): Page {
    if from >= |l| then Page([], None)
    else
      var n := PageSize(|l| - from, limits);
      Page(Filter(l[from..from + n], keep), if n < |l| - from then Some(from + n) else None)
  }

  /**
   A page runs to the end of the listing, or exactly as far as the limits allow; there is a next token
   exactly if objects remain, and it is where they start.
   */
  predicate IsPage(l: seq<Path>, from: nat, limits: Limits, keep: Path -> bool, page: Page) {
    if from >= |l| then page == Page([], None)
    else
      var end := if page.next.Some? then page.next.value else |l|;
      && from <= end <= |l| && page.objects == Filter(l[from..end], keep) && WithinLimits(end - from, limits)
      && (page.next.Some? ==> end < |l| && AtLimit(end - from, limits))
  }

  lemma PageAtIsPage(l: seq<Path>, from: nat, limits: Limits, keep: Path -> bool)
    ensures IsPage(l, from, limits, keep, PageAt(l, from, limits, keep)) && WithinLimits(|PageAt(l, from, limits, keep).objects|, limits)
  {
    hide Filter, PageSize;
    if from < |l| {
      var n := PageSize(|l| - from, limits);
      FilterShorter(l[from..from + n], keep);
      if n == |l| - from {
        assert l[from..from + n] == l[from..|l|];
      }
    }
  }

  /** listObjects. */
  method ListObjects(c: Config, d: nat, startAfter: Str, token: Option<nat>, limits: Limits, keep: Path -> bool) returns (r: Result, from: nat)
    requires Validated(c) && Ordered(c) && Exists(c, d)
    ensures r == BothGiven <==> startAfter != [] && token.Some?
    ensures r.Listed? ==> from == From(c, d, startAfter, token) && r.page == PageAt(Listing(c, d), from, limits, keep)
    ensures r.Listed? ==> IsPage(Listing(c, d), from, limits, keep, r.page) && WithinLimits(|r.page.objects|, limits)
  {
    hide Ordered, Counts, Objects, Unrank, PageSize, Filter, SplitN, Token;
    from := 0;
    ghost var l := Listing(c, d);
    if startAfter != [] && token.Some? {
      return BothGiven, 0;
    }
    if token.Some? {
      from := token.value;
    }
    var limit := Objects(c, d);
    if startAfter != [] {
      from := StartToken(c, d, Elements(c, d, startAfter));
    }
    PageAtIsPage(l, from, limits, keep);
    if from >= limit {
      return Listed(Page([], None)), from;
    }
    var n, next := Bound(limit - from, from, limits);
    var objects := Slice(c, d, from, from + n);
    objects := Narrow(objects, keep);
    r := Listed(Page(objects, next));
  }

  /** The caps on a page's size, and the token that follows it. */
  method Bound(objects: nat, from: nat, limits: Limits) returns (n: nat, next: Option<nat>)
    ensures n == PageSize(objects, limits) <= objects && next == if n < objects then Some(from + n) else None
  {
    n, next := objects, None;
    if limits.maxItems != 0 && n > limits.maxItems {
      n := limits.maxItems;
      next := Some(from + n);
    }
    if limits.directoryPageSize != 0 && n > limits.directoryPageSize {
      n := limits.directoryPageSize;
      next := Some(from + n);
    }
    if n > limits.maxListPageSize {
      n := limits.maxListPageSize;
      next := Some(from + n);
    }
  }

  /** The loop that fills a page. */
  method Slice(c: Config, d: nat, from: nat, limit: nat) returns (objects: seq<Path>)
    requires Validated(c) && d <= 3 && from <= limit <= Objects(c, d)
    ensures objects == Listing(c, d)[from..limit]
  {
    hide Objects, Unrank;
    objects := [];
    var k := from;
    while k < limit
      invariant from <= k <= limit && objects == Listing(c, d)[from..k]
    {
      assert Listing(c, d)[k] == Unrank(c, d, k);
      objects := objects + [Unrank(c, d, k)];
      k := k + 1;
    }
  }

  /** The loop that applies a prefix to a page. */
  method Narrow(objects: seq<Path>, keep: Path -> bool) returns (kept: seq<Path>)
    ensures kept == Filter(objects, keep)
  {
    kept := [];
    var k := 0;
    while k < |objects|
      invariant 0 <= k <= |objects| && kept == Filter(objects[..k], keep)
    {
      assert objects[..k + 1][..k] == objects[..k];
      if keep(objects[k]) {
        kept := kept + [objects[k]];
      }
      k := k + 1;
    }
    assert objects[..k] == objects;
  }

  /** Following nextContinuationToken to the end: whatever the page limits, everything after the start, once, in order. */
  method ListAll(c: Config, d: nat, startAfter: Str, limits: Limits, keep: Path -> bool) returns (all: seq<Path>)
    requires Validated(c) && Ordered(c) && Exists(c, d) && limits.maxListPageSize > 0
    ensures var from := From(c, d, startAfter, None); from <= |Listing(c, d)| && all == Filter(Listing(c, d)[from..], keep)
    ensures startAfter == [] ==> all == Filter(Listing(c, d), keep)
    ensures startAfter != [] && AllNamesOk(c, d) ==> all == Filter(Filter(Listing(c, d), Later(Elements(c, d, startAfter))), keep)
  {
    hide Ordered, Counts, Objects, Unrank, Token, AllNamesOk, SplitN;
    var r, from := ListObjects(c, d, startAfter, None, limits, keep);
    ghost var l, start := Listing(c, d), from;
    StartIsInside(c, d, startAfter);
    all := r.page.objects;
    var next := r.page.next;
    PageStep(l, start, from, limits, keep, []);
    while next.Some?
      invariant next.Some? ==> start <= next.value <= |l| && all == Filter(l[start..next.value], keep)
      invariant next.None? ==> all == Filter(l[start..], keep)
      decreases if next.Some? then |l| - next.value + 1 else 0
    {
      var more, at := ListObjects(c, d, [], next, limits, keep);
      PageStep(l, start, at, limits, keep, all);
      all := all + more.page.objects;
      next := more.page.next;
    }
    assert l[0..] == l;
    if startAfter != [] && AllNamesOk(c, d) {
      TokenCounts(c, d, Elements(c, d, startAfter));
      ListingFromToken(c, d, Elements(c, d, startAfter), start);
    }
  }

  lemma StartIsInside(c: Config, d: nat, startAfter: Str)
    requires Validated(c) && Exists(c, d)
    ensures From(c, d, startAfter, None) <= |Listing(c, d)|
  {
    TokenBound(c, d, Elements(c, d, startAfter));
  }

  lemma PageStep(l: seq<Path>, start: nat, from: nat, limits: Limits, keep: Path -> bool, all: seq<Path>)
    requires start <= from <= |l| && all == Filter(l[start..from], keep) && limits.maxListPageSize > 0
    ensures var p := PageAt(l, from, limits, keep);
      && (p.next.Some? ==> from < p.next.value <= |l| && all + p.objects == Filter(l[start..p.next.value], keep))
      && (p.next.None? ==> all + p.objects == Filter(l[start..], keep))
  {
    hide Filter, PageSize;
    if from < |l| {
      SizeFacts(|l| - from, limits);
      var n := PageSize(|l| - from, limits);
      FilterAppend(l[start..from], l[from..from + n], keep);
      Adjoin(l, start, from, from + n);
    } else {
      assert l[start..from] == l[start..];
      assert all + [] == all;
    }
  }

  lemma SizeFacts(n: nat, limits: Limits)
    requires n > 0 && limits.maxListPageSize > 0
    ensures 0 < PageSize(n, limits) <= n
  {
  }

  lemma Adjoin(l: seq<Path>, start: nat, from: nat, end: nat)
    requires start <= from <= end <= |l|
    ensures l[start..from] + l[from..end] == l[start..end]
    ensures end == |l| ==> l[start..end] == l[start..]
  {
  }
}
