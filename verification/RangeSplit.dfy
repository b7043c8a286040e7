/**
 Listing one large flat directory in parallel: the key space is cut at split
 points, one worker lists each range, and the workers' outputs are concatenated.

 `keys` are the directory's full keys, in byte order, as the backend lists them.
 A page ends wherever the backend likes.
 */
module RangeSplit {
  import opened Bytes
  import opened Collections
  import Lex

  type Keys = seq<Str>

  /** `cut(from)` is where the page that starts at `from` ends. */
  type Cut = nat -> nat

  ghost predicate Progresses(cut: Cut, n: nat) {
    forall from :: 0 <= from < n ==> from < cut(from) <= n
  }

  predicate After(startAfter: Str, k: Str) {
    startAfter == [] || Less(startAfter, k)
  }

  /** Exclusive at both ends; an empty string is no bound. */
  predicate Inside(startAfter: Str, stopAt: Str, k: Str) {
    After(startAfter, k) && (stopAt == [] || Less(k, stopAt))
  }

  function Within(startAfter: Str, stopAt: Str): Str -> bool {
    k => Inside(startAfter, stopAt, k)
  }

  function Before(stopAt: Str): Str -> bool {
    k => stopAt == [] || Less(k, stopAt)
  }

  function Avoids(splits: seq<Str>): Str -> bool {
    k => k !in splits
  }

  // -------- Filters on sorted keys --------

  /** What a predicate selects from sorted keys, below a bound and then from it on. */
  lemma {:induction false} FilterSplit(keys: Keys, p: Str -> bool, low: Str -> bool, s: Str)
    requires Lex.Increasing(keys) && forall k :: k in keys ==> low(k) == Less(k, s)
    ensures Filter(keys, p) == Filter(keys, k => p(k) && low(k)) + Filter(keys, k => p(k) && !low(k))
  {
    if keys != [] {
      var init, last := keys[..|keys| - 1], keys[|keys| - 1];
      FilterSplit(init, p, low, s);
      if low(last) {
        forall k | k in init ensures low(k) {
          LessTrans(k, last, s);
        }
        FilterAll(init, k => p(k) && !low(k), false);
      }
    }
  }

  // -------- One worker --------

  /** Where the listing starts: the first key after `startAfter`. */
  method Seek(keys: Keys, startAfter: Str) returns (from: nat)
    requires Lex.Increasing(keys)
    ensures from <= |keys|
    ensures forall i :: 0 <= i < |keys| ==> (i < from <==> !After(startAfter, keys[i]))
  {
    hide Less;
    from := 0;
    while from < |keys| && !After(startAfter, keys[from])
      invariant from <= |keys| && forall i :: 0 <= i < from ==> !After(startAfter, keys[i])
    {
      from := from + 1;
    }
    if from < |keys| {
      forall i | from < i < |keys| ensures After(startAfter, keys[i]) {
        if startAfter != [] {
          LessTrans(startAfter, keys[from], keys[i]);
        }
      }
    }
  }

  datatype Output = Output(files: Keys, next: Option<nat>, stopped: bool)

  /** listPrefixWrapper: one page of listObjects, cut off at `stopAt`. */
  method ListPrefix(keys: Keys, startAfter: Str, stopAt: Str, token: Option<nat>, cut: Cut) returns (out: Output, from: nat, end: nat)
    requires Lex.Increasing(keys) && Progresses(cut, |keys|) && (token.Some? ==> token.value <= |keys|)
    ensures from <= end <= |keys| && out.files == Filter(keys[from..end], Before(stopAt))
    ensures token.Some? ==> from == token.value
    ensures token.None? ==> forall i :: 0 <= i < |keys| ==> (i < from <==> !After(startAfter, keys[i]))
    ensures out.next == if end < |keys| then Some(end) else None
    ensures out.next.Some? ==> from < end
    ensures out.stopped ==> stopAt != [] && forall i :: end <= i < |keys| ==> !Less(keys[i], stopAt)
  {
    hide Less;
    if token.Some? {
      from := token.value;
    } else {
      from := Seek(keys, startAfter);
    }
    end := if from < |keys| then cut(from) else from;
    var page := keys[from..end];
    var files, stopped := TakeUntil(page, stopAt);
    if stopped {
      StopsForGood(keys, page, from, end, stopAt);
    }
    out := Output(files, if end < |keys| then Some(end) else None, stopped);
  }

  lemma StopsForGood(keys: Keys, page: Keys, from: nat, end: nat, stopAt: Str)
    requires Lex.Increasing(keys) && from <= end <= |keys| && page == keys[from..end] && stopAt != []
    requires exists i :: 0 <= i < |page| && !Less(page[i], stopAt)
    ensures forall i :: end <= i < |keys| ==> !Less(keys[i], stopAt)
  {
    hide Less;
    var i :| 0 <= i < |page| && !Less(page[i], stopAt);
    assert page[i] == keys[from + i];
    forall j | end <= j < |keys| ensures !Less(keys[j], stopAt) {
      if Less(keys[j], stopAt) {
        LessTrans(keys[from + i], keys[j], stopAt);
      }
    }
  }

  /** Its loop over a page's objects, which breaks at the first that reaches `stopAt`. */
  method TakeUntil(page: Keys, stopAt: Str) returns (files: Keys, stopped: bool)
    requires Lex.Increasing(page)
    ensures files == Filter(page, Before(stopAt))
    ensures stopped <==> stopAt != [] && exists i :: 0 <= i < |page| && !Less(page[i], stopAt)
  {
    hide Less;
    ghost var p := Before(stopAt);
    files, stopped := [], false;
    var i := 0;
    while i < |page|
      invariant 0 <= i <= |page| && files == Filter(page[..i], p) && !stopped
      invariant forall j :: 0 <= j < i ==> p(page[j])
    {
      if stopAt != [] && !Less(page[i], stopAt) {
        stopped := true;
        RestIsOut(page, i, stopAt);
        return;
      }
      assert page[..i + 1][..i] == page[..i];
      files := files + [page[i]];
      i := i + 1;
    }
    assert page[..i] == page;
  }

  lemma RestIsOut(page: Keys, i: nat, stopAt: Str)
    requires Lex.Increasing(page) && i < |page| && stopAt != [] && !Less(page[i], stopAt)
    ensures Filter(page, Before(stopAt)) == Filter(page[..i], Before(stopAt))
  {
    hide Less;
    var rest := page[i..];
    forall j | 0 <= j < |rest| ensures !Less(rest[j], stopAt) {
      assert rest[j] == page[i + j];
      if j > 0 && Less(rest[j], stopAt) {
        LessTrans(page[i], page[i + j], stopAt);
      }
    }
    FilterAll(rest, Before(stopAt), false);
    FilterAppend(page[..i], rest, Before(stopAt));
    assert page[..i] + rest == page;
  }

  /** listPrefixRange: whatever the pages, every key strictly between the two bounds, once, in order. */
  method ListRange(keys: Keys, startAfter: Str, stopAt: Str, cut: Cut) returns (out: Keys)
    requires Lex.Increasing(keys) && Progresses(cut, |keys|)
    ensures out == Filter(keys, Within(startAfter, stopAt))
  {
    hide Less;
    ghost var p := Before(stopAt);
    var page, start, end := ListPrefix(keys, startAfter, stopAt, None, cut);
    out := page.files;
    while !page.stopped && page.next.Some?
      invariant start <= end <= |keys| && out == Filter(keys[start..end], p)
      invariant page.next == if end < |keys| then Some(end) else None
      invariant page.stopped ==> stopAt != [] && forall i :: end <= i < |keys| ==> !Less(keys[i], stopAt)
      decreases |keys| - end
    {
      var from, before := 0, end;
      page, from, end := ListPrefix(keys, [], stopAt, page.next, cut);
      FilterAppend(keys[start..before], keys[before..end], p);
      assert keys[start..before] + keys[before..end] == keys[start..end];
      out := out + page.files;
    }
    RangeIsFilter(keys, startAfter, stopAt, start, end);
  }

  lemma RangeIsFilter(keys: Keys, startAfter: Str, stopAt: Str, start: nat, end: nat)
    requires start <= end <= |keys|
    requires forall i :: 0 <= i < |keys| ==> (i < start <==> !After(startAfter, keys[i]))
    requires end == |keys| || (stopAt != [] && forall i :: end <= i < |keys| ==> !Less(keys[i], stopAt))
    ensures Filter(keys[start..end], Before(stopAt)) == Filter(keys, Within(startAfter, stopAt))
  {
    hide Less, Filter;
    var q := Within(startAfter, stopAt);
    FilterAll(keys[..start], q, false);
    FilterAll(keys[end..], q, false);
    FilterSame(keys[start..end], Before(stopAt), q);
    FilterAppend(keys[..start], keys[start..end], q);
    FilterAppend(keys[..end], keys[end..], q);
    assert keys[..start] + keys[start..end] == keys[..end] && keys[..end] + keys[end..] == keys;
  }

  // -------- All workers --------

  function Bound(splits: seq<Str>, i: nat): Str {
    if 0 < i <= |splits| then splits[i - 1] else []
  }

  /** The keys after the i-th bound that are no split point. */
  predicate Covered(splits: seq<Str>, i: nat, k: Str) {
    After(Bound(splits, i), k) && k !in splits
  }

  function Cover(splits: seq<Str>, i: nat): Str -> bool {
    k => Covered(splits, i, k)
  }

  /** One worker's range, and all the ranges after it, make up everything but the split point between them. */
  lemma WorkerCovers(keys: Keys, splits: seq<Str>, i: nat)
    requires Lex.Increasing(keys) && Lex.Increasing(splits) && i < |splits| && [] !in splits
    ensures Filter(keys, Cover(splits, i))
      == Filter(keys, Within(Bound(splits, i), splits[i])) + Filter(keys, Cover(splits, i + 1))
  {
    hide Less;
    var p, low := Cover(splits, i), k => Less(k, splits[i]);
    FilterSplit(keys, p, low, splits[i]);
    forall k | k in keys
      ensures (p(k) && low(k)) == Inside(Bound(splits, i), splits[i], k) && (p(k) && !low(k)) == Covered(splits, i + 1, k)
    {
      BetweenSplits(splits, i, k);
    }
    FilterSame(keys, k => p(k) && low(k), Within(Bound(splits, i), splits[i]));
    FilterSame(keys, k => p(k) && !low(k), Cover(splits, i + 1));
  }

  lemma BetweenSplits(splits: seq<Str>, i: nat, k: Str)
    requires Lex.Increasing(splits) && i < |splits| && [] !in splits
    ensures Covered(splits, i, k) && Less(k, splits[i]) <==> Inside(Bound(splits, i), splits[i], k)
    ensures Covered(splits, i, k) && !Less(k, splits[i]) <==> Covered(splits, i + 1, k)
  {
    hide Less;
    Trichotomy(k, splits[i]);
    assert splits[i] in splits;
    if Inside(Bound(splits, i), splits[i], k) {
      forall j | 0 <= j < |splits| ensures splits[j] != k {
        if j < i && j < i - 1 {
          LessTrans(splits[j], splits[i - 1], k);
        } else if j > i {
          LessTrans(k, splits[i], splits[j]);
        }
        LessIsStrict(k);
      }
    }
    if Covered(splits, i + 1, k) && i > 0 {
      LessTrans(splits[i - 1], splits[i], k);
    }
  }

  /** The workers of listFlatWithRangeSplitting, and mergeTempFiles. */
  method ListSplit(keys: Keys, splits: seq<Str>, cut: Cut) returns (merged: Keys)
    requires Lex.Increasing(keys) && Progresses(cut, |keys|) && Lex.Increasing(splits) && [] !in splits
    ensures merged == Filter(keys, Avoids(splits))
  {
    hide Less;
    var parts := new Keys[|splits| + 1];
    var i := 0;
    while i <= |splits|
      invariant 0 <= i <= |splits| + 1
      invariant forall j :: 0 <= j < i ==> parts[j] == Filter(keys, Within(Bound(splits, j), Bound(splits, j + 1)))
    {
      var startAfter := if i == 0 then [] else splits[i - 1];
      var stopAt := if i < |splits| then splits[i] else [];
      parts[i] := ListRange(keys, startAfter, stopAt, cut);
      i := i + 1;
    }
    merged := Merge(keys, splits, parts[..]);
  }

  method Merge(keys: Keys, splits: seq<Str>, parts: seq<Keys>) returns (merged: Keys)
    requires Lex.Increasing(keys) && Lex.Increasing(splits) && [] !in splits && |parts| == |splits| + 1
    requires forall j :: 0 <= j < |parts| ==> parts[j] == Filter(keys, Within(Bound(splits, j), Bound(splits, j + 1)))
    ensures merged == Filter(keys, Avoids(splits))
  {
    hide Less;
    merged := [];
    var i := 0;
    FilterSame(keys, Cover(splits, 0), Avoids(splits));
    while i < |splits|
      invariant 0 <= i <= |splits|
      invariant merged + Filter(keys, Cover(splits, i)) == Filter(keys, Avoids(splits))
    {
      WorkerCovers(keys, splits, i);
      assert Bound(splits, i + 1) == splits[i];
      merged := merged + parts[i];
      i := i + 1;
    }
    LastCovers(keys, splits);
    merged := merged + parts[i];
  }

  lemma LastCovers(keys: Keys, splits: seq<Str>)
    requires Lex.Increasing(splits) && [] !in splits
    ensures Filter(keys, Within(Bound(splits, |splits|), Bound(splits, |splits| + 1))) == Filter(keys, Cover(splits, |splits|))
  {
    hide Less;
    var n := |splits|;
    forall k | k in keys ensures Inside(Bound(splits, n), Bound(splits, n + 1), k) == Covered(splits, n, k) {
      if n > 0 && Less(splits[n - 1], k) {
        forall j | 0 <= j < n ensures splits[j] != k {
          if j < n - 1 {
            LessTrans(splits[j], splits[n - 1], k);
          }
          LessIsStrict(k);
        }
      }
    }
    FilterSame(keys, Within(Bound(splits, n), Bound(splits, n + 1)), Cover(splits, n));
  }

  /** Nothing is lost exactly if no key is a split point. */
  lemma CompleteIff(keys: Keys, splits: seq<Str>)
    ensures Filter(keys, Avoids(splits)) == keys <==> forall k :: k in keys ==> k !in splits
  {
    var p := Avoids(splits);
    if forall k :: k in keys ==> k !in splits {
      FilterAll(keys, p, true);
    } else {
      var k :| k in keys && k in splits;
      FilterElements(keys, p, k);
    }
  }

  /** listFlatWithRangeSplitting, from its first and last key and its number of workers on. */
  method ListFlat(keys: Keys, first: Str, last: Str, n: nat, cut: Cut) returns (merged: Keys, splits: seq<Str>)
    requires Lex.Increasing(keys) && Progresses(cut, |keys|) && first != [] && 2 <= n <= Lex.SPARE
    ensures merged == Filter(keys, Avoids(splits))
    ensures Lex.SplitsOf(first, last, n, splits)
  {
    hide Less;
    splits := Lex.Interpolate(first, last, n);
    if Lex.Encode(first, last, first) < Lex.Encode(first, last, last) {
      Lex.SplitsIncrease(first, last, n, splits);
    }
    merged := ListSplit(keys, splits, cut);
  }

  /**
   Whatever their bytes, the first key is lost exactly if the two keys leave no room for a split point;
   between printable keys, exactly if the first is not smaller than the last by more than trailing spaces.
   */
  lemma FirstKeyIsLostIff(keys: Keys, first: Str, last: Str, n: nat, splits: seq<Str>)
    requires first in keys && 2 <= n <= Lex.SPARE && Lex.SplitsOf(first, last, n, splits)
    ensures first !in Filter(keys, Avoids(splits)) <==> Lex.Encode(first, last, first) >= Lex.Encode(first, last, last)
    ensures Lex.Printable(first) && Lex.Printable(last) ==>
      (first !in Filter(keys, Avoids(splits)) <==> !Less(first, last) || Lex.PaddedTo(first, last))
  {
    hide Less, Lex.Encode, Lex.Printable, Lex.PaddedTo;
    FilterElements(keys, Avoids(splits), first);
    if Lex.Encode(first, last, first) < Lex.Encode(first, last, last) {
      Lex.SplitsAreBetween(first, last, n, splits);
    }
    if Lex.Printable(first) && Lex.Printable(last) {
      Lex.RoomIff(first, last);
    }
  }

  /** When the last key is estimated to be the first, whatever its bytes, that key is the only split point, and is lost. */
  lemma FirstKeyIsLost(keys: Keys, first: Str, n: nat, splits: seq<Str>)
    requires first in keys && 2 <= n <= Lex.SPARE && Lex.SplitsOf(first, first, n, splits)
    ensures splits == [first] && first !in Filter(keys, Avoids(splits)) && Filter(keys, Avoids(splits)) != keys
  {
    FilterElements(keys, Avoids([first]), first);
  }
}
