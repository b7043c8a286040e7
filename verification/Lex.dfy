/**
 Split points between two keys, by base-95 arithmetic on printable ASCII.
 */
module Lex {
  import opened Arithmetic
  import opened Bytes

  const BASE: nat := 95
  const MIN_BYTE: byte := 0x20

  /** How many split points can be told apart with two digits to spare. */
  const SPARE: nat := 9025

  type Digit = x: int | 0 <= x < 95

  // -------- Numbers and digits --------

  function Value(x: seq<Digit>): nat {
    if x == [] then 0 else Value(x[..|x| - 1]) * BASE + x[|x| - 1]
  }

  function Digits(n: nat, length: nat): (x: seq<Digit>)
    ensures |x| == length
  {
    if length == 0 then [] else Digits(n / BASE, length - 1) + [n % BASE]
  }

  function Power(length: nat): nat {
    if length == 0 then 1 else Power(length - 1) * BASE
  }

  lemma {:induction false} ValueBound(x: seq<Digit>)
    ensures Value(x) < Power(|x|)
  {
    if x != [] {
      ValueBound(x[..|x| - 1]);
    }
  }

  lemma {:induction false} DigitsHaveValue(n: nat, length: nat)
    requires n < Power(length)
    ensures Value(Digits(n, length)) == n
  {
    if length > 0 {
      DigitsHaveValue(n / BASE, length - 1);
      var x := Digits(n, length);
      assert x[..length - 1] == Digits(n / BASE, length - 1);
    }
  }

  /** Of two numbers with as many digits, the smaller has the smaller digit where they first differ. */
  lemma {:induction false} FirstDifference(x: seq<Digit>, y: seq<Digit>) returns (p: nat)
    requires |x| == |y| && Value(x) < Value(y)
    ensures p < |x| && x[..p] == y[..p] && x[p] < y[p]
  {
    var xs, ys := x[..|x| - 1], y[..|y| - 1];
    if Value(xs) < Value(ys) {
      p := FirstDifference(xs, ys);
      assert x[..p] == xs[..p] && y[..p] == ys[..p];
    } else {
      SameDigits(xs, ys);
      p := |x| - 1;
    }
  }

  lemma {:induction false} SameDigits(x: seq<Digit>, y: seq<Digit>)
    requires |x| == |y| && Value(x) == Value(y)
    ensures x == y
  {
    if x != [] {
      SameDigits(x[..|x| - 1], y[..|y| - 1]);
      assert x == x[..|x| - 1] + [x[|x| - 1]] && y == y[..|y| - 1] + [y[|y| - 1]];
    }
  }

  // -------- Strings and digits --------

  function Clip(ch: byte): Digit {
    if ch < MIN_BYTE then 0 else if ch - MIN_BYTE >= BASE then BASE - 1 else ch - MIN_BYTE
  }

  /** The digits of a string, with zeros after it. */
  function Pad(s: Str, length: nat): seq<Digit> {
    seq(length, i requires 0 <= i < length => if i < |s| then Clip(s[i]) else 0)
  }

  /** `s` spells the digits `x`, up to trailing zeros. */
  predicate Spells(s: Str, x: seq<Digit>) {
    && |s| <= |x| && (forall i :: 0 <= i < |s| ==> s[i] == x[i] + MIN_BYTE)
    && (forall i :: |s| <= i < |x| ==> x[i] == 0)
  }

  predicate Printable(s: Str) {
    forall i :: 0 <= i < |s| ==> 0x20 <= s[i] <= 0x7E
  }

  lemma {:induction false} LessAt(s: Str, t: Str, q: nat)
    requires q <= |s| && q < |t| && s[..q] == t[..q] && (q == |s| || s[q] < t[q])
    ensures Less(s, t)
    decreases q
  {
    if q > 0 {
      assert s[..q][0] == t[..q][0];
      assert s[1..][..q - 1] == s[..q][1..] && t[1..][..q - 1] == t[..q][1..];
      LessAt(s[1..], t[1..], q - 1);
    }
  }

  /** Byte order is numeric order, whatever trailing spaces were kept or trimmed. */
  lemma OrderIsNumeric(s: Str, x: seq<Digit>, t: Str, y: seq<Digit>)
    requires Spells(s, x) && Spells(t, y) && |x| == |y| && Value(x) < Value(y)
    ensures Less(s, t)
  {
    var p := FirstDifference(x, y);
    var q := if p < |s| then p else |s|;
    assert forall i :: 0 <= i < q ==> x[..p][i] == y[..p][i];
    assert s[..q] == t[..q];
    LessAt(s, t, q);
  }

  /** stringToBase95Int. */
  method StringToInt(s: Str, padLen: nat) returns (result: nat)
    ensures result == Value(Pad(s, padLen))
  {
    result := 0;
    var i := 0;
    while i < padLen
      invariant 0 <= i <= padLen && result == Value(Pad(s, padLen)[..i])
    {
      var x := Pad(s, padLen);
      assert x[..i + 1][..i] == x[..i];
      result := result * BASE;
      if i < |s| {
        var ch := s[i] - MIN_BYTE;
        if ch < 0 {
          ch := 0;
        } else if ch >= BASE {
          ch := BASE - 1;
        }
        result := result + ch;
      }
      i := i + 1;
    }
    assert Pad(s, padLen)[..padLen] == Pad(s, padLen);
  }

  lemma DigitsStep(n: nat, length: nat)
    ensures Digits(n, length + 1)[length] == n % BASE && Digits(n, length + 1)[..length] == Digits(n / BASE, length)
  {
  }

  /** base95IntToString. */
  method IntToString(n: nat, length: nat) returns (s: Str)
    requires length > 0
    ensures Spells(s, Digits(n, length)) && s != []
  {
    hide Digits;
    var digits := FillDigits(n, length);
    var end := length;
    while end > 0 && digits[end - 1] == MIN_BYTE
      invariant 0 <= end <= length && forall k :: end <= k < length ==> digits[k] == MIN_BYTE
    {
      end := end - 1;
    }
    if end == 0 {
      return [MIN_BYTE];
    }
    s := digits[..end];
  }

  /** Its loop over the digits, from the last. */
  method FillDigits(n: nat, length: nat) returns (digits: array<byte>)
    ensures digits.Length == length && forall k :: 0 <= k < length ==> digits[k] == Digits(n, length)[k] + MIN_BYTE
  {
    hide Digits;
    digits := new byte[length];
    ghost var x := Digits(n, length);
    var val: nat, i: nat := n, length;
    while i > 0
      invariant 0 <= i <= length && x[..i] == Digits(val, i)
      invariant forall k :: i <= k < length ==> digits[k] == x[k] + MIN_BYTE
    {
      i := i - 1;
      DigitsStep(val, i);
      assert x[..i + 1][..i] == x[..i] && x[..i + 1][i] == x[i];
      digits[i] := val % BASE + MIN_BYTE;
      val := val / BASE;
    }
  }

  // -------- Interpolation --------

  function PadLength(a: Str, b: Str): nat {
    (if |b| > |a| then |b| else |a|) + 2
  }

  function Encode(a: Str, b: Str, s: Str): nat {
    Value(Pad(s, PadLength(a, b)))
  }

  /** The i-th of n points between the two keys. */
  function Point(a: Str, b: Str, n: nat, i: nat): nat
    requires n > 0 && Encode(a, b, a) <= Encode(a, b, b)
  {
    Encode(a, b, a) + (Encode(a, b, b) - Encode(a, b, a)) * i / n
  }

  lemma PadOne(s: Str, length: nat)
    requires length >= |s|
    ensures Value(Pad(s, length + 1)) == Value(Pad(s, length)) * BASE
  {
    assert Pad(s, length + 1)[..length] == Pad(s, length);
  }

  /** The two spare digits make different keys differ by at least 95 squared. */
  lemma Gap(a: Str, b: Str)
    requires Encode(a, b, a) < Encode(a, b, b)
    ensures Encode(a, b, b) - Encode(a, b, a) >= SPARE
  {
    hide Value, Pad;
    var l := PadLength(a, b) - 2;
    PadOne(a, l);
    PadOne(a, l + 1);
    PadOne(b, l);
    PadOne(b, l + 1);
  }

  lemma DivStep(x: nat, y: nat, n: nat)
    requires n > 0 && y >= x + n
    ensures y / n >= x / n + 1
  {
    Product(x / n, x / n + 1, n);
    QuotientAtLeast(y, n, x / n + 1);
  }

  lemma Steps(diff: nat, n: nat, i: nat)
    requires 0 < n <= diff
    ensures diff * i / n < diff * (i + 1) / n
  {
    assert diff * (i + 1) == diff * i + diff;
    DivStep(diff * i, diff * (i + 1), n);
  }

  lemma {:induction false} StepsFar(diff: nat, n: nat, i: nat, j: nat)
    requires 0 < n <= diff && i < j
    ensures diff * i / n < diff * j / n
    decreases j - i
  {
    Steps(diff, n, j - 1);
    if i < j - 1 {
      StepsFar(diff, n, i, j - 1);
    }
  }

  /** The points increase strictly, from the one key to the other. */
  lemma PointsIncrease(a: Str, b: Str, n: nat, i: nat, j: nat)
    requires Encode(a, b, a) < Encode(a, b, b) && 0 < n <= SPARE && i < j <= n
    ensures Point(a, b, n, i) < Point(a, b, n, j) <= Encode(a, b, b)
  {
    hide Encode;
    Gap(a, b);
    var diff := Encode(a, b, b) - Encode(a, b, a);
    StepsFar(diff, n, i, j);
    Quotient(diff * n, n, diff, 0);
    if j < n {
      StepsFar(diff, n, j, n);
    }
  }

  ghost predicate Increasing(s: seq<Str>) {
    forall i, j :: 0 <= i < j < |s| ==> Less(s[i], s[j])
  }

  /** The splits spell the points. */
  ghost predicate Interpolates(a: Str, b: Str, n: nat, splits: seq<Str>)
    requires n > 0 && Encode(a, b, a) <= Encode(a, b, b)
  {
    forall i :: 0 <= i < |splits| ==> splits[i] != [] && Spells(splits[i], Digits(Point(a, b, n, i + 1), PadLength(a, b)))
  }

  /** What lexInterpolate returns: the points between the keys, or the first key alone if there is no room. */
  ghost predicate SplitsOf(a: Str, b: Str, n: int, splits: seq<Str>) {
    && (n <= 1 || Encode(a, b, a) >= Encode(a, b, b) ==> splits == [a])
    && (n > 1 && Encode(a, b, a) < Encode(a, b, b) ==> |splits| == n - 1 && Interpolates(a, b, n, splits))
  }

  // -------- Even spacing --------

  /** The number that the i-th of n+1 marks stands for: the first key, the split points, the last key. */
  function Mark(a: Str, b: Str, splits: seq<Str>, i: nat): nat
    requires i <= |splits| + 1
  {
    Encode(a, b, if i == 0 then a else if i <= |splits| then splits[i - 1] else b)
  }

  /** Each split point is the largest number that is not past its share of the way. */
  ghost predicate EvenlySpaced(a: Str, b: Str, n: nat, splits: seq<Str>)
    requires |splits| == n - 1
  {
    forall i :: 0 <= i <= n ==>
      var way, total := Mark(a, b, splits, i) - Mark(a, b, splits, 0), Mark(a, b, splits, n) - Mark(a, b, splits, 0);
      n * way <= i * total < n * way + n
  }

  lemma Share(diff: nat, i: nat, n: nat)
    requires n > 0
    ensures n * (diff * i / n) <= i * diff < n * (diff * i / n) + n
    ensures i <= n ==> diff * i / n <= diff
  {
    assert diff * i == i * diff;
    if i <= n && diff * i / n > diff {
      Product(diff, diff * i / n, n);
      Monotone(i, n, diff);
    }
  }

  /** A split spells its point, so that point is its number. */
  lemma SplitIsPoint(a: Str, b: Str, n: nat, splits: seq<Str>, i: nat)
    requires n > 1 && Encode(a, b, a) < Encode(a, b, b) && |splits| == n - 1 && Interpolates(a, b, n, splits) && 0 < i < n
    ensures Mark(a, b, splits, i) == Point(a, b, n, i)
  {
    hide Spells, Pad, Digits;
    var l, point := PadLength(a, b), Point(a, b, n, i);
    Share(Encode(a, b, b) - Encode(a, b, a), i, n);
    ValueBound(Pad(b, l));
    PadLengthIs(b, l);
    DigitsHaveValue(point, l);
    assert Spells(splits[i - 1], Digits(Point(a, b, n, i - 1 + 1), l));
    SpellsItsDigits(splits[i - 1], Digits(point, l));
  }

  lemma SplitsAreEven(a: Str, b: Str, n: nat, splits: seq<Str>)
    requires n > 1 && Encode(a, b, a) < Encode(a, b, b) && |splits| == n - 1 && Interpolates(a, b, n, splits)
    ensures EvenlySpaced(a, b, n, splits)
  {
    hide Encode, Interpolates;
    var total := Encode(a, b, b) - Encode(a, b, a);
    forall i | 0 <= i <= n
      ensures var way := Mark(a, b, splits, i) - Mark(a, b, splits, 0); n * way <= i * total < n * way + n
    {
      if 0 < i < n {
        SplitIsPoint(a, b, n, splits, i);
        Share(total, i, n);
      }
    }
  }

  /** The distances between one mark and the next differ by at most one. */
  lemma GapsAreEven(a: Str, b: Str, n: nat, splits: seq<Str>, i: nat, j: nat)
    requires n > 0 && |splits| == n - 1 && EvenlySpaced(a, b, n, splits) && i < n && j < n
    ensures Mark(a, b, splits, i + 1) - Mark(a, b, splits, i) <= Mark(a, b, splits, j + 1) - Mark(a, b, splits, j) + 1
  {
    hide Mark, EvenlySpaced;
    var v, total := Mark(a, b, splits, 0), Mark(a, b, splits, n) - Mark(a, b, splits, 0);
    EvenAt(a, b, n, splits, i);
    EvenAt(a, b, n, splits, i + 1);
    EvenAt(a, b, n, splits, j);
    EvenAt(a, b, n, splits, j + 1);
    var g, h := Mark(a, b, splits, i + 1) - Mark(a, b, splits, i), Mark(a, b, splits, j + 1) - Mark(a, b, splits, j);
    assert total - n < n * g < total + n by {
      OneGap(n, i, Mark(a, b, splits, i) - v, Mark(a, b, splits, i + 1) - v, g, total);
    }
    assert total - n < n * h < total + n by {
      OneGap(n, j, Mark(a, b, splits, j) - v, Mark(a, b, splits, j + 1) - v, h, total);
    }
    TwoGaps(n, g, h, total);
  }

  lemma EvenAt(a: Str, b: Str, n: nat, splits: seq<Str>, i: nat)
    requires |splits| == n - 1 && EvenlySpaced(a, b, n, splits) && i <= n
    ensures var way, total := Mark(a, b, splits, i) - Mark(a, b, splits, 0), Mark(a, b, splits, n) - Mark(a, b, splits, 0);
      n * way <= i * total < n * way + n
  {
    hide Mark;
  }

  lemma TwoGaps(n: nat, g: int, h: int, total: int)
    requires n > 0 && total - n < n * g < total + n && total - n < n * h < total + n
    ensures g <= h + 1
  {
    Distributes(n, g, h);
    if g - h >= 2 {
      Monotone(2, g - h, n);
    }
  }

  lemma Distributes(n: nat, g: int, h: int)
    ensures (g - h) * n == n * g - n * h
  {
  }

  lemma OneGap(n: nat, i: nat, x: int, y: int, g: int, total: int)
    requires n * x <= i * total < n * x + n && n * y <= (i + 1) * total < n * y + n && g == y - x
    ensures total - n < n * g < total + n
  {
    assert (i + 1) * total == i * total + total;
    assert n * (y - x) == n * y - n * x;
  }

  /** A byte that is not printable counts as the printable byte nearest to it. */
  lemma ClipIsNearest(ch: byte, other: byte)
    requires 0x20 <= other <= 0x7E
    ensures var near := Clip(ch) + MIN_BYTE; 0x20 <= near <= 0x7E && (if near < ch then ch - near else near - ch) <= if other < ch then ch - other else other - ch
  {
  }

  /** lexInterpolate. */
  method Interpolate(a: Str, b: Str, n: int) returns (splits: seq<Str>)
    ensures SplitsOf(a, b, n, splits)
    ensures n > 1 && Encode(a, b, a) < Encode(a, b, b) ==> |splits| == n - 1 && EvenlySpaced(a, b, n, splits)
  {
    hide Spells, Digits, Value, Pad, EvenlySpaced;
    if n <= 1 {
      return [a];
    }
    var maxLen := |a|;
    if |b| > maxLen {
      maxLen := |b|;
    }
    maxLen := maxLen + 2;
    var aBig := StringToInt(a, maxLen);
    var bBig := StringToInt(b, maxLen);
    var diff := bBig - aBig;
    if diff <= 0 {
      return [a];
    }
    splits := [];
    var i := 1;
    while i < n
      invariant 1 <= i <= n && |splits| == i - 1 && Interpolates(a, b, n, splits)
    {
      var offset := diff * i;
      offset := offset / n;
      var point := aBig + offset;
      assert point == Point(a, b, n, i);
      var split := IntToString(point, maxLen);
      splits := splits + [split];
      i := i + 1;
    }
    SplitsAreEven(a, b, n, splits);
  }

  lemma SplitSpellsPoint(a: Str, b: Str, n: nat, splits: seq<Str>, i: nat) returns (x: seq<Digit>)
    requires Encode(a, b, a) < Encode(a, b, b) && 1 < n <= SPARE && |splits| == n - 1 && Interpolates(a, b, n, splits) && i < n - 1
    ensures |x| == PadLength(a, b) && Spells(splits[i], x) && Value(x) == Point(a, b, n, i + 1)
  {
    hide Spells, Pad;
    x := Digits(Point(a, b, n, i + 1), PadLength(a, b));
    PointsIncrease(a, b, n, i, i + 1);
    ValueBound(Pad(b, PadLength(a, b)));
    PadLengthIs(b, PadLength(a, b));
    DigitsHaveValue(Point(a, b, n, i + 1), PadLength(a, b));
  }

  lemma PadLengthIs(s: Str, length: nat)
    ensures |Pad(s, length)| == length
  {
  }

  /** Different split points, in byte order: for any two keys, printable or not. */
  lemma SplitsIncrease(a: Str, b: Str, n: nat, splits: seq<Str>)
    requires Encode(a, b, a) < Encode(a, b, b) && 1 < n <= SPARE && |splits| == n - 1 && Interpolates(a, b, n, splits)
    ensures Increasing(splits)
  {
    hide Spells, Interpolates, Point, Value, Encode, Less;
    forall i, j | 0 <= i < j < |splits| ensures Less(splits[i], splits[j]) {
      var x := SplitSpellsPoint(a, b, n, splits, i);
      var y := SplitSpellsPoint(a, b, n, splits, j);
      PointsIncrease(a, b, n, i + 1, j + 1);
      OrderIsNumeric(splits[i], x, splits[j], y);
    }
  }

  lemma PrintableSpells(s: Str, length: nat)
    requires Printable(s) && |s| <= length
    ensures Spells(s, Pad(s, length))
  {
  }

  lemma SpellsItsDigits(s: Str, x: seq<Digit>)
    requires Spells(s, x)
    ensures x == Pad(s, |x|)
  {
  }

  lemma SpelledIsPrintable(s: Str, x: seq<Digit>)
    requires Spells(s, x)
    ensures Printable(s)
  {
  }

  /**
   For any two keys with room between them, split points are printable and differ from both;
   a printable key is strictly on its side of every one of them.
   */
  lemma SplitsAreBetween(a: Str, b: Str, n: nat, splits: seq<Str>)
    requires Encode(a, b, a) < Encode(a, b, b) && 1 < n <= SPARE && |splits| == n - 1 && Interpolates(a, b, n, splits)
    ensures a !in splits && b !in splits
    ensures forall i :: 0 <= i < |splits| ==> Printable(splits[i])
    ensures Printable(a) ==> forall i :: 0 <= i < |splits| ==> Less(a, splits[i])
    ensures Printable(b) ==> forall i :: 0 <= i < |splits| ==> Less(splits[i], b)
  {
    hide Spells, Interpolates, Printable, Less;
    forall i | 0 <= i < |splits|
      ensures splits[i] != a && splits[i] != b && Printable(splits[i])
      ensures (Printable(a) ==> Less(a, splits[i])) && (Printable(b) ==> Less(splits[i], b))
    {
      SplitIsBetween(a, b, n, splits, i);
    }
  }

  lemma SplitIsBetween(a: Str, b: Str, n: nat, splits: seq<Str>, i: nat)
    requires Encode(a, b, a) < Encode(a, b, b) && 1 < n <= SPARE && |splits| == n - 1 && Interpolates(a, b, n, splits) && i < n - 1
    ensures splits[i] != a && splits[i] != b && Printable(splits[i])
    ensures (Printable(a) ==> Less(a, splits[i])) && (Printable(b) ==> Less(splits[i], b))
  {
    hide Spells, Interpolates, Printable, Point, Value, Less, Pad;
    var l := PadLength(a, b);
    PadLengthIs(a, l);
    PadLengthIs(b, l);
    var x := SplitSpellsPoint(a, b, n, splits, i);
    PointsIncrease(a, b, n, 0, i + 1);
    PointsIncrease(a, b, n, i + 1, n);
    Ends(a, b, n);
    SpellsItsDigits(splits[i], x);
    SpelledIsPrintable(splits[i], x);
    if Printable(a) {
      PrintableSpells(a, l);
      OrderIsNumeric(a, Pad(a, l), splits[i], x);
    }
    if Printable(b) {
      PrintableSpells(b, l);
      OrderIsNumeric(splits[i], x, b, Pad(b, l));
    }
  }

  /** `b` is `a` with nothing but spaces after it. */
  predicate PaddedTo(a: Str, b: Str) {
    |a| <= |b| && a == b[..|a|] && forall i :: |a| <= i < |b| ==> b[i] == MIN_BYTE
  }

  lemma SamePads(a: Str, b: Str, length: nat)
    requires Printable(a) && Printable(b) && |a| <= length && |b| <= length
    ensures Pad(a, length) == Pad(b, length) <==> PaddedTo(a, b) || PaddedTo(b, a)
  {
    var x, y := Pad(a, length), Pad(b, length);
    if x == y {
      forall i | 0 <= i < length ensures (i < |a| && i < |b| ==> a[i] == b[i]) && (i >= |a| && i < |b| ==> b[i] == MIN_BYTE) && (i < |a| && i >= |b| ==> a[i] == MIN_BYTE) {
        assert x[i] == y[i];
      }
    }
    if PaddedTo(a, b) {
      PadsAgree(a, b, length);
    }
    if PaddedTo(b, a) {
      PadsAgree(b, a, length);
    }
  }

  lemma PadsAgree(a: Str, b: Str, length: nat)
    requires PaddedTo(a, b) && |b| <= length
    ensures Pad(a, length) == Pad(b, length)
  {
    forall i | 0 <= i < length ensures Pad(a, length)[i] == Pad(b, length)[i] {
      assert i < |a| ==> a[i] == b[..|a|][i];
    }
  }

  lemma NotBeforePrefix(a: Str, b: Str)
    requires |a| <= |b| && a == b[..|a|]
    ensures !Less(b, a)
  {
    if |a| < |b| {
      LessAt(a, b, |a|);
    } else {
      assert a == b;
    }
    Trichotomy(a, b);
  }

  /** There is room to interpolate between two printable keys exactly if the first is smaller by more than trailing spaces. */
  lemma RoomIff(a: Str, b: Str)
    requires Printable(a) && Printable(b)
    ensures Encode(a, b, a) < Encode(a, b, b) <==> Less(a, b) && !PaddedTo(a, b)
  {
    hide Value, Pad, Less, Spells, PaddedTo, Printable;
    var l := PadLength(a, b);
    PrintableSpells(a, l);
    PrintableSpells(b, l);
    PadLengthIs(a, l);
    PadLengthIs(b, l);
    SamePads(a, b, l);
    Trichotomy(a, b);
    if Encode(a, b, a) < Encode(a, b, b) {
      OrderIsNumeric(a, Pad(a, l), b, Pad(b, l));
    } else if Encode(a, b, a) > Encode(a, b, b) {
      OrderIsNumeric(b, Pad(b, l), a, Pad(a, l));
    } else {
      SameDigits(Pad(a, l), Pad(b, l));
      PrefixFacts(b, a);
    }
  }

  lemma PrefixFacts(a: Str, b: Str)
    ensures PaddedTo(a, b) ==> !Less(b, a)
  {
    if PaddedTo(a, b) {
      NotBeforePrefix(a, b);
    }
  }

  lemma Ends(a: Str, b: Str, n: nat)
    requires n > 0 && Encode(a, b, a) <= Encode(a, b, b)
    ensures Point(a, b, n, 0) == Encode(a, b, a) && Point(a, b, n, n) == Encode(a, b, b)
  {
    hide Encode;
    var diff := Encode(a, b, b) - Encode(a, b, a);
    Quotient(diff * n, n, diff, 0);
    Quotient(diff * 0, n, 0, 0);
  }
}
