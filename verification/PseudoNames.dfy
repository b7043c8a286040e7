/**
 Name formats of the PSEUDO backend: the default ones, "dir_%08X" and
 "file_%08X", which are right as long as eight digits are enough; and two
 configurations that are accepted, with names in order, that get a wrong token.
 */
module PseudoNames {
  import opened Arithmetic
  import BigEndian
  import opened Bytes
  import opened Collections
  import opened Pseudo
  import opened PseudoExact
  import opened PseudoList
  import opened PseudoRank

  // The bytes of "dir_" and "file_".
  const DIR: Str := [0x64, 0x69, 0x72, 0x5F]
  const FILE: Str := [0x66, 0x69, 0x6C, 0x65, 0x5F]

  const TWO_TO_THE_32: nat := 0x1_0000_0000

  // -------- Printing and scanning, as Sprintf and Sscanf do --------

  function HexDigit(d: nat): byte
    requires d < 16
  {
    if d < 10 then 0x30 + d else 0x41 + d - 10
  }

  function Digits(n: nat, base: nat): (s: Str)
    requires 2 <= base <= 16
    ensures |s| > 0
  {
    if n < base then [HexDigit(n)] else Digits(n / base, base) + [HexDigit(n % base)]
  }

  function ZeroPadded(s: Str, width: nat): Str {
    if |s| >= width then s else seq(width - |s|, _ => 0x30) + s
  }

  function Show(prefix: Str, base: nat, width: nat, n: nat): Str
    requires 2 <= base <= 16
  {
    prefix + ZeroPadded(Digits(n, base), width)
  }

  function DigitOf(b: byte): nat {
    if 0x30 <= b <= 0x39 then b - 0x30 else if 0x41 <= b <= 0x46 then b - 0x41 + 10 else if 0x61 <= b <= 0x66 then b - 0x61 + 10 else 16
  }

  /** One more digit. */
  function Shift(value: nat, base: nat, digit: nat): nat {
    value * base + digit
  }

  /** At most `width` leading digits. */
  function ReadDigits(s: Str, base: nat, width: nat, value: nat): nat
    decreases |s|
  {
    if s == [] || width == 0 || DigitOf(s[0]) >= base then value
    else ReadDigits(s[1..], base, width - 1, Shift(value, base, DigitOf(s[0])))
  }

  function Scan(prefix: Str, base: nat, width: nat, e: Str): Option<nat> {
    if prefix <= e && |prefix| < |e| && DigitOf(e[|prefix|]) < base then Some(ReadDigits(e[|prefix|..], base, width, 0)) else None
  }

  /** A format verb with a prefix; Sscanf stops after the verb's width, if it has one. */
  function Verb(prefix: Str, base: nat, width: nat, start: nat): Format
    requires 2 <= base <= 16
  {
    Format(n => Show(prefix, base, width, n), e => Scan(prefix, base, if width == 0 then |e| else width, e), start)
  }

  // -------- A width that is never exceeded --------

  function Power(base: nat, k: nat): nat {
    if k == 0 then 1 else base * Power(base, k - 1)
  }

  /** The last `k` digits of `n`, leading zeros included. */
  function Fixed(n: nat, base: nat, k: nat): (s: Str)
    requires 2 <= base <= 16
    ensures |s| == k
  {
    if k == 0 then [] else Fixed(n / base, base, k - 1) + [HexDigit(n % base)]
  }

  /** The last digit, and the number before it. */
  lemma LastDigit(n: nat, base: nat, k: nat) returns (q: nat, r: nat)
    requires 2 <= base <= 16 && k > 0 && n < Power(base, k)
    ensures n == Shift(q, base, r) && r < base && q < Power(base, k - 1)
    ensures Fixed(n, base, k) == Fixed(q, base, k - 1) + [HexDigit(r)]
    ensures Digits(n, base) == if q == 0 then [HexDigit(r)] else Digits(q, base) + [HexDigit(r)]
  {
    hide Power;
    q, r := n / base, n % base;
    PrefixFits(n, base, k);
    if n < base {
      Quotient(n, base, 0, n);
    } else {
      QuotientAtLeast(n, base, 1);
    }
  }

  lemma PrefixFits(n: nat, base: nat, k: nat)
    requires base > 0 && k > 0 && n < Power(base, k)
    ensures n / base < Power(base, k - 1)
  {
    QuotientBelow(n, base, Power(base, k - 1));
  }

  lemma PadLast(s: Str, x: byte, k: nat)
    requires k > 0
    ensures ZeroPadded(s + [x], k) == ZeroPadded(s, k - 1) + [x]
    ensures s == [0x30] && k > 1 ==> ZeroPadded([x], k) == ZeroPadded(s, k - 1) + [x]
  {
  }

  /** A number that fits is printed as its fixed digits. */
  lemma {:induction false} PaddedIsFixed(n: nat, base: nat, k: nat)
    requires 2 <= base <= 16 && k > 0 && n < Power(base, k)
    ensures ZeroPadded(Digits(n, base), k) == Fixed(n, base, k)
    decreases k
  {
    hide Fixed, Digits, ZeroPadded, Shift, Power;
    var q, r := LastDigit(n, base, k);
    if k == 1 {
      OneDigit(q, base, HexDigit(r));
    } else {
      PaddedIsFixed(q, base, k - 1);
      ZeroIs(base);
      PadLast(Digits(q, base), HexDigit(r), k);
    }
  }

  lemma NoDigits(n: nat, base: nat)
    requires 2 <= base <= 16 && n < Power(base, 0)
    ensures n == 0 && Fixed(n, base, 0) == []
  {
  }

  lemma OneDigit(q: nat, base: nat, x: byte)
    requires 2 <= base <= 16 && q < Power(base, 0)
    ensures q == 0 && ZeroPadded([x], 1) == Fixed(q, base, 0) + [x]
  {
  }

  lemma ZeroIs(base: nat)
    requires 2 <= base <= 16
    ensures Digits(0, base) == [0x30]
  {
  }

  lemma {:induction false} LessExtends(a: Str, b: Str, x: Str, y: Str)
    requires |a| == |b| && Less(a, b)
    ensures Less(a + x, b + y)
  {
    assert (a + x)[1..] == a[1..] + x && (b + y)[1..] == b[1..] + y;
    if a[0] == b[0] {
      LessExtends(a[1..], b[1..], x, y);
    }
  }

  lemma DigitsInOrder(x: nat, y: nat)
    requires x < y < 16
    ensures Less([HexDigit(x)], [HexDigit(y)])
  {
  }

  lemma ShiftInOrder(q: nat, r: nat, q': nat, r': nat, base: nat)
    requires r < base && r' < base && Shift(q, base, r) < Shift(q', base, r')
    ensures q < q' || (q == q' && r < r')
  {
    if q' < q {
      Product(q', q, base);
    }
  }

  /** Fixed digits are in the order of the numbers. */
  lemma {:induction false} FixedInOrder(n: nat, m: nat, base: nat, k: nat)
    requires 2 <= base <= 16 && n < m < Power(base, k)
    ensures Less(Fixed(n, base, k), Fixed(m, base, k))
    decreases k
  {
    hide Less, Fixed, Digits, HexDigit, Power, Shift;
    if k == 0 {
      NoDigits(m, base);
    } else {
      var q, r := LastDigit(n, base, k);
      var q', r' := LastDigit(m, base, k);
      ShiftInOrder(q, r, q', r', base);
      if q < q' {
        FixedInOrder(q, q', base, k - 1);
        LessExtends(Fixed(q, base, k - 1), Fixed(q', base, k - 1), [HexDigit(r)], [HexDigit(r')]);
      } else {
        DigitsInOrder(r, r');
        BigEndian.SamePrefix(Fixed(q, base, k - 1), [HexDigit(r)], [HexDigit(r')]);
      }
    }
  }

  predicate AllDigits(s: Str, base: nat) {
    forall i :: 0 <= i < |s| ==> DigitOf(s[i]) < base
  }

  lemma {:induction false} ReadAppend(s: Str, x: byte, base: nat, value: nat)
    requires AllDigits(s + [x], base)
    ensures ReadDigits(s + [x], base, |s| + 1, value) == Shift(ReadDigits(s, base, |s|, value), base, DigitOf(x))
    decreases |s|
  {
    assert (s + [x])[|s|] == x;
    if s == [] {
      assert s + [x] == [x];
    } else {
      assert (s + [x])[0] == s[0] && (s + [x])[1..] == s[1..] + [x];
      ReadAppend(s[1..], x, base, Shift(value, base, DigitOf(s[0])));
    }
  }

  lemma DigitReadsBack(d: nat)
    requires d < 16
    ensures DigitOf(HexDigit(d)) == d
  {
  }

  /** Fixed digits are read back as the number. */
  lemma {:induction false} FixedReadsBack(n: nat, base: nat, k: nat)
    requires 2 <= base <= 16 && n < Power(base, k)
    ensures AllDigits(Fixed(n, base, k), base) && ReadDigits(Fixed(n, base, k), base, k, 0) == n
    decreases k
  {
    hide Fixed, Digits, Power, Shift;
    if k == 0 {
      NoDigits(n, base);
    } else {
      hide ReadDigits, HexDigit, DigitOf;
      var q, r := LastDigit(n, base, k);
      FixedReadsBack(q, base, k - 1);
      DigitReadsBack(r);
      ReadAppend(Fixed(q, base, k - 1), HexDigit(r), base, 0);
    }
  }

  /** At most `width` digits are read, so the number fits the width. */
  lemma {:induction false} ReadBound(s: Str, base: nat, width: nat, value: nat)
    requires base >= 2
    ensures ReadDigits(s, base, width, value) < (value + 1) * Power(base, width)
    decreases |s|
  {
    PowerIsPositive(base, width);
    if s == [] || width == 0 || DigitOf(s[0]) >= base {
      Positive(value + 1, Power(base, width));
    } else {
      var next := Shift(value, base, DigitOf(s[0]));
      ReadBound(s[1..], base, width - 1, next);
      Product(value, value + 1, base);
      Monotone(next + 1, (value + 1) * base, Power(base, width - 1));
      Associates(value + 1, base, Power(base, width - 1));
    }
  }

  lemma Associates(x: nat, y: nat, z: nat)
    ensures x * y * z == x * (y * z)
  {
  }

  lemma {:induction false} PowerIsPositive(base: nat, k: nat)
    requires base > 0
    ensures Power(base, k) > 0
  {
    if k > 0 {
      PowerIsPositive(base, k - 1);
      Positive(base, Power(base, k - 1));
    }
  }

  /** Numbers below `bound` print in order after the prefix and are read back, and no other number is ever read. */
  ghost predicate Exact(f: Format, prefix: Str, bound: nat) {
    && (forall n, m :: 0 <= n < m < bound ==> Less(f.show(n), f.show(m)))
    && (forall n :: 0 <= n < bound ==> prefix <= f.show(n) && f.scan(f.show(n)) == Some(n))
    && (forall e :: f.scan(e).Some? ==> f.scan(e).value < bound)
  }

  lemma ShowsFixed(prefix: Str, base: nat, width: nat, n: nat)
    requires 2 <= base <= 16 && width > 0 && n < Power(base, width)
    ensures Show(prefix, base, width, n) == prefix + Fixed(n, base, width)
    ensures Scan(prefix, base, width, Show(prefix, base, width, n)) == Some(n)
  {
    hide Digits, Fixed, ReadDigits;
    PaddedIsFixed(n, base, width);
    FixedReadsBack(n, base, width);
    var s, e := Fixed(n, base, width), prefix + Fixed(n, base, width);
    assert e[|prefix|..] == s && e[|prefix|] == s[0];
  }

  /** A verb with a width, such as %08X, is exact on the numbers that fit the width. */
  lemma VerbIsExact(prefix: Str, base: nat, width: nat, start: nat)
    requires 2 <= base <= 16 && width > 0
    ensures Exact(Verb(prefix, base, width, start), prefix, Power(base, width))
  {
    hide Show, Fixed, Less, ReadDigits;
    var f := Verb(prefix, base, width, start);
    forall n | 0 <= n < Power(base, width) ensures prefix <= f.show(n) && f.scan(f.show(n)) == Some(n) {
      ShowsFixed(prefix, base, width, n);
    }
    forall n, m | 0 <= n < m < Power(base, width) ensures Less(f.show(n), f.show(m)) {
      ShowsFixed(prefix, base, width, n);
      ShowsFixed(prefix, base, width, m);
      FixedInOrder(n, m, base, width);
      BigEndian.SamePrefix(prefix, Fixed(n, base, width), Fixed(m, base, width));
    }
    forall e | f.scan(e).Some? ensures f.scan(e).value < Power(base, width) {
      ReadBound(e[|prefix|..], base, width, 0);
    }
  }

  predicate FitsBelow(f: Format, limit: nat, bound: nat) {
    limit == 0 || f.start + limit <= bound
  }

  lemma ExactInOrder(f: Format, prefix: Str, limit: nat, bound: nat)
    requires Exact(f, prefix, bound) && FitsBelow(f, limit, bound)
    ensures InOrder(f, limit) && Closed(f, limit)
  {
    hide Less;
    forall e ensures !Misread(f, limit, e) {
      NotMisread(f, prefix, limit, bound, e);
    }
  }

  lemma NotMisread(f: Format, prefix: Str, limit: nat, bound: nat, e: Str)
    requires Exact(f, prefix, bound) && FitsBelow(f, limit, bound)
    ensures !Misread(f, limit, e)
  {
    hide Less;
    if limit > 0 && PrintsBack(f, e) {
      Trichotomy(e, Name(f, limit - 1));
    }
  }

  /** The names of an exact format are read back exactly if they fit. */
  lemma ReadsBackIff(f: Format, prefix: Str, limit: nat, bound: nat)
    requires Exact(f, prefix, bound)
    ensures ReadsBack(f, limit) <==> FitsBelow(f, limit, bound)
  {
    hide Less;
    if limit > 0 && ReadsBack(f, limit) {
      assert f.scan(Name(f, limit - 1)) == Some(f.start + limit - 1);
    }
  }

  lemma PrefixesInOrder(x: Str, y: Str)
    requires DIR <= x && FILE <= y
    ensures Less(x, y)
  {
    assert x[0] == DIR[0] && y[0] == FILE[0];
  }

  lemma DirsFirst(c: Config, i: nat, j: nat)
    requires Exact(c.dir, DIR, TWO_TO_THE_32) && Exact(c.file, FILE, TWO_TO_THE_32)
    requires c.dir.start + i < TWO_TO_THE_32 && c.file.start + j < TWO_TO_THE_32
    ensures Less(Name(c.dir, i), Name(c.file, j))
  {
    hide Less;
    PrefixesInOrder(Name(c.dir, i), Name(c.file, j));
  }

  ghost predicate DefaultFormats(c: Config) {
    c.dir == Verb(DIR, 16, 8, c.dir.start) && c.file == Verb(FILE, 16, 8, c.file.start)
  }

  lemma DefaultsAreExact(c: Config)
    requires DefaultFormats(c)
    ensures Exact(c.dir, DIR, TWO_TO_THE_32) && Exact(c.file, FILE, TWO_TO_THE_32)
  {
    hide Verb, Exact;
    EightHexDigits();
    VerbIsExact(DIR, 16, 8, c.dir.start);
    VerbIsExact(FILE, 16, 8, c.file.start);
  }

  lemma EightHexDigits()
    ensures Power(16, 8) == TWO_TO_THE_32
  {
    assert Power(16, 4) == 0x1_0000;
  }

  /**
   With the default formats, and files numbered below 2^32: names are in order, directories before
   files, and told from all other strings, exactly if the directories are numbered below 2^32 too.
   */
  lemma DefaultFormatsIff(c: Config)
    requires Validated(c) && DefaultFormats(c)
    requires forall d :: 0 <= d < 4 ==> FitsBelow(c.file, c.files[d], TWO_TO_THE_32)
    ensures Formatted(c) <==> forall d :: 0 <= d < 4 ==> FitsBelow(c.dir, c.subdirs[d], TWO_TO_THE_32)
  {
    hide DefaultFormats, Exact, Ordered, ReadsBack, Closed, InOrder, FitsBelow;
    DefaultsAreExact(c);
    forall d | 0 <= d < 4 ensures FitsBelow(c.dir, c.subdirs[d], TWO_TO_THE_32) <==> ReadsBack(c.dir, c.subdirs[d]) {
      ReadsBackIff(c.dir, DIR, c.subdirs[d], TWO_TO_THE_32);
    }
    if forall d :: 0 <= d < 4 ==> FitsBelow(c.dir, c.subdirs[d], TWO_TO_THE_32) {
      forall d | 0 <= d < 4 ensures Closed(c.dir, c.subdirs[d]) && Closed(c.file, c.files[d]) {
        ExactInOrder(c.dir, DIR, c.subdirs[d], TWO_TO_THE_32);
        ExactInOrder(c.file, FILE, c.files[d], TWO_TO_THE_32);
      }
      DefaultsAreOrdered(c);
    } else {
      var d :| 0 <= d < 4 && !FitsBelow(c.dir, c.subdirs[d], TWO_TO_THE_32);
      assert !NamesOk(c, d);
    }
  }

  lemma DefaultsAreOrdered(c: Config)
    requires Validated(c) && Exact(c.dir, DIR, TWO_TO_THE_32) && Exact(c.file, FILE, TWO_TO_THE_32)
    requires forall d :: 0 <= d < 4 ==> FitsBelow(c.file, c.files[d], TWO_TO_THE_32) && FitsBelow(c.dir, c.subdirs[d], TWO_TO_THE_32)
    ensures Ordered(c)
  {
    hide Exact, InOrder, Closed, Less;
    forall d | 0 <= d < 4
      ensures InOrder(c.dir, c.subdirs[d]) && InOrder(c.file, c.files[d])
      ensures forall i, j :: 0 <= i < c.subdirs[d] && 0 <= j < c.files[d] ==> Less(Name(c.dir, i), Name(c.file, j))
    {
      ExactInOrder(c.dir, DIR, c.subdirs[d], TWO_TO_THE_32);
      ExactInOrder(c.file, FILE, c.files[d], TWO_TO_THE_32);
      forall i, j | 0 <= i < c.subdirs[d] && 0 <= j < c.files[d] ensures Less(Name(c.dir, i), Name(c.file, j)) {
        DirsFirst(c, i, j);
      }
    }
  }

  /** The checks made on the formats when the configuration is read. */
  predicate Accepted(c: Config) {
    && Less(c.dir.show(0), c.dir.show(1)) && Less(c.file.show(0), c.file.show(1)) && Less(c.dir.show(0), c.file.show(0))
  }

  // -------- A ninth digit --------

  // The bytes of "100000000".
  const NINE: Str := [0x31, 0x30, 0x30, 0x30, 0x30, 0x30, 0x30, 0x30, 0x30]

  /** The default formats, one directory numbered 2^32, and one file in it. */
  function NineDigits(): Config {
    Config([0, 1, 0, 0], [1, 0, 0, 0], Verb(DIR, 16, 8, TWO_TO_THE_32), Verb(FILE, 16, 8, 0))
  }

  function ShiftedHex(v: nat, k: nat): nat
    decreases k
  {
    if k == 0 then v else ShiftedHex(v * 16, k - 1)
  }

  lemma {:induction false} ReadZeros(s: Str, k: nat, v: nat)
    requires k <= |s| && forall i :: 0 <= i < k ==> s[i] == 0x30
    ensures ReadDigits(s, 16, k, v) == ShiftedHex(v, k)
    decreases k
  {
    if k > 0 {
      ReadZeros(s[1..], k - 1, v * 16);
    }
  }

  lemma NineDigitsPrint()
    ensures Digits(0x1000_0000, 16) == NINE[..8] && Digits(0x1_0000_0000, 16) == NINE
  {
    assert Digits(0x100, 16) == NINE[..3];
    assert Digits(0x1_0000, 16) == NINE[..5];
    assert Digits(0x100_0000, 16) == NINE[..7];
  }

  lemma NineDigitName()
    ensures Name(NineDigits().dir, 0) == DIR + NINE && NineDigits().dir.show(0x1000_0000) != DIR + NINE
    ensures NineDigits().dir.scan(DIR + NINE) == Some(0x1000_0000)
  {
    hide Show, Scan, Digits, Verb;
    VerbIs(DIR, 16, 8, TWO_TO_THE_32);
    ShowNine();
    ScanNine();
  }

  lemma VerbIs(prefix: Str, base: nat, width: nat, start: nat)
    requires 2 <= base <= 16
    ensures var f := Verb(prefix, base, width, start);
      && f.start == start && (forall n :: f.show(n) == Show(prefix, base, width, n))
      && (forall e :: f.scan(e) == Scan(prefix, base, if width == 0 then |e| else width, e))
  {
    hide Show, Scan;
  }

  lemma ShowNine()
    ensures Show(DIR, 16, 8, TWO_TO_THE_32) == DIR + NINE && Show(DIR, 16, 8, 0x1000_0000) == DIR + NINE[..8] != DIR + NINE
  {
    hide Digits;
    NineDigitsPrint();
    assert |DIR + NINE[..8]| != |DIR + NINE|;
  }

  lemma ScanNine()
    ensures Scan(DIR, 16, 8, DIR + NINE) == Some(0x1000_0000)
  {
    hide ReadDigits;
    ReadNine();
    var e := DIR + NINE;
    assert DIR <= e && e[|DIR|] == NINE[0] && e[|DIR|..] == NINE;
  }

  lemma ReadNine()
    ensures ReadDigits(NINE, 16, 8, 0) == 0x1000_0000
  {
    ReadZeros(NINE[1..], 7, 1);
    assert ShiftedHex(1, 7) == 0x1000_0000;
    assert ReadDigits(NINE, 16, 8, 0) == ReadDigits(NINE[1..], 16, 7, 1);
  }

  lemma NineDigitsCheck()
    ensures Name(NineDigits().dir, 0) == DIR + NINE && Check(NineDigits().dir, DIR + NINE, 1) == (0, 1)
    ensures NineDigits().dir.scan(DIR + NINE) != Some(NineDigits().dir.start)
  {
    hide Show, Scan;
    NineDigitName();
    LessIsStrict(DIR + NINE);
  }

  lemma DefaultsAreAccepted(c: Config)
    requires DefaultFormats(c)
    ensures Accepted(c)
  {
    hide Show;
    EightZeros(DIR, 0);
    EightZeros(DIR, 1);
    EightZeros(FILE, 0);
    EightZeros(FILE, 1);
    LastLess(DIR + [0x30, 0x30, 0x30, 0x30, 0x30, 0x30, 0x30], 0x30, 0x31);
    LastLess(FILE + [0x30, 0x30, 0x30, 0x30, 0x30, 0x30, 0x30], 0x30, 0x31);
  }

  lemma NineDigitsIsAccepted()
    ensures Validated(NineDigits()) && Ordered(NineDigits()) && Exists(NineDigits(), 0) && Accepted(NineDigits())
  {
    hide Verb, Accepted;
    VerbStart(DIR, 16, 8, TWO_TO_THE_32);
    VerbStart(FILE, 16, 8, 0);
    DefaultsAreAccepted(NineDigits());
  }

  lemma VerbStart(prefix: Str, base: nat, width: nat, start: nat)
    requires 2 <= base <= 16
    ensures Verb(prefix, base, width, start).start == start
  {
  }

  lemma EightZeros(prefix: Str, n: nat)
    requires n < 10
    ensures Show(prefix, 16, 8, n) == prefix + [0x30, 0x30, 0x30, 0x30, 0x30, 0x30, 0x30] + [0x30 + n]
  {
    var zeros: Str := seq(7, _ => 0x30);
    assert zeros == [0x30, 0x30, 0x30, 0x30, 0x30, 0x30, 0x30];
    assert Digits(n, 16) == [0x30 + n];
  }

  lemma LastLess(s: Str, x: byte, y: byte)
    requires x < y
    ensures Less(s + [x], s + [y])
  {
    BigEndian.SamePrefix(s, [x], [y]);
  }

  /**
   The default format with a starting number of 2^32, which is accepted: the directory's name does not
   read back, and is reported as a name that is not there. Whatever follows it in startAfter, its object
   is taken to come before, so the token is right only if the object does.
   */
  lemma NineDigitsAreLost(rest: Path)
    ensures var c := NineDigits(); var e := DIR + NINE;
      && Validated(c) && Ordered(c) && Exists(c, 0) && Accepted(c) && Name(c.dir, 0) == e && Objects(c, 0) == 1
      && Check(c.dir, e, 1) == (0, 1) && Token(c, 0, [e] + rest) == 1
      && (Counts(c, 0, [e] + rest, 1) <==> AtOrBefore([Name(c.file, 0)], rest))
  {
    hide Verb, Check;
    NineDigitsIsAccepted();
    NineDigitsCheck();
    OneObject(NineDigits(), DIR + NINE, rest);
  }

  /** One directory, one file in it, and a name that is reported as one that is not there. */
  lemma OneObject(c: Config, e: Str, rest: Path)
    requires Validated(c) && c.files == [0, 1, 0, 0] && c.subdirs == [1, 0, 0, 0] && Name(c.dir, 0) == e && Check(c.dir, e, 1) == (0, 1)
    ensures Objects(c, 0) == 1 && Token(c, 0, [e] + rest) == 1
    ensures Counts(c, 0, [e] + rest, 1) <==> AtOrBefore([Name(c.file, 0)], rest)
  {
    hide Check;
    assert Objects(c, 1) == 1 && ([e] + rest)[0] == e;
    UnrankOfFile(c, 1, 0);
    UnrankInDir(c, 0, 0, 0);
    PseudoRank.SameHead(e, [Name(c.file, 0)], [e] + rest);
    assert ([e] + rest)[1..] == rest;
  }

  /** So startAfter the directory itself skips the object in it. */
  lemma NineDigitsSkipObjects()
    ensures Validated(NineDigits()) && Exists(NineDigits(), 0) && !RightAfter(NineDigits(), 0, DIR + NINE)
  {
    hide Verb, Counts, Token, SplitN;
    NineDigitsIsAccepted();
    NineDigitsCheck();
    DirUnread(NineDigits(), 0, 0);
    SplitLast(DIR + NINE, 2);
  }

  // -------- A third decimal digit --------

  // The bytes of "100".
  const HUNDRED: Str := [0x31, 0x30, 0x30]

  /** Directories "10" to "99", in format "%d", each with one file. */
  function TwoDigits(): Config {
    Config([0, 1, 0, 0], [90, 0, 0, 0], Verb([], 10, 0, 10), Verb(FILE, 16, 8, 0))
  }

  lemma TwoDigitName(i: nat)
    requires i < 90
    ensures Name(TwoDigits().dir, i) == [0x30 + (10 + i) / 10, 0x30 + (10 + i) % 10]
  {
    assert Digits((10 + i) / 10, 10) == [0x30 + (10 + i) / 10];
  }

  lemma TwoDigitsInOrder()
    ensures InOrder(TwoDigits().dir, 90)
  {
    forall i, j | 0 <= i < j < 90 ensures Less(Name(TwoDigits().dir, i), Name(TwoDigits().dir, j)) {
      TwoDigitName(i);
      TwoDigitName(j);
    }
  }

  lemma TwoDigitsPrint()
    ensures Accepted(TwoDigits())
  {
    EightZeros(FILE, 0);
    EightZeros(FILE, 1);
    LastLess(FILE + [0x30, 0x30, 0x30, 0x30, 0x30, 0x30, 0x30], 0x30, 0x31);
    assert Show([], 10, 0, 0) == [0x30] && Show([], 10, 0, 1) == [0x31];
    hide Show;
  }

  lemma TwoDigitsIsAccepted()
    ensures Validated(TwoDigits()) && Ordered(TwoDigits()) && Exists(TwoDigits(), 0) && Accepted(TwoDigits()) && Objects(TwoDigits(), 0) == 90
  {
    hide Verb, Accepted, InOrder;
    TwoDigitsPrint();
    TwoDigitsInOrder();
    OneName(TwoDigits().file, 1);
    OneName(TwoDigits().file, 0);
    OneName(TwoDigits().dir, 0);
    assert Objects(TwoDigits(), 1) == 1;
  }

  lemma OneName(f: Format, limit: nat)
    requires limit <= 1
    ensures InOrder(f, limit)
  {
  }

  lemma HundredIsMisread()
    ensures Misread(TwoDigits().dir, 90, HUNDRED)
  {
    hide Show, Scan, Verb;
    VerbIs([], 10, 0, 10);
    TwoDigitName(0);
    TwoDigitName(89);
    ShowHundred();
    ScanHundred();
  }

  lemma ShowHundred()
    ensures Show([], 10, 0, 100) == HUNDRED
  {
    assert Digits(10, 10) == [0x31, 0x30];
    assert Digits(100, 10) == Digits(10, 10) + [0x30] == HUNDRED;
    hide Digits;
  }

  lemma ReadOne(s: Str, base: nat, width: nat, value: nat)
    requires s != [] && width > 0 && DigitOf(s[0]) < base
    ensures ReadDigits(s, base, width, value) == ReadDigits(s[1..], base, width - 1, Shift(value, base, DigitOf(s[0])))
  {
  }

  lemma ScanHundred()
    ensures Scan([], 10, |HUNDRED|, HUNDRED) == Some(100)
  {
    hide ReadDigits;
    assert HUNDRED[0..] == HUNDRED && HUNDRED[1..] == [0x30, 0x30] && [0x30, 0x30][1..] == [0x30] && [0x30][1..] == [];
    ReadOne(HUNDRED, 10, 3, 0);
    ReadOne([0x30, 0x30], 10, 2, 1);
    ReadOne([0x30], 10, 1, 10);
    ReadNone(10, 100);
  }

  lemma ReadNone(base: nat, value: nat)
    ensures ReadDigits([], base, 0, value) == value
  {
  }

  /** "100" comes after one of the directories, and before all the others. */
  lemma HundredDivides()
    ensures Validated(TwoDigits()) && Divides(TwoDigits(), 0, HUNDRED, 1, 0)
  {
    var c := TwoDigits();
    forall i | 0 <= i < 90 ensures if i < 1 then Less(Name(c.dir, i), HUNDRED) else Less(HUNDRED, Name(c.dir, i)) {
      TwoDigitName(i);
    }
  }

  lemma HundredCheck()
    ensures Check(TwoDigits().dir, HUNDRED, 90) == (89, 1) && Objects(TwoDigits(), 1) == 1
  {
    hide Less, Verb;
    HundredIsMisread();
    Trichotomy(HUNDRED, Name(TwoDigits().dir, 89));
  }

  /**
   An accepted configuration with names in order: "100" lies between "10" and "11", but Sscanf reads it
   as the number 100, which is not used, and all 90 directories are counted where one should be.
   */
  lemma HundredCountsAll()
    ensures var c := TwoDigits();
      && Validated(c) && Ordered(c) && Exists(c, 0) && Accepted(c) && Check(c.dir, HUNDRED, 90) == (89, 1)
      && Token(c, 0, [HUNDRED]) == 90 == Objects(c, 0) && Counts(c, 0, [HUNDRED], 1) && !RightAfter(c, 0, HUNDRED)
  {
    hide Verb, Less, Ordered, Accepted, Divides, Counts, Check, SplitN, Misread, Unrank;
    var c := TwoDigits();
    TwoDigitsIsAccepted();
    HundredIsMisread();
    HundredDivides();
    HundredCheck();
    StopHere(c, 0, [HUNDRED], 1, 0);
    DirMisread(c, 0, [HUNDRED]);
    SplitLast(HUNDRED, 2);
  }
}
