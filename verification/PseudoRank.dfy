/**
 Ranking in the PSEUDO backend: where any string falls among the names, and how
 many objects are at or before any `startAfter`; and exactly when the code gets
 them right.
 */
module PseudoRank {
  import opened Arithmetic
  import opened Bytes
  import opened Collections
  import opened Pseudo

  // -------- Ranking one element --------

  /** Sscanf reads the string as a number that prints as that string. */
  predicate PrintsBack(f: Format, e: Str) {
    f.scan(e).Some? && f.show(f.scan(e).value) == e
  }

  predicate InRange(f: Format, limit: nat, n: nat) {
    f.start <= n < f.start + limit
  }

  /** Sscanf reads every name back. */
  ghost predicate ReadsBack(f: Format, limit: nat) {
    forall i :: 0 <= i < limit ==> f.scan(Name(f, i)) == Some(f.start + i)
  }

  /** A string before the last name, but not before the first, that is the print of a number that is not used. */
  predicate Misread(f: Format, limit: nat, e: Str) {
    limit > 0 && !Less(e, Name(f, 0)) && Less(e, Name(f, limit - 1)) && PrintsBack(f, e) && !InRange(f, limit, f.scan(e).value)
  }

  /** No other number prints among the names and reads back. */
  ghost predicate Closed(f: Format, limit: nat) {
    forall e :: !Misread(f, limit, e)
  }

  /** The last name at or before `e`, or the first. */
  function LastAtMost(f: Format, e: Str, limit: nat): (n: nat)
    requires limit > 0
    ensures n < limit
  {
    if limit == 1 || AtMost(Name(f, limit - 1), e) then limit - 1 else LastAtMost(f, e, limit - 1)
  }

  /** What checkPathElement returns. */
  function Check(f: Format, e: Str, limit: nat): (r: (nat, int))
    requires limit > 0
    ensures r.0 < limit && -1 <= r.1 <= 1
  {
    if Less(e, Name(f, 0)) then (0, -1)
    else if Less(Name(f, limit - 1), e) then (limit - 1, 1)
    else if PrintsBack(f, e) then
      if InRange(f, limit, f.scan(e).value) then (f.scan(e).value - f.start, 0) else (limit - 1, 1)
    else (LastAtMost(f, e, limit), 1)
  }

  /** Where an element falls among `limit` names: before them all, at one, or at or after one and before the next. */
  ghost predicate Falls(f: Format, limit: nat, e: Str, n: nat, comparison: int) {
    && n < limit && -1 <= comparison <= 1
    && (comparison == -1 ==> n == 0 && Less(e, Name(f, 0)))
    && (comparison == 0 ==> Name(f, n) == e)
    && (comparison == 1 ==> AtMost(Name(f, n), e) && (n + 1 < limit ==> Less(e, Name(f, n + 1))))
  }

  lemma {:induction false} LastIsUnique(f: Format, e: Str, limit: nat, n: nat)
    requires InOrder(f, limit) && n < limit && AtMost(Name(f, n), e) && (n + 1 < limit ==> Less(e, Name(f, n + 1)))
    ensures LastAtMost(f, e, limit) == n
    decreases limit
  {
    hide Less;
    if n < limit - 1 {
      Trichotomy(e, Name(f, n + 1));
      Trichotomy(e, Name(f, limit - 1));
      if n + 1 < limit - 1 {
        LessTrans(e, Name(f, n + 1), Name(f, limit - 1));
      }
      LastIsUnique(f, e, limit - 1, n);
    }
  }

  lemma {:induction false} LastFalls(f: Format, e: Str, limit: nat)
    requires limit > 0 && !Less(e, Name(f, 0))
    ensures var n := LastAtMost(f, e, limit); AtMost(Name(f, n), e) && (n + 1 < limit ==> Less(e, Name(f, n + 1)))
  {
    hide Less;
    Trichotomy(e, Name(f, limit - 1));
    if limit > 1 && !AtMost(Name(f, limit - 1), e) {
      LastFalls(f, e, limit - 1);
    } else {
      Trichotomy(e, Name(f, 0));
    }
  }

  /** checkPathElement. */
  method CheckPathElement(f: Format, e: Str, limit: nat) returns (n: nat, comparison: int)
    requires limit > 0 && InOrder(f, limit)
    ensures (n, comparison) == Check(f, e, limit)
    ensures Falls(f, limit, e, n, comparison) <==> !Misread(f, limit, e)
    ensures comparison == 0 <==>
      !Less(e, Name(f, 0)) && !Less(Name(f, limit - 1), e) && PrintsBack(f, e) && InRange(f, limit, f.scan(e).value)
  {
    hide Less, Falls, Misread;
    CheckFallsIff(f, e, limit);
    Trichotomy(e, Name(f, 0));
    if Less(e, Name(f, 0)) {
      return 0, -1;
    }
    if Less(Name(f, limit - 1), e) {
      return limit - 1, 1;
    }
    var scanned := f.scan(e);
    if scanned.Some? && f.show(scanned.value) == e {
      if f.start <= scanned.value < f.start + limit {
        return scanned.value - f.start, 0;
      }
      return limit - 1, 1;
    }
    n := Search(f, e, limit);
    LastIsUnique(f, e, limit, n);
    comparison := 1;
  }

  /** The binary search of checkPathElement. */
  method Search(f: Format, e: Str, limit: nat) returns (n: nat)
    requires limit > 0 && InOrder(f, limit) && AtMost(Name(f, 0), e)
    ensures n < limit && AtMost(Name(f, n), e) && (n + 1 < limit ==> Less(e, Name(f, n + 1)))
  {
    hide Less, InOrder;
    var lo, hi := f.start, f.start + limit - 1;
    while lo < hi
      invariant f.start <= lo <= hi < f.start + limit
      invariant AtMost(f.show(lo), e) && (hi + 1 < f.start + limit ==> Less(e, f.show(hi + 1)))
    {
      var mid := lo + (hi - lo + 1) / 2;
      Trichotomy(f.show(mid), e);
      if AtMost(f.show(mid), e) {
        lo := mid;
      } else {
        hi := mid - 1;
      }
    }
    n := lo - f.start;
  }

  /** The answer is right exactly if the string is not misread. */
  lemma CheckFallsIff(f: Format, e: Str, limit: nat)
    requires limit > 0
    ensures Falls(f, limit, e, Check(f, e, limit).0, Check(f, e, limit).1) <==> !Misread(f, limit, e)
  {
    hide Less;
    Trichotomy(e, Name(f, limit - 1));
    if !Less(e, Name(f, 0)) && !PrintsBack(f, e) {
      LastFalls(f, e, limit);
    }
  }

  /** The answer is right for every string exactly if no other number prints among the names. */
  lemma AlwaysFallsIff(f: Format, limit: nat)
    requires limit > 0
    ensures (forall e :: Falls(f, limit, e, Check(f, e, limit).0, Check(f, e, limit).1)) <==> Closed(f, limit)
  {
    hide Falls, Misread, Check;
    forall e ensures Falls(f, limit, e, Check(f, e, limit).0, Check(f, e, limit).1) <==> !Misread(f, limit, e) {
      CheckFallsIff(f, e, limit);
    }
  }

  lemma OneNumber(f: Format, limit: nat, i: nat, j: nat)
    requires InOrder(f, limit) && i < limit && j < limit && Name(f, i) == Name(f, j)
    ensures i == j
  {
    LessIsStrict(Name(f, i));
  }

  /** A name is reported as an exact match exactly if it reads back. */
  lemma NameExactIff(f: Format, limit: nat, i: nat)
    requires InOrder(f, limit) && i < limit
    ensures Check(f, Name(f, i), limit).1 == 0 <==> f.scan(Name(f, i)) == Some(f.start + i)
    ensures Check(f, Name(f, i), limit).1 == 0 ==> Check(f, Name(f, i), limit).0 == i
    ensures Check(f, Name(f, i), limit).1 != 0 ==> Check(f, Name(f, i), limit).0 >= i && Check(f, Name(f, i), limit).1 == 1
  {
    hide Less;
    var e := Name(f, i);
    Trichotomy(e, Name(f, 0));
    Trichotomy(e, Name(f, limit - 1));
    if PrintsBack(f, e) && InRange(f, limit, f.scan(e).value) {
      OneNumber(f, limit, i, f.scan(e).value - f.start);
    } else if !PrintsBack(f, e) {
      LastIsUnique(f, e, limit, i);
    }
  }

  /** Every name is reported as an exact match exactly if every name reads back. */
  lemma NamesExactIff(f: Format, limit: nat)
    requires InOrder(f, limit)
    ensures (forall i :: 0 <= i < limit ==> Check(f, Name(f, i), limit) == (i, 0)) <==> ReadsBack(f, limit)
  {
    hide Check, InOrder;
    forall i | 0 <= i < limit ensures Check(f, Name(f, i), limit) == (i, 0) <==> f.scan(Name(f, i)) == Some(f.start + i) {
      NameExactIff(f, limit, i);
    }
  }

  // -------- Ranking a path --------

  /** `token` is the number of objects at or before `es`: exactly the objects below it are. */
  ghost predicate Counts(c: Config, d: nat, es: Path, token: nat)
    requires Validated(c) && d <= 3
  {
    token <= Objects(c, d) && forall k :: 0 <= k < Objects(c, d) ==> (k < token <==> AtOrBefore(Unrank(c, d, k), es))
  }

  lemma {:induction false} AfterIsNotBefore(p: Path, q: Path)
    requires p != [] && q != [] && Less(q[0], p[0])
    ensures !AtOrBefore(p, q)
  {
    Trichotomy(p[0], q[0]);
  }

  lemma SameHead(x: Str, p: Path, q: Path)
    requires q != [] && q[0] == x
    ensures AtOrBefore([x] + p, q) <==> AtOrBefore(p, q[1..])
  {
    assert ([x] + p)[1..] == p;
    assert q == [x] + q[1..];
    LessIsStrict(x);
  }

  lemma EnterDirAt(c: Config, d: nat, rs: Path, n: nat, t: nat, k: nat)
    requires Validated(c) && Ordered(c) && d < 3 && n < c.subdirs[d] && rs != [] && rs[0] == Name(c.dir, n)
    requires Counts(c, d + 1, rs[1..], t) && k < Objects(c, d)
    ensures k < n * Objects(c, d + 1) + t <==> AtOrBefore(Unrank(c, d, k), rs)
  {
    hide Ordered, Unrank, Objects;
    OrderFacts(c, d);
    var o := Objects(c, d + 1);
    var inDir, i, r := Placed(c, d, k);
    Product(n, c.subdirs[d], o);
    if !inDir {
      AfterIsNotBefore(Unrank(c, d, k), rs);
    } else if i < n {
      Product(i, n, o);
    } else if i > n {
      Product(n, i, o);
      AfterIsNotBefore(Unrank(c, d, k), rs);
    } else {
      SameHead(rs[0], Unrank(c, d + 1, r), rs);
    }
  }

  /** An element that is a directory's name: count the directories before it, and go on inside. */
  lemma EnterDir(c: Config, d: nat, rs: Path, n: nat, t: nat)
    requires Validated(c) && Ordered(c) && d < 3 && n < c.subdirs[d] && rs != [] && rs[0] == Name(c.dir, n)
    requires Counts(c, d + 1, rs[1..], t)
    ensures Counts(c, d, rs, n * Objects(c, d + 1) + t)
  {
    hide Ordered, Unrank;
    Product(n, c.subdirs[d], Objects(c, d + 1));
    forall k | 0 <= k < Objects(c, d) ensures k < n * Objects(c, d + 1) + t <==> AtOrBefore(Unrank(c, d, k), rs) {
      EnterDirAt(c, d, rs, n, t, k);
    }
  }

  /** `a` directories and `b` files are at or before `e`, which is no directory's name. */
  ghost predicate Divides(c: Config, d: nat, e: Str, a: nat, b: nat)
    requires Sized(c) && d <= 3
  {
    && a <= c.subdirs[d] && b <= c.files[d] && (b > 0 ==> a == c.subdirs[d])
    && (forall i :: 0 <= i < c.subdirs[d] ==> if i < a then Less(Name(c.dir, i), e) else Less(e, Name(c.dir, i)))
    && (forall j :: 0 <= j < c.files[d] ==> if j < b then AtMost(Name(c.file, j), e) else Less(e, Name(c.file, j)))
  }

  function Below(c: Config, d: nat): nat
    requires Sized(c) && d <= 3
  {
    if d == 3 then 0 else Objects(c, d + 1)
  }

  lemma StopHereAt(c: Config, d: nat, rs: Path, a: nat, b: nat, k: nat)
    requires Validated(c) && d <= 3 && rs != [] && Divides(c, d, rs[0], a, b) && k < Objects(c, d)
    ensures k < a * Below(c, d) + b <==> AtOrBefore(Unrank(c, d, k), rs)
  {
    hide Unrank, Objects;
    var inDir, i, r := Placed(c, d, k);
    if inDir {
      if i < a {
        Product(i, a, Objects(c, d + 1));
      } else {
        if a < i {
          Product(a, i, Objects(c, d + 1));
        }
        AfterIsNotBefore(Unrank(c, d, k), rs);
      }
    } else {
      if a < c.subdirs[d] {
        Product(a, c.subdirs[d], Below(c, d));
      }
      if Less(rs[0], Name(c.file, i)) {
        AfterIsNotBefore(Unrank(c, d, k), rs);
      } else if Name(c.file, i) == rs[0] {
        SameHead(rs[0], [], rs);
        assert [rs[0]] + [] == [rs[0]];
      }
    }
  }

  lemma StopHere(c: Config, d: nat, rs: Path, a: nat, b: nat)
    requires Validated(c) && d <= 3 && rs != [] && Divides(c, d, rs[0], a, b)
    ensures Counts(c, d, rs, a * Below(c, d) + b)
  {
    hide Unrank;
    if a < c.subdirs[d] {
      Product(a, c.subdirs[d], Below(c, d));
    }
    forall k | 0 <= k < Objects(c, d) ensures k < a * Below(c, d) + b <==> AtOrBefore(Unrank(c, d, k), rs) {
      StopHereAt(c, d, rs, a, b, k);
    }
  }

  /** A path that ends at a directory is before everything in it. */
  lemma NothingBefore(c: Config, d: nat)
    requires Validated(c) && d <= 3
    ensures Counts(c, d, [], 0)
  {
    forall k | 0 <= k < Objects(c, d) ensures !AtOrBefore(Unrank(c, d, k), []) {
      var inDir, i, r := Placed(c, d, k);
    }
  }

  /** `a` of the names are at or before `e`, and the others after it. */
  ghost predicate Splits(f: Format, limit: nat, e: Str, a: nat) {
    a <= limit && forall i :: 0 <= i < limit ==> if i < a then AtMost(Name(f, i), e) else Less(e, Name(f, i))
  }

  lemma FallsSplit(f: Format, limit: nat, e: Str, n: nat, comparison: int)
    requires InOrder(f, limit) && Falls(f, limit, e, n, comparison)
    ensures Splits(f, limit, e, if comparison == -1 then n else n + 1)
  {
    hide Less;
    var a := if comparison == -1 then n else n + 1;
    forall i | 0 <= i < limit ensures if i < a then AtMost(Name(f, i), e) else Less(e, Name(f, i)) {
      if i < n && comparison != -1 {
        LessAtMost(Name(f, i), Name(f, n), e);
      } else if i > a {
        LessTrans(e, Name(f, a), Name(f, i));
      } else if i == a && comparison == 0 {
        assert Less(Name(f, n), Name(f, i));
      }
    }
  }

  lemma FilesAfter(c: Config, d: nat, e: Str, a: nat)
    requires Sized(c) && Ordered(c) && d <= 3 && a < c.subdirs[d] && Splits(c.dir, c.subdirs[d], e, a)
    ensures Splits(c.file, c.files[d], e, 0)
  {
    hide Less, Ordered;
    OrderFacts(c, d);
    forall j | 0 <= j < c.files[d] ensures Less(e, Name(c.file, j)) {
      LessTrans(e, Name(c.dir, a), Name(c.file, j));
    }
  }

  lemma DividesHere(c: Config, d: nat, e: Str, a: nat, b: nat)
    requires Sized(c) && Ordered(c) && d <= 3 && Splits(c.dir, c.subdirs[d], e, a) && Splits(c.file, c.files[d], e, b)
    requires (a > 0 ==> Less(Name(c.dir, a - 1), e)) && (b > 0 ==> a == c.subdirs[d])
    ensures Divides(c, d, e, a, b)
  {
    hide Less, Ordered;
    OrderFacts(c, d);
    forall i | 0 <= i < a ensures Less(Name(c.dir, i), e) {
      if i < a - 1 {
        LessTrans(Name(c.dir, i), Name(c.dir, a - 1), e);
      }
    }
  }

  /** How many of the files of a directory are counted. */
  function FileToken(c: Config, d: nat, e: Str): (b: nat)
    requires Sized(c) && d <= 3
    ensures b <= c.files[d]
  {
    if c.files[d] == 0 then 0
    else
      var (n, comparison) := Check(c.file, e, c.files[d]);
      if comparison == -1 then n else n + 1
  }

  /** How many of the directories are counted whole, for an element that matches none. */
  function DirToken(r: (nat, int)): nat {
    if r.1 < 0 then r.0 else r.0 + 1
  }

  /** An element of startAfter is the name of a directory, as far as the code can tell. */
  predicate Enters(c: Config, d: nat, e: Str)
    requires Sized(c) && d <= 3
  {
    c.subdirs[d] > 0 && Check(c.dir, e, c.subdirs[d]).1 == 0
  }

  /** What one element adds to the token. */
  function ElementToken(c: Config, d: nat, e: Str): nat
    requires Sized(c) && d <= 3
  {
    if c.subdirs[d] == 0 then FileToken(c, d, e)
    else
      var r := Check(c.dir, e, c.subdirs[d]);
      if r.1 == 0 then r.0 * Objects(c, d + 1)
      else DirToken(r) * Objects(c, d + 1) + if r.1 > 0 && r.0 + 1 == c.subdirs[d] then FileToken(c, d, e) else 0
  }

  /** The token that listObjects computes for the elements of startAfter, from a directory at depth `d`. */
  function Token(c: Config, d: nat, es: Path): nat
    requires Sized(c) && d <= 3
    decreases |es|
  {
    if es == [] then 0
    else ElementToken(c, d, es[0]) + if Enters(c, d, es[0]) then Token(c, d + 1, es[1..]) else 0
  }

  /** One turn of listObjects' loop over the elements of startAfter. */
  method TakeElement(c: Config, d: nat, e: Str, before: nat) returns (more: bool, token: nat)
    requires Validated(c) && Ordered(c) && d <= 3
    ensures more == Enters(c, d, e) && token == before + ElementToken(c, d, e)
  {
    hide Ordered, Objects, Check, Falls, Misread, InOrder, Less;
    OrderFacts(c, d);
    token := before;
    var forFile := true;
    if c.subdirs[d] > 0 {
      var n, comparison := CheckPathElement(c.dir, e, c.subdirs[d]);
      if comparison == 0 {
        return true, token + n * Objects(c, d + 1);
      } else if comparison < 0 {
        token := token + n * Objects(c, d + 1);
        forFile := false;
      } else {
        token := token + (n + 1) * Objects(c, d + 1);
        forFile := n + 1 == c.subdirs[d];
      }
    }
    if forFile && c.files[d] > 0 {
      var n, comparison := CheckPathElement(c.file, e, c.files[d]);
      if comparison == -1 {
        token := token + n;
      } else {
        token := token + n + 1;
      }
    }
    more := false;
  }

  /** listObjects' loop over the elements of startAfter. */
  method StartToken(c: Config, d: nat, es: Path) returns (token: nat)
    requires Validated(c) && Ordered(c) && d <= 3
    ensures token == Token(c, d, es)
    ensures AllNamesOk(c, d) ==> Counts(c, d, es, token)
  {
    hide Ordered, ElementToken, Counts, AllNamesOk;
    if AllNamesOk(c, d) {
      TokenCounts(c, d, es);
    }
    token := 0;
    var i := 0;
    assert es[0..] == es;
    while i < |es|
      invariant 0 <= i <= |es| && d + i <= 3 && token + Token(c, d + i, es[i..]) == Token(c, d, es)
    {
      assert es[i..][0] == es[i] && es[i..][1..] == es[i + 1..];
      var more;
      more, token := TakeElement(c, d + i, es[i], token);
      if !more {
        return;
      }
      i := i + 1;
    }
  }

  lemma {:induction false} TokenBound(c: Config, d: nat, es: Path)
    requires Sized(c) && d <= 3
    ensures Token(c, d, es) <= Objects(c, d)
    decreases |es|
  {
    hide Objects, Check;
    ObjectsIs(c, d);
    if es != [] && c.subdirs[d] > 0 {
      var r := Check(c.dir, es[0], c.subdirs[d]);
      Product(r.0, c.subdirs[d], Objects(c, d + 1));
      if r.1 == 0 {
        TokenBound(c, d + 1, es[1..]);
      }
    }
  }

  // -------- When the token is right --------

  /** The directory names at a depth read back, and no other number prints among its names. */
  ghost predicate NamesOk(c: Config, d: nat)
    requires Sized(c) && d <= 3
  {
    ReadsBack(c.dir, c.subdirs[d]) && Closed(c.dir, c.subdirs[d]) && Closed(c.file, c.files[d])
  }

  ghost predicate AllNamesOk(c: Config, d: nat)
    requires Sized(c)
  {
    forall e :: d <= e <= 3 ==> NamesOk(c, e)
  }

  /** The names are in order, and the code can tell them from all other strings. */
  ghost predicate Formatted(c: Config)
    requires Sized(c)
  {
    Ordered(c) && AllNamesOk(c, 0)
  }

  lemma FileTokenSplits(c: Config, d: nat, e: Str)
    requires Sized(c) && d <= 3 && InOrder(c.file, c.files[d]) && !Misread(c.file, c.files[d], e)
    ensures Splits(c.file, c.files[d], e, FileToken(c, d, e))
  {
    hide Less, Falls, Misread, InOrder;
    if c.files[d] > 0 {
      CheckFallsIff(c.file, e, c.files[d]);
      var r := Check(c.file, e, c.files[d]);
      FallsSplit(c.file, c.files[d], e, r.0, r.1);
    }
  }

  /** Where there are no directories. */
  lemma TokenAtFiles(c: Config, d: nat, es: Path)
    requires Validated(c) && Ordered(c) && d <= 3 && es != [] && NamesOk(c, d) && c.subdirs[d] == 0
    ensures Counts(c, d, es, ElementToken(c, d, es[0]))
  {
    hide Ordered, Objects, Counts, Divides, Misread, InOrder, Less, Unrank, FileToken;
    OrderFacts(c, d);
    FileTokenSplits(c, d, es[0]);
    DividesHere(c, d, es[0], 0, FileToken(c, d, es[0]));
    StopHere(c, d, es, 0, FileToken(c, d, es[0]));
  }

  lemma DirTokenSplits(c: Config, d: nat, e: Str)
    requires Sized(c) && Ordered(c) && d <= 3 && NamesOk(c, d) && c.subdirs[d] > 0 && Check(c.dir, e, c.subdirs[d]).1 != 0
    ensures var a := DirToken(Check(c.dir, e, c.subdirs[d]));
      Splits(c.dir, c.subdirs[d], e, a) && (a > 0 ==> Less(Name(c.dir, a - 1), e)) && (a < c.subdirs[d] ==> Splits(c.file, c.files[d], e, 0))
  {
    hide Ordered, Falls, Misread, InOrder, Less, Splits;
    OrderFacts(c, d);
    var r := Check(c.dir, e, c.subdirs[d]);
    CheckFallsIff(c.dir, e, c.subdirs[d]);
    FallsSplit(c.dir, c.subdirs[d], e, r.0, r.1);
    if r.1 == 1 {
      StrictlyAfter(c.dir, c.subdirs[d], e);
    }
    if DirToken(r) < c.subdirs[d] {
      FilesAfter(c, d, e, DirToken(r));
    }
  }

  /** An element that is no directory's name. */
  lemma TokenStops(c: Config, d: nat, es: Path)
    requires Validated(c) && Ordered(c) && d <= 3 && es != [] && NamesOk(c, d) && !Enters(c, d, es[0])
    ensures Counts(c, d, es, ElementToken(c, d, es[0]))
  {
    hide Ordered, Objects, Counts, Divides, Misread, InOrder, Less, Unrank, FileToken, Check, Splits;
    if c.subdirs[d] == 0 {
      TokenAtFiles(c, d, es);
    } else {
      OrderFacts(c, d);
      FileTokenSplits(c, d, es[0]);
      DirTokenSplits(c, d, es[0]);
      var r := Check(c.dir, es[0], c.subdirs[d]);
      var b := if r.1 > 0 && r.0 + 1 == c.subdirs[d] then FileToken(c, d, es[0]) else 0;
      DividesHere(c, d, es[0], DirToken(r), b);
      StopHere(c, d, es, DirToken(r), b);
    }
  }

  /** If names read back, a string reported as greater is no name. */
  lemma StrictlyAfter(f: Format, limit: nat, e: Str)
    requires limit > 0 && InOrder(f, limit) && ReadsBack(f, limit) && !Misread(f, limit, e) && Check(f, e, limit).1 == 1
    ensures Less(Name(f, Check(f, e, limit).0), e)
  {
    hide Less, Misread;
    CheckFallsIff(f, e, limit);
    var n := Check(f, e, limit).0;
    if Name(f, n) == e {
      NameExactIff(f, limit, n);
    }
  }

  /** Then the token is the number of objects at or before startAfter, for every list of elements. */
  lemma {:induction false} TokenCounts(c: Config, d: nat, es: Path)
    requires Validated(c) && Ordered(c) && d <= 3 && AllNamesOk(c, d)
    ensures Counts(c, d, es, Token(c, d, es))
    decreases |es|
  {
    hide Ordered, Objects, Counts, Check, NamesOk;
    if es == [] {
      NothingBefore(c, d);
    } else if Enters(c, d, es[0]) {
      TokenCounts(c, d + 1, es[1..]);
      ExactIsName(c.dir, es[0], c.subdirs[d]);
      EnterDir(c, d, es, Check(c.dir, es[0], c.subdirs[d]).0, Token(c, d + 1, es[1..]));
    } else {
      TokenStops(c, d, es);
    }
  }

  lemma ExactIsName(f: Format, e: Str, limit: nat)
    requires limit > 0 && Check(f, e, limit).1 == 0
    ensures Name(f, Check(f, e, limit).0) == e
  {
  }
}
