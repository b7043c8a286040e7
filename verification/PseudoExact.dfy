/**
 When the token is wrong: for every name that does not read back, and for every
 string misread among the names, some `startAfter` gets a wrong token.
 */
module PseudoExact {
  import opened Arithmetic
  import opened Bytes
  import opened Collections
  import opened Pseudo
  import opened PseudoRank

  lemma NotCounted(c: Config, d: nat, es: Path, token: nat, k: nat)
    requires Validated(c) && d <= 3 && k < Objects(c, d) && k < token && !AtOrBefore(Unrank(c, d, k), es)
    ensures !Counts(c, d, es, token)
  {
  }

  /** A directory after `e` is counted whole. */
  lemma DirMisread(c: Config, d: nat, es: Path)
    requires Validated(c) && d <= 3 && es != [] && Misread(c.dir, c.subdirs[d], es[0])
    ensures !Counts(c, d, es, Token(c, d, es))
  {
    hide Objects, Unrank, Less, Counts;
    var s, o := c.subdirs[d], Below(c, d);
    SubdirsHoldObjects(c, d);
    Trichotomy(es[0], Name(c.dir, s - 1));
    UnrankInDir(c, d, s - 1, 0);
    AfterIsNotBefore(Unrank(c, d, (s - 1) * o + 0), es);
    Product(s - 1, s, o);
    NotCounted(c, d, es, Token(c, d, es), (s - 1) * o + 0);
  }

  lemma InsideIsAfter(x: Str, p: Path)
    requires p != []
    ensures !AtOrBefore([x] + p, [x])
  {
    SameHead(x, p, [x]);
    assert [x][1..] == [];
  }

  lemma UnrankIsLong(c: Config, d: nat, k: nat)
    requires Validated(c) && d <= 3 && k < Objects(c, d)
    ensures Unrank(c, d, k) != []
  {
    var inDir, i, r := Placed(c, d, k);
  }

  /** A directory whose name does not read back is counted whole, though everything in it comes after its name. */
  lemma DirUnread(c: Config, d: nat, i: nat)
    requires Validated(c) && d <= 3 && InOrder(c.dir, c.subdirs[d]) && i < c.subdirs[d] && c.dir.scan(Name(c.dir, i)) != Some(c.dir.start + i)
    ensures !Counts(c, d, [Name(c.dir, i)], Token(c, d, [Name(c.dir, i)]))
  {
    hide Objects, Unrank, Less, Counts, Check, InOrder;
    var e, o := Name(c.dir, i), Below(c, d);
    SubdirsHoldObjects(c, d);
    NameExactIff(c.dir, c.subdirs[d], i);
    var r := Check(c.dir, e, c.subdirs[d]);
    UnrankInDir(c, d, i, 0);
    UnrankIsLong(c, d + 1, 0);
    InsideIsAfter(e, Unrank(c, d + 1, 0));
    Product(i, r.0 + 1, o);
    NotCounted(c, d, [e], Token(c, d, [e]), i * o + 0);
  }

  /** A file after `e` is counted. */
  lemma FileMisread(c: Config, d: nat, e: Str)
    requires Validated(c) && Ordered(c) && d <= 3 && Misread(c.file, c.files[d], e)
    ensures !Counts(c, d, [e], Token(c, d, [e]))
  {
    hide Objects, Unrank, Less, Counts, Ordered;
    OrderFacts(c, d);
    var s, f := c.subdirs[d], c.files[d];
    Trichotomy(e, Name(c.file, f - 1));
    Trichotomy(e, Name(c.file, 0));
    if s > 0 {
      LessAtMost(Name(c.dir, s - 1), Name(c.file, 0), e);
      LessAtMost(Name(c.dir, 0), Name(c.file, 0), e);
      Trichotomy(Name(c.dir, 0), e);
    }
    ObjectsIs(c, d);
    AllFilesCounted(c, d, e);
    UnrankOfFile(c, d, f - 1);
    AfterIsNotBefore(Unrank(c, d, DirObjects(c, d) + (f - 1)), [e]);
    NotCounted(c, d, [e], Token(c, d, [e]), DirObjects(c, d) + (f - 1));
  }

  lemma AllFilesCounted(c: Config, d: nat, e: Str)
    requires Validated(c) && d <= 3 && Misread(c.file, c.files[d], e)
    requires c.subdirs[d] > 0 ==> Less(Name(c.dir, c.subdirs[d] - 1), e) && !Less(e, Name(c.dir, 0))
    ensures Token(c, d, [e]) == DirObjects(c, d) + c.files[d]
  {
    hide Objects;
    Trichotomy(e, Name(c.file, c.files[d] - 1));
    if c.subdirs[d] == 0 {
      NoDirObjects(c, d);
    }
  }

  /** The string is a number printed in one of the formats. */
  ghost predicate Printed(c: Config, e: Str) {
    (exists n :: e == c.dir.show(n)) || (exists n :: e == c.file.show(n))
  }

  lemma NameIsPrinted(c: Config, i: nat)
    ensures Printed(c, Name(c.dir, i))
  {
  }

  /** Where the names of a depth are not all right, some element gets a wrong token there. */
  lemma WrongHere(c: Config, d: nat) returns (e: Str)
    requires Validated(c) && Ordered(c) && d <= 3 && !NamesOk(c, d)
    ensures !Counts(c, d, [e], Token(c, d, [e])) && Printed(c, e)
  {
    hide Objects, Counts, Ordered, Token;
    OrderFacts(c, d);
    if !ReadsBack(c.dir, c.subdirs[d]) {
      var i :| 0 <= i < c.subdirs[d] && c.dir.scan(Name(c.dir, i)) != Some(c.dir.start + i);
      e := Name(c.dir, i);
      DirUnread(c, d, i);
      NameIsPrinted(c, i);
    } else if !Closed(c.dir, c.subdirs[d]) {
      e :| Misread(c.dir, c.subdirs[d], e);
      DirMisread(c, d, [e]);
      assert c.dir.show(c.dir.scan(e).value) == e;
    } else {
      e :| Misread(c.file, c.files[d], e);
      FileMisread(c, d, e);
      assert c.file.show(c.file.scan(e).value) == e;
    }
  }

  lemma LeaveDirAt(c: Config, d: nat, rs: Path, n: nat, t: nat, k: nat)
    requires Validated(c) && d < 3 && n < c.subdirs[d] && rs != [] && rs[0] == Name(c.dir, n)
    requires Counts(c, d, rs, n * Objects(c, d + 1) + t) && k < Objects(c, d + 1)
    ensures k < t <==> AtOrBefore(Unrank(c, d + 1, k), rs[1..])
  {
    hide Objects, Unrank;
    UnrankInDir(c, d, n, k);
    SameHead(rs[0], Unrank(c, d + 1, k), rs);
  }

  /** If the token is right for a path into a directory, it is right inside. */
  lemma LeaveDir(c: Config, d: nat, rs: Path, n: nat, t: nat)
    requires Validated(c) && d < 3 && n < c.subdirs[d] && rs != [] && rs[0] == Name(c.dir, n) && t <= Objects(c, d + 1)
    requires Counts(c, d, rs, n * Objects(c, d + 1) + t)
    ensures Counts(c, d + 1, rs[1..], t)
  {
    hide Objects, Unrank;
    var below := d + 1;
    forall k | 0 <= k < Objects(c, below) ensures k < t <==> AtOrBefore(Unrank(c, below, k), rs[1..]) {
      LeaveDirAt(c, d, rs, n, t, k);
    }
  }

  lemma NoNamesAreOk(c: Config, d: nat)
    requires Sized(c) && d <= 3 && c.subdirs[d] == 0 && c.files[d] == 0
    ensures NamesOk(c, d)
  {
  }

  /** Names that are not right belong to a directory that exists. */
  lemma OnlyWhereNamesAre(c: Config, d: nat)
    requires Validated(c) && d <= 3 && !NamesOk(c, d)
    ensures Exists(c, d)
  {
    if c.subdirs[d] == 0 && c.files[d] == 0 {
      NoNamesAreOk(c, d);
    }
  }

  lemma EntersFirst(c: Config, d: nat, es: Path)
    requires Validated(c) && Ordered(c) && d < 3 && c.subdirs[d] > 0 && NamesOk(c, d) && es != [] && es[0] == Name(c.dir, 0)
    ensures Token(c, d, es) == 0 * Objects(c, d + 1) + Token(c, d + 1, es[1..])
  {
    hide Objects, Ordered, Check;
    OrderFacts(c, d);
    NameExactIff(c.dir, c.subdirs[d], 0);
  }

  /** Where the names of some depth are not all right, some list of elements that leads there gets a wrong token. */
  lemma {:induction false} WrongBelow(c: Config, d: nat, depth: nat) returns (es: Path)
    requires Validated(c) && Ordered(c) && d <= depth <= 3 && !NamesOk(c, depth) && Exists(c, d)
    ensures !Counts(c, d, es, Token(c, d, es)) && 0 < |es| <= depth + 1 - d && forall k :: 0 <= k < |es| ==> Printed(c, es[k])
    decreases depth - d
  {
    hide Objects, Ordered, Counts, Token, Printed, NamesOk;
    if !NamesOk(c, d) {
      var e := WrongHere(c, d);
      es := [e];
    } else {
      OnlyWhereNamesAre(c, depth);
      assert c.subdirs[d] > 0;
      var rest := WrongBelow(c, d + 1, depth);
      es := [Name(c.dir, 0)] + rest;
      NameIsPrinted(c, 0);
      assert es[1..] == rest;
      EntersFirst(c, d, es);
      TokenBound(c, d + 1, rest);
      if Counts(c, d, es, Token(c, d, es)) {
        LeaveDir(c, d, es, 0, Token(c, d + 1, rest));
      }
    }
  }

  ghost predicate AlwaysRight(c: Config, d: nat)
    requires Validated(c) && d <= 3
  {
    forall es :: Counts(c, d, es, Token(c, d, es))
  }

  /**
   For names in order, the token is the number of objects at or before startAfter for every list of
   elements exactly if directory names read back and no other number prints among the names.
   */
  lemma TokensRightIff(c: Config, d: nat)
    requires Validated(c) && Ordered(c) && Exists(c, d)
    ensures AlwaysRight(c, d) <==> AllNamesOk(c, d)
  {
    hide Counts, Ordered, Token, NamesOk;
    if AllNamesOk(c, d) {
      forall es ensures Counts(c, d, es, Token(c, d, es)) {
        TokenCounts(c, d, es);
      }
    } else {
      var depth :| d <= depth <= 3 && !NamesOk(c, depth);
      var es := WrongBelow(c, d, depth);
    }
  }
}
