/**
 The PSEUDO backend: a synthetic tree of at most four levels whose objects are
 never stored. An index is unranked into a path by mixed-radix arithmetic, and a
 `startAfter` string is ranked by one binary search per path element.
 */
module Pseudo {
  import opened Arithmetic
  import opened Bytes
  import opened Collections

  /** A printf format: how it prints a number, how Sscanf reads one back, and the first number used. */
  datatype Format = Format(show: nat -> Str, scan: Str -> Option<nat>, start: nat)

  datatype Config = Config(files: seq<nat>, subdirs: seq<nat>, dir: Format, file: Format)

  type Path = seq<Str>

  const MAX_UINT32: nat := 0xFFFF_FFFF

  // -------- What the configuration checks, and what they are for --------

  predicate Sized(c: Config) {
    |c.files| == 4 && |c.subdirs| == 4 && c.subdirs[3] == 0
  }

  /** The checks made on the shape of the tree when the configuration is read. */
  predicate Validated(c: Config) {
    && Sized(c)
    && (forall d :: 0 <= d < 4 ==> c.files[d] <= MAX_UINT32)
    && (forall d :: 0 <= d < 4 ==> c.subdirs[d] <= MAX_UINT32)
    && (if c.subdirs[0] == 0 then
          c.files[1] + c.files[2] + c.files[3] + c.subdirs[1] + c.subdirs[2] == 0
        else
          && c.files[1] + c.subdirs[1] > 0
          && (if c.subdirs[1] == 0 then
                c.files[2] + c.files[3] + c.subdirs[2] == 0
              else
                && c.files[2] + c.subdirs[2] > 0
                && (if c.subdirs[2] == 0 then c.files[3] == 0 else c.files[3] > 0)))
  }

  function Name(f: Format, i: nat): Str {
    f.show(f.start + i)
  }

  /** The names are in order over the numbers used. */
  ghost predicate InOrder(f: Format, limit: nat) {
    forall i, j :: 0 <= i < j < limit ==> Less(Name(f, i), Name(f, j))
  }

  /** The name formats preserve order, and directories come before files. */
  ghost predicate Ordered(c: Config)
    requires Sized(c)
  {
    forall d :: 0 <= d < 4 ==>
      && InOrder(c.dir, c.subdirs[d]) && InOrder(c.file, c.files[d])
      && (forall i, j :: 0 <= i < c.subdirs[d] && 0 <= j < c.files[d] ==> Less(Name(c.dir, i), Name(c.file, j)))
  }

  /** How many objects there are in a directory at this depth. */
  function Objects(c: Config, d: nat): nat
    requires Sized(c) && d <= 3
    decreases 3 - d
  {
    if d == 3 then c.files[3] else c.files[d] + c.subdirs[d] * Objects(c, d + 1)
  }

  lemma ObjectsIs(c: Config, d: nat)
    requires Sized(c) && d <= 3
    ensures d < 3 ==> Objects(c, d) == c.files[d] + c.subdirs[d] * Objects(c, d + 1)
    ensures Objects(c, d) == c.files[d] + DirObjects(c, d) >= c.files[d]
  {
  }

  /** A directory with subdirectories has objects in each of them, so unranking never divides by zero. */
  lemma SubdirsHoldObjects(c: Config, d: nat)
    requires Validated(c) && d < 3 && c.subdirs[d] > 0
    ensures Objects(c, d + 1) > 0
    decreases 3 - d
  {
    hide Objects;
    ObjectsIs(c, d + 1);
    if d < 2 && c.files[d + 1] == 0 {
      SubdirsHoldObjects(c, d + 1);
      Positive(c.subdirs[d + 1], Objects(c, d + 2));
    }
  }

  // -------- uint64 --------

  /** setupPSEUDOContext's arithmetic, which wraps. */
  function Wrapped(c: Config, d: nat): nat
    requires Sized(c) && d <= 3
    decreases 3 - d
  {
    if d == 3 then c.files[3] else (c.files[d] + c.subdirs[d] * Wrapped(c, d + 1)) % TWO_TO_THE_64
  }

  lemma WrapExact(c: Config, d: nat)
    requires Validated(c) && d <= 3 && Objects(c, d) < TWO_TO_THE_64 && (forall e :: 0 <= e < d ==> c.subdirs[e] > 0)
    ensures Wrapped(c, d) == Objects(c, d) && forall e :: d <= e <= 3 ==> Wrapped(c, e) == Objects(c, e)
    decreases 3 - d
  {
    hide Objects, Wrapped;
    ObjectsIs(c, d);
    WrappedIs(c, d);
    if d < 3 {
      if c.subdirs[d] > 0 {
        if Objects(c, d + 1) > 0 {
          Positive(c.subdirs[d], Objects(c, d + 1));
        }
        WrapExact(c, d + 1);
      } else {
        EmptyBelow(c, d);
      }
    }
  }

  lemma WrappedIs(c: Config, d: nat)
    requires Sized(c) && d <= 3
    ensures d == 3 ==> Wrapped(c, d) == Objects(c, d)
    ensures d < 3 && Wrapped(c, d + 1) == Objects(c, d + 1) && Objects(c, d) < TWO_TO_THE_64 ==> Wrapped(c, d) == Objects(c, d)
  {
  }

  lemma EmptyBelow(c: Config, d: nat)
    requires Validated(c) && d < 3 && c.subdirs[d] == 0
    ensures forall e :: d < e <= 3 ==> Wrapped(c, e) == Objects(c, e)
    ensures Wrapped(c, d) == Objects(c, d)
  {
    assert Objects(c, 3) == Wrapped(c, 3);
    if d < 2 {
      assert c.subdirs[2] == 0 && c.files[2] == 0;
      assert Objects(c, 2) == 0 == Wrapped(c, 2);
    }
    if d < 1 {
      assert c.subdirs[1] == 0;
      assert Objects(c, 1) == 0 == Wrapped(c, 1);
    }
  }

  /** The counts are right exactly if the whole tree has fewer than 2^64 objects. */
  lemma CountsExactIff(c: Config)
    requires Validated(c)
    ensures (forall d :: 0 <= d <= 3 ==> Wrapped(c, d) == Objects(c, d)) <==> Objects(c, 0) < TWO_TO_THE_64
  {
    if Objects(c, 0) < TWO_TO_THE_64 {
      WrapExact(c, 0);
    } else {
      assert Wrapped(c, 0) != Objects(c, 0);
    }
  }

  /** A configuration that passes every check and yet makes the code divide by zero. */
  lemma OverflowDividesByZero(dir: Format, file: Format)
    ensures var c := Config([1, 0, 2, MAX_UINT32], [1, 0x8000_0000, 2, 0], dir, file);
      Validated(c) && c.subdirs[0] > 0 && Wrapped(c, 1) == 0 && Wrapped(c, 0) > 0
  {
    var c := Config([1, 0, 2, MAX_UINT32], [1, 0x8000_0000, 2, 0], dir, file);
    assert Wrapped(c, 2) == 0x2_0000_0000;
  }

  // -------- Unranking --------

  lemma Split(k: nat, o: nat, n: nat)
    requires o > 0
    ensures 0 <= k - k / o * o < o && (k / o < n <==> k < n * o)
  {
    if k / o < n {
      Product(k / o, n, o);
    } else if n < k / o {
      Product(n, k / o, o);
    }
  }

  /** listObjectsIndexedObjectPathPrefixPruned, without the "/" it puts before every element. */
  function Unrank(c: Config, d: nat, k: nat): Path
    requires Validated(c) && d <= 3 && k < Objects(c, d)
    decreases 3 - d
  {
    if c.subdirs[d] > 0 then
      SubdirsHoldObjects(c, d);
      var o := Objects(c, d + 1);
      Split(k, o, c.subdirs[d]);
      var i := k / o;
      if i < c.subdirs[d] then [Name(c.dir, i)] + Unrank(c, d + 1, k - i * o)
      else [Name(c.file, k - c.subdirs[d] * o)]
    else [Name(c.file, k)]
  }

  /** An object's path, from a directory at depth `d` down. */
  ghost predicate IsObject(c: Config, d: nat, p: Path)
    requires Sized(c) && d <= 3
    decreases 3 - d
  {
    || (|p| == 1 && exists j :: 0 <= j < c.files[d] && p[0] == Name(c.file, j))
    || (|p| > 1 && d < 3 && IsObject(c, d + 1, p[1..]) && exists i :: 0 <= i < c.subdirs[d] && p[0] == Name(c.dir, i))
  }

  lemma UnrankIs(c: Config, d: nat, k: nat, i: nat, r: nat)
    requires Validated(c) && d < 3 && i < c.subdirs[d] && r < Objects(c, d + 1) && k < Objects(c, d)
    requires k / Objects(c, d + 1) == i && k - i * Objects(c, d + 1) == r
    ensures Unrank(c, d, k) == [Name(c.dir, i)] + Unrank(c, d + 1, r)
  {
  }

  /** The index of object `r` of subdirectory `i`. */
  lemma UnrankInDir(c: Config, d: nat, i: nat, r: nat)
    requires Validated(c) && d < 3 && i < c.subdirs[d] && r < Objects(c, d + 1)
    ensures i * Objects(c, d + 1) + r < Objects(c, d)
    ensures Unrank(c, d, i * Objects(c, d + 1) + r) == [Name(c.dir, i)] + Unrank(c, d + 1, r)
  {
    hide Objects, Unrank;
    var o := Objects(c, d + 1);
    ObjectsIs(c, d);
    Product(i, c.subdirs[d], o);
    Quotient(i * o + r, o, i, r);
    UnrankIs(c, d, i * o + r, i, r);
  }

  function DirObjects(c: Config, d: nat): nat
    requires Sized(c) && d <= 3
  {
    if d == 3 then 0 else c.subdirs[d] * Objects(c, d + 1)
  }

  lemma NoDirObjects(c: Config, d: nat)
    requires Sized(c) && d <= 3 && c.subdirs[d] == 0
    ensures DirObjects(c, d) == 0
  {
  }

  lemma UnrankIsFile(c: Config, d: nat, k: nat, j: nat)
    requires Validated(c) && d <= 3 && k < Objects(c, d) && k == DirObjects(c, d) + j
    requires c.subdirs[d] > 0 ==> Objects(c, d + 1) > 0 && k / Objects(c, d + 1) >= c.subdirs[d]
    ensures Unrank(c, d, k) == [Name(c.file, j)]
  {
  }

  /** The index of file `j` of the directory itself. */
  lemma UnrankOfFile(c: Config, d: nat, j: nat)
    requires Validated(c) && d <= 3 && j < c.files[d]
    ensures DirObjects(c, d) + j < Objects(c, d) && Unrank(c, d, DirObjects(c, d) + j) == [Name(c.file, j)]
  {
    hide Objects, Unrank;
    ObjectsIs(c, d);
    if c.subdirs[d] > 0 {
      SubdirsHoldObjects(c, d);
      Split(DirObjects(c, d) + j, Objects(c, d + 1), c.subdirs[d]);
    } else {
      NoDirObjects(c, d);
    }
    UnrankIsFile(c, d, DirObjects(c, d) + j, j);
  }

  lemma SomeSubdirs(c: Config, d: nat)
    requires Sized(c) && d <= 3 && DirObjects(c, d) > 0
    ensures d < 3 && c.subdirs[d] > 0
  {
  }

  /** Every index is of one kind or the other. */
  lemma Placed(c: Config, d: nat, k: nat) returns (inDir: bool, i: nat, r: nat)
    requires Validated(c) && d <= 3 && k < Objects(c, d)
    ensures inDir == (k < DirObjects(c, d))
    ensures inDir ==> d < 3 && i < c.subdirs[d] && r < Objects(c, d + 1) && k == i * Objects(c, d + 1) + r
    ensures inDir ==> Unrank(c, d, k) == [Name(c.dir, i)] + Unrank(c, d + 1, r)
    ensures !inDir ==> i < c.files[d] && k == DirObjects(c, d) + i && Unrank(c, d, k) == [Name(c.file, i)]
  {
    hide Objects, Unrank;
    ObjectsIs(c, d);
    inDir := k < DirObjects(c, d);
    if inDir {
      SomeSubdirs(c, d);
      SubdirsHoldObjects(c, d);
      Split(k, Objects(c, d + 1), c.subdirs[d]);
      i := k / Objects(c, d + 1);
      r := k - i * Objects(c, d + 1);
      UnrankInDir(c, d, i, r);
    } else {
      i, r := k - DirObjects(c, d), 0;
      UnrankOfFile(c, d, i);
    }
  }

  lemma {:induction false} UnrankIsObject(c: Config, d: nat, k: nat)
    requires Validated(c) && d <= 3 && k < Objects(c, d)
    ensures IsObject(c, d, Unrank(c, d, k))
    decreases 3 - d
  {
    var inDir, i, r := Placed(c, d, k);
    if inDir {
      UnrankIsObject(c, d + 1, r);
      var rest := Unrank(c, d + 1, r);
      assert Unrank(c, d, k)[1..] == rest && |rest| > 0;
    }
  }

  /** Every object has an index. */
  lemma {:induction false} UnrankIsOnto(c: Config, d: nat, p: Path) returns (k: nat)
    requires Validated(c) && d <= 3 && IsObject(c, d, p)
    ensures k < Objects(c, d) && Unrank(c, d, k) == p
    decreases 3 - d
  {
    hide Objects, Unrank;
    if |p| == 1 {
      var j :| 0 <= j < c.files[d] && p[0] == Name(c.file, j);
      UnrankOfFile(c, d, j);
      k := DirObjects(c, d) + j;
    } else {
      var i :| 0 <= i < c.subdirs[d] && p[0] == Name(c.dir, i);
      var r := UnrankIsOnto(c, d + 1, p[1..]);
      UnrankInDir(c, d, i, r);
      k := i * Objects(c, d + 1) + r;
      assert p == [p[0]] + p[1..];
    }
  }

  // -------- Path-element order --------

  predicate PathLess(p: Path, q: Path) {
    q != [] && (p == [] || Less(p[0], q[0]) || (p[0] == q[0] && PathLess(p[1..], q[1..])))
  }

  predicate AtOrBefore(p: Path, q: Path) {
    p == q || PathLess(p, q)
  }

  lemma OrderFacts(c: Config, d: nat)
    requires Sized(c) && Ordered(c) && d <= 3
    ensures InOrder(c.dir, c.subdirs[d]) && InOrder(c.file, c.files[d])
    ensures forall i, j :: 0 <= i < c.subdirs[d] && 0 <= j < c.files[d] ==> Less(Name(c.dir, i), Name(c.file, j))
  {
  }

  /** Unranking is strictly increasing, and so never gives one path twice. */
  lemma {:induction false} UnrankIncreases(c: Config, d: nat, j: nat, k: nat)
    requires Validated(c) && Ordered(c) && d <= 3 && j < k < Objects(c, d)
    ensures PathLess(Unrank(c, d, j), Unrank(c, d, k))
    decreases 3 - d
  {
    hide Ordered, Unrank, Objects;
    OrderFacts(c, d);
    var inDirJ, ij, rj := Placed(c, d, j);
    var inDirK, ik, rk := Placed(c, d, k);
    if inDirK {
      if ij == ik {
        UnrankIncreases(c, d + 1, rj, rk);
      } else if ij > ik {
        Product(ik, ij, Objects(c, d + 1));
      }
    }
  }

  // -------- The full listing --------

  /** Every object below a directory, in order. */
  function Listing(c: Config, d: nat): (l: seq<Path>)
    requires Validated(c) && d <= 3
  {
    seq(Objects(c, d), k requires 0 <= k < Objects(c, d) => Unrank(c, d, k))
  }

  /** There are directories at depth `d`. */
  predicate Exists(c: Config, d: nat) {
    Sized(c) && d <= 3 && forall e :: 0 <= e < d ==> c.subdirs[e] > 0
  }

  function MaxPathDepth(c: Config): (m: nat)
    requires Sized(c)
  {
    if c.files[3] > 0 then 3 else if c.files[2] > 0 then 2 else if c.files[1] > 0 then 1 else 0
  }

  /** Every directory there is lies at or above the deepest file, so there is room for an element of startAfter. */
  lemma DirectoriesAreShallow(c: Config, d: nat)
    requires Validated(c) && Exists(c, d)
    ensures d <= MaxPathDepth(c)
  {
  }
}
