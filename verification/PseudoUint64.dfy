/**
 The PSEUDO backend's arithmetic as the code does it, in uint64: where the whole
 tree has fewer than 2^64 objects, every token and every path is the exact one.
 */
module PseudoUint64 {
  import opened Arithmetic
  import opened Bytes
  import opened Collections
  import opened Pseudo
  import opened PseudoRank

  function Wrap(n: nat): nat {
    n % TWO_TO_THE_64
  }

  /** listObjectsIndexedObjectPathPrefixPruned on wrapped counts; None where it divides by zero. */
  function Unrank64(c: Config, d: nat, k: nat): Option<Path>
    requires Sized(c) && d <= 3
    decreases 3 - d
  {
    if c.subdirs[d] == 0 then Some([Name(c.file, k)])
    else
      var o := Wrapped(c, d + 1);
      if o == 0 then None
      else if k / o < c.subdirs[d] then
        var below := Unrank64(c, d + 1, Wrap(k + TWO_TO_THE_64 - Wrap(k / o * o)));
        if below == None then None else Some([Name(c.dir, k / o)] + below.value)
      else Some([Name(c.file, Wrap(k + TWO_TO_THE_64 - Wrap(c.subdirs[d] * o)))])
  }

  lemma WrapSmall(n: nat)
    requires n < TWO_TO_THE_64
    ensures Wrap(n) == n
  {
  }

  lemma WrapMinus(k: nat, x: nat)
    requires x <= k < TWO_TO_THE_64
    ensures Wrap(k + TWO_TO_THE_64 - Wrap(x)) == k - x
  {
  }

  /** What one element adds, in uint64. */
  function Element64(c: Config, d: nat, e: Str, before: nat): nat
    requires Sized(c) && d <= 3
  {
    if c.subdirs[d] == 0 then Wrap(before + FileToken(c, d, e))
    else
      var r := Check(c.dir, e, c.subdirs[d]);
      var o := Wrapped(c, d + 1);
      if r.1 == 0 then Wrap(before + Wrap(r.0 * o))
      else
        var dirs := Wrap(before + Wrap(DirToken(r) * o));
        if r.1 > 0 && r.0 + 1 == c.subdirs[d] then Wrap(dirs + FileToken(c, d, e)) else dirs
  }

  /** listObjects' token, in uint64. */
  function Token64(c: Config, d: nat, es: Path, before: nat): nat
    requires Sized(c) && d <= 3
    decreases |es|
  {
    if es == [] then before
    else
      var token := Element64(c, d, es[0], before);
      if Enters(c, d, es[0]) then Token64(c, d + 1, es[1..], token) else token
  }

  /** Below a directory that exists there are no more objects than in the whole tree, and the counts are exact. */
  lemma {:induction false} CountsBelow(c: Config, d: nat)
    requires Validated(c) && Exists(c, d) && Objects(c, 0) < TWO_TO_THE_64
    ensures Objects(c, d) <= Objects(c, 0) && forall e :: 0 <= e <= 3 ==> Wrapped(c, e) == Objects(c, e)
  {
    hide Objects, Wrapped;
    CountsExactIff(c);
    if d > 0 {
      CountsBelow(c, d - 1);
      ObjectsIs(c, d - 1);
      SubdirsHoldObjects(c, d - 1);
      Positive(c.subdirs[d - 1], Objects(c, d));
    }
  }

  lemma ElementFits(c: Config, d: nat, e: Str, before: nat)
    requires Validated(c) && Exists(c, d) && Objects(c, 0) < TWO_TO_THE_64 && before + Objects(c, d) < TWO_TO_THE_64
    ensures Element64(c, d, e, before) == before + ElementToken(c, d, e)
    ensures Enters(c, d, e) ==> before + ElementToken(c, d, e) + Objects(c, d + 1) <= before + Objects(c, d)
  {
    hide Objects, Wrapped, Check, FileToken, Wrap;
    ObjectsIs(c, d);
    CountsBelow(c, d);
    if c.subdirs[d] == 0 {
      WrapSmall(before + FileToken(c, d, e));
    } else {
      var r, o := Check(c.dir, e, c.subdirs[d]), Objects(c, d + 1);
      DirsFit(before, r.0, c.subdirs[d], o, c.files[d]);
      if r.0 + 1 == c.subdirs[d] {
        WrapSmall(before + (r.0 + 1) * o + FileToken(c, d, e));
      }
    }
  }

  lemma DirsFit(before: nat, i: nat, n: nat, o: nat, files: nat)
    requires i < n && before + n * o + files < TWO_TO_THE_64
    ensures (i + 1) * o == i * o + o <= n * o
    ensures Wrap(i * o) == i * o && Wrap(before + i * o) == before + i * o
    ensures Wrap((i + 1) * o) == (i + 1) * o && Wrap(before + (i + 1) * o) == before + (i + 1) * o
  {
    hide Wrap;
    Product(i, n, o);
    WrapSmall(i * o);
    WrapSmall(before + i * o);
    WrapSmall((i + 1) * o);
    WrapSmall(before + (i + 1) * o);
  }

  /** Every sum and product on the way to the token stays below 2^64. */
  lemma {:induction false} TokenFits(c: Config, d: nat, es: Path, before: nat)
    requires Validated(c) && Exists(c, d) && Objects(c, 0) < TWO_TO_THE_64 && before + Objects(c, d) < TWO_TO_THE_64
    ensures Token64(c, d, es, before) == before + Token(c, d, es)
    decreases |es|
  {
    hide Objects, Element64, ElementToken;
    if es != [] {
      ElementFits(c, d, es[0], before);
      if Enters(c, d, es[0]) {
        TokenFits(c, d + 1, es[1..], before + ElementToken(c, d, es[0]));
      }
    }
  }

  /** Where the whole tree has fewer than 2^64 objects, the token in uint64 is the exact one. */
  lemma TokenIsExact(c: Config, d: nat, es: Path)
    requires Validated(c) && Exists(c, d) && Objects(c, 0) < TWO_TO_THE_64
    ensures Token64(c, d, es, 0) == Token(c, d, es)
  {
    CountsBelow(c, d);
    TokenFits(c, d, es, 0);
  }

  /** And so is every path; nothing divides by zero. */
  lemma {:induction false} UnrankIsExact(c: Config, d: nat, k: nat)
    requires Validated(c) && Exists(c, d) && Objects(c, 0) < TWO_TO_THE_64 && k < Objects(c, d)
    ensures Unrank64(c, d, k) == Some(Unrank(c, d, k))
    decreases 3 - d
  {
    hide Objects, Wrapped, Wrap, Unrank;
    CountsBelow(c, d);
    var inDir, i, r := Placed(c, d, k);
    if c.subdirs[d] > 0 {
      var o := Objects(c, d + 1);
      SubdirsHoldObjects(c, d);
      Split(k, o, c.subdirs[d]);
      if inDir {
        Quotient(k, o, i, r);
        WrapMinus(k, i * o);
        UnrankIsExact(c, d + 1, r);
      } else {
        WrapMinus(k, c.subdirs[d] * o);
      }
    } else {
      NoDirObjects(c, d);
    }
  }
}
