/** Byte strings and their order, which is the order Go's `<` on strings and the object stores' listings use. */
module Bytes {

  type byte = x: int | 0 <= x < 256

  type Str = seq<byte>

  predicate Less(a: Str, b: Str) {
    b != [] && (a == [] || a[0] < b[0] || (a[0] == b[0] && Less(a[1..], b[1..])))
  }

  predicate AtMost(a: Str, b: Str) {
    a == b || Less(a, b)
  }

  lemma {:induction false} LessIsStrict(a: Str)
    ensures !Less(a, a)
  {
    if a != [] {
      LessIsStrict(a[1..]);
    }
  }

  lemma {:induction false} LessTrans(a: Str, b: Str, c: Str)
    requires Less(a, b) && Less(b, c)
    ensures Less(a, c)
  {
    if a != [] && a[0] == b[0] && b[0] == c[0] {
      LessTrans(a[1..], b[1..], c[1..]);
    }
  }

  lemma {:induction false} LessTotal(a: Str, b: Str)
    ensures a == b || Less(a, b) || Less(b, a)
  {
    if a != [] && b != [] && a[0] == b[0] {
      LessTotal(a[1..], b[1..]);
      assert a == [a[0]] + a[1..] && b == [b[0]] + b[1..];
    }
  }

  /** At most one of them, and one of them. */
  lemma Trichotomy(a: Str, b: Str)
    ensures a == b || Less(a, b) || Less(b, a)
    ensures !(Less(a, b) && Less(b, a)) && (a == b ==> !Less(a, b))
  {
    LessTotal(a, b);
    if Less(a, b) && Less(b, a) {
      LessTrans(a, b, a);
    }
    LessIsStrict(a);
  }

  lemma LessAtMost(a: Str, b: Str, c: Str)
    requires Less(a, b) && AtMost(b, c)
    ensures Less(a, c)
  {
    if b != c {
      LessTrans(a, b, c);
    }
  }
}
