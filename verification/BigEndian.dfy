/** Fixed-width big-endian numbers: byte order is numeric order. */
module BigEndian {
  import opened Arithmetic
  import opened Bytes

  function Power(w: nat): (p: nat)
    ensures p > 0
  {
    if w == 0 then 1 else 256 * Power(w - 1)
  }

  const MAX_UINT64: nat := 0xFFFF_FFFF_FFFF_FFFF

  predicate Fits(n: nat, w: nat) {
    n < Power(w)
  }

  lemma HeadFits(n: nat, w: nat)
    requires w > 0 && Fits(n, w)
    ensures n / Power(w - 1) < 256 && Fits(n % Power(w - 1), w - 1)
  {
    QuotientBelow(n, Power(w - 1), 256);
  }

  function Head(n: nat, w: nat): byte
    requires w > 0 && Fits(n, w)
  {
    HeadFits(n, w);
    n / Power(w - 1)
  }

  function Tail(n: nat, w: nat): (r: nat)
    requires w > 0 && Fits(n, w)
    ensures Fits(r, w - 1)
  {
    HeadFits(n, w);
    n % Power(w - 1)
  }

  /** The `w` bytes of `n`, most significant first. */
  function Encode(n: nat, w: nat): (s: Str)
    requires Fits(n, w)
    ensures |s| == w
  {
    if w == 0 then [] else [Head(n, w)] + Encode(Tail(n, w), w - 1)
  }

  function Decode(s: Str): nat {
    if s == [] then 0 else s[0] * Power(|s| - 1) + Decode(s[1..])
  }

  lemma EncodeIs(n: nat, w: nat)
    requires w > 0 && Fits(n, w)
    ensures var p := Power(w - 1);
      n / p < 256 && Fits(n % p, w - 1) && Encode(n, w) == [n / p] + Encode(n % p, w - 1)
  {
    HeadFits(n, w);
  }

  lemma {:induction false} DecodeEncode(n: nat, w: nat)
    requires Fits(n, w)
    ensures Decode(Encode(n, w)) == n
  {
    hide Encode;
    if w > 0 {
      EncodeIs(n, w);
      DecodeEncode(n % Power(w - 1), w - 1);
      assert Encode(n, w)[1..] == Encode(n % Power(w - 1), w - 1);
    }
  }

  lemma {:induction false} DecodeFits(s: Str)
    ensures Fits(Decode(s), |s|)
  {
    if s != [] {
      DecodeFits(s[1..]);
      if s[0] < 255 {
        Product(s[0], 255, Power(|s| - 1));
      } else {
        Product(254, 255, Power(|s| - 1));
      }
    }
  }

  lemma {:induction false} EncodeDecode(s: Str)
    ensures Fits(Decode(s), |s|) && Encode(Decode(s), |s|) == s
  {
    DecodeFits(s);
    if s != [] {
      DecodeFits(s[1..]);
      EncodeDecode(s[1..]);
      var p, rest := Power(|s| - 1), Decode(s[1..]);
      Quotient(Decode(s), p, s[0], rest);
      Remainder(Decode(s), p, s[0], rest);
      assert s == [s[0]] + s[1..];
    }
  }

  lemma Remainder(k: nat, o: nat, i: nat, r: nat)
    requires o > 0 && k == i * o + r && r < o
    ensures k % o == r
  {
    Quotient(k, o, i, r);
  }

  lemma SameHead(x: byte, a: Str, b: Str)
    ensures Less([x] + a, [x] + b) <==> Less(a, b)
  {
    assert ([x] + a)[1..] == a && ([x] + b)[1..] == b;
  }

  lemma SmallerHead(x: byte, a: Str, y: byte, b: Str)
    requires x < y
    ensures Less([x] + a, [y] + b)
  {
  }

  /** A smaller number comes first, whatever follows it. */
  lemma {:induction false} SmallerFirst(n: nat, m: nat, w: nat, a: Str, b: Str)
    requires n < m && Fits(m, w) && Fits(n, w)
    ensures Less(Encode(n, w) + a, Encode(m, w) + b)
  {
    hide Encode, Less;
    if w > 0 {
      var p := Power(w - 1);
      EncodeIs(n, w);
      EncodeIs(m, w);
      var x, y := n / p, m / p;
      var tailN, tailM := Encode(n % p, w - 1), Encode(m % p, w - 1);
      assert Encode(n, w) + a == [x] + (tailN + a) && Encode(m, w) + b == [y] + (tailM + b);
      NotGreater(n, m, p);
      if x < y {
        SmallerHead(x, tailN + a, y, tailM + b);
      } else {
        SmallerFirst(n % p, m % p, w - 1, a, b);
        SameHead(x, tailN + a, tailM + b);
      }
    }
  }

  lemma NotGreater(n: nat, m: nat, p: nat)
    requires n < m && p > 0
    ensures n / p < m / p || (n / p == m / p && n % p < m % p)
  {
    if m / p < n / p {
      Product(m / p, n / p, p);
    }
  }

  lemma {:induction false} SamePrefix(s: Str, a: Str, b: Str)
    ensures Less(s + a, s + b) <==> Less(a, b)
  {
    if s == [] {
      assert s + a == a && s + b == b;
    } else {
      assert s + a == [s[0]] + (s[1..] + a) && s + b == [s[0]] + (s[1..] + b);
      SamePrefix(s[1..], a, b);
      SameHead(s[0], s[1..] + a, s[1..] + b);
    }
  }

  lemma Power8()
    ensures Power(8) == MAX_UINT64 + 1
  {
    assert Power(4) == 0x1_0000_0000;
  }

  // -------- Numbers followed by bytes --------

  /** uint64StringTupleToByteSlice. */
  function Pack(n: nat, s: Str): (k: Str)
    requires n <= MAX_UINT64
    ensures |k| == 8 + |s|
  {
    Power8();
    Encode(n, 8) + s
  }

  /** byteSliceToUint64StringTuple. */
  function Unpack(k: Str): (t: (nat, Str))
    requires |k| >= 8
    ensures t.0 <= MAX_UINT64
  {
    Power8();
    DecodeFits(k[..8]);
    (Decode(k[..8]), k[8..])
  }

  predicate TupleLess(n: nat, a: Str, m: nat, b: Str) {
    n < m || (n == m && Less(a, b))
  }

  /** Packed keys are in the order of the pairs they pack. */
  lemma PackPreservesOrder(n: nat, a: Str, m: nat, b: Str)
    requires n <= MAX_UINT64 && m <= MAX_UINT64
    ensures Less(Pack(n, a), Pack(m, b)) <==> TupleLess(n, a, m, b)
  {
    Power8();
    if n < m {
      SmallerFirst(n, m, 8, a, b);
    } else if m < n {
      SmallerFirst(m, n, 8, b, a);
      Trichotomy(Pack(n, a), Pack(m, b));
    } else {
      SamePrefix(Encode(n, 8), a, b);
    }
  }

  lemma UnpackPack(n: nat, s: Str)
    requires n <= MAX_UINT64
    ensures Unpack(Pack(n, s)) == (n, s)
  {
    Power8();
    DecodeEncode(n, 8);
    assert Pack(n, s)[..8] == Encode(n, 8) && Pack(n, s)[8..] == s;
  }

  lemma PackUnpack(k: Str)
    requires |k| >= 8
    ensures Pack(Unpack(k).0, Unpack(k).1) == k
  {
    Power8();
    EncodeDecode(k[..8]);
    assert k == k[..8] + k[8..];
  }

  /** timeTimeUint64TupleToByteSlice, for the nanoseconds of a time, 0 if it is the zero time. */
  function PackDue(nanos: nat, inode: nat): (k: Str)
    requires nanos <= MAX_UINT64 && inode <= MAX_UINT64
  {
    Power8();
    Pack(nanos, Encode(inode, 8))
  }

  /** The eviction queue's keys are in order of time, then of inode number. */
  lemma DueKeysInOrder(x: nat, i: nat, y: nat, j: nat)
    requires x <= MAX_UINT64 && i <= MAX_UINT64 && y <= MAX_UINT64 && j <= MAX_UINT64
    ensures Less(PackDue(x, i), PackDue(y, j)) <==> x < y || (x == y && i < j)
  {
    Power8();
    PackPreservesOrder(x, Encode(i, 8), y, Encode(j, 8));
    if i < j {
      SmallerFirst(i, j, 8, [], []);
    } else if j < i {
      SmallerFirst(j, i, 8, [], []);
    }
    assert Encode(i, 8) + [] == Encode(i, 8) && Encode(j, 8) + [] == Encode(j, 8);
    Trichotomy(Encode(i, 8), Encode(j, 8));
  }
}
