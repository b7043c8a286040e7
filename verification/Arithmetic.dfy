/** Facts about products and quotients that the solver does not find by itself. */
module Arithmetic {

  const TWO_TO_THE_64: int := 0x1_0000_0000_0000_0000

  lemma Product(a: nat, b: nat, o: nat)
    requires a < b
    ensures (a + 1) * o <= b * o && (a + 1) * o == a * o + o
  {
  }

  lemma Monotone(a: nat, b: nat, o: nat)
    ensures a <= b ==> a * o <= b * o
  {
  }

  lemma Positive(x: nat, y: nat)
    requires x > 0 && y > 0
    ensures x * y >= x && x * y >= y
  {
  }

  lemma Quotient(k: nat, o: nat, i: nat, r: nat)
    requires o > 0 && k == i * o + r && r < o
    ensures k / o == i
  {
    if i < k / o {
      Product(i, k / o, o);
    } else if i > k / o {
      Product(k / o, i, o);
    }
  }

  lemma QuotientAtLeast(k: nat, o: nat, q: nat)
    requires o > 0 && q * o <= k
    ensures k / o >= q
  {
    if k / o < q {
      Product(k / o, q, o);
    }
  }

  lemma QuotientBelow(k: nat, o: nat, q: nat)
    requires o > 0 && k < q * o
    ensures k / o < q
  {
    if q < k / o {
      Product(q, k / o, o);
    }
  }
}
