/** Facts about integer multiplication and Euclidean division shared by the modules. */
module Numbers {

  /** Euclidean division by a positive divisor is unique. */
  lemma DivModUnique(k: int, c: int, q: int, m: int)
    requires c > 0 && 0 <= m < c && k == q * c + m
    ensures k / c == q && k % c == m
  {
    var q', m' := k / c, k % c;
    assert (q - q') * c == m' - m;
    if q > q' {
      assert (q - q') * c >= c by { MulAtLeast(q - q', c); }
    } else if q < q' {
      assert (q' - q) * c >= c by { MulAtLeast(q' - q, c); }
    }
  }

  lemma MulAtLeast(d: int, c: int)
    requires d >= 1 && c > 0
    ensures d * c >= c
  {
  }

  lemma MulMonotone(a: nat, b: nat, c: nat)
    requires a <= b
    ensures a * c <= b * c
  {
  }

  /** A number is its quotient times the divisor plus its remainder. */
  lemma DivModSplit(k: int, c: int)
    requires c > 0
    ensures k == (k / c) * c + k % c
  {
  }

  /** Division by a positive divisor is monotone. */
  lemma DivMonotone(a: nat, b: nat, s: nat)
    requires s > 0 && a <= b
    ensures a / s <= b / s
  {
    var qa, qb := a / s, b / s;
    if qa > qb {
      MulMonotone(qb + 1, qa, s);
      assert false;
    }
  }

  /** A number below r * c has a quotient by c below r. */
  lemma QuotientBelow(k: nat, c: nat, r: nat)
    requires c > 0 && k < r * c
    ensures k / c < r
  {
    assert r > 0;
    assert r * c - 1 == (r - 1) * c + (c - 1);
    DivModUnique(r * c - 1, c, r - 1, c - 1);
    DivMonotone(k, r * c - 1, c);
  }
}
