/** Order facts about products of integers. */
module IntArith {
  lemma MulMonotone(a: int, b: int, c: int)
    requires a <= b && c >= 0
    ensures a * c <= b * c && c * a <= c * b
  {
    assert (b - a) * c >= 0;
  }

  lemma MulOrder(a: int, b: int, c: int)
    requires c > 0
    ensures a < b <==> a * c < b * c
  {
    if a < b {
      MulMonotone(a + 1, b, c);
    } else {
      MulMonotone(b, a, c);
    }
  }

  lemma MultipleIs(q: int, n: int)
    requires n > 0
    ensures q * n % n == 0
  {
    var m, r := q * n / n, q * n % n;
    assert q * n == m * n + r;
    if q > m {
      MulMonotone(m + 1, q, n);
    } else if q < m {
      MulMonotone(q, m - 1, n);
    }
  }
}
