/** Sums, extremes, and order facts about products and quotients of reals. */
module RealArith {
  function Abs(x: real): real { if x >= 0.0 then x else -x }

  function MaxR(a: real, b: real): real { if a >= b then a else b }

  function MinR(a: real, b: real): real { if a <= b then a else b }

  function Sum(xs: seq<real>): real {
    if xs == [] then 0.0 else Sum(xs[..|xs| - 1]) + xs[|xs| - 1]
  }

  lemma MulLeq(a: real, b: real, c: real)
    requires a <= b && c >= 0.0
    ensures a * c <= b * c
  {
  }

  lemma MulLess(a: real, b: real, c: real)
    requires a < b && c > 0.0
    ensures a * c < b * c
  {
  }

  lemma DivLeq(a: real, b: real, c: real)
    requires a <= b && c > 0.0
    ensures a / c <= b / c
  {
    var q, r := a / c, b / c;
    assert q * c == a && r * c == b;
    if q > r {
      MulLess(r, q, c);
    }
  }

  lemma Cancel(x: real, p: real)
    requires p != 0.0
    ensures x * p / p == x
  {
  }

  /** A quotient is known by its product. */
  lemma DivIs(a: real, c: real, q: real)
    requires c != 0.0 && q * c == a
    ensures a / c == q
  {
    Cancel(q, c);
  }
}
