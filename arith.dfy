/** Facts about exact real and integer arithmetic that the scaling, share and
    percentage computations rely on. */
module Arith {
  import opened JsNumber

  /** Truncating a non-negative quotient gives the integer quotient. */
  lemma TruncQuotient(n: int, d: int)
    requires n >= 0 && d > 0
    ensures Trunc(n as real / d as real) == n / d
  {
    var q, m := n / d, n % d;
    var x := n as real / d as real;
    assert n as real == q as real * d as real + m as real;
    assert x == q as real + m as real / d as real;
    assert 0.0 <= m as real / d as real < 1.0;
  }

  /** `int(a * (k / b))` is the integer quotient of `k * a` by `b`. */
  lemma ScaledDown(a: int, b: int, k: int)
    requires a >= 0 && b > 0 && k > 0
    ensures Trunc(a as real * (k as real / b as real)) == (k * a) / b
  {
    assert a as real * (k as real / b as real) == (k * a) as real / b as real;
    TruncQuotient(k * a, b);
  }

  /** `int(k / (a / b))` is the integer quotient of `k * b` by `a`. */
  lemma ScaledByInverse(a: int, b: int, k: int)
    requires a > 0 && b > 0 && k > 0
    ensures Trunc(k as real / (a as real / b as real)) == (k * b) / a
  {
    assert k as real / (a as real / b as real) == (k * b) as real / a as real;
    TruncQuotient(k * b, a);
  }

  /** Comparing aspect ratios is comparing cross products. */
  lemma WiderIff(w: int, h: int, tw: int, th: int)
    requires w > 0 && h > 0 && tw > 0 && th > 0
    ensures w as real / h as real > tw as real / th as real <==> th * w > tw * h
  {
    var q, t := w as real / h as real, tw as real / th as real;
    assert q * h as real == w as real;
    assert t * th as real == tw as real;
    if q > t {
      MulStrict(q, t, h as real);
      MulStrict(q * h as real, t * h as real, th as real);
    } else {
      MulMono(q, t, h as real);
      MulMono(q * h as real, t * h as real, th as real);
    }
  }

  lemma QuotientBelow(n: int, d: int, m: int)
    requires 0 <= n && d > 0 && n < m * d
    ensures n / d < m
  {
    if n / d >= m {
      MulMono(m as real, (n / d) as real, d as real);
      assert false;
    }
  }

  lemma MulStrict(a: real, b: real, c: real)
    requires a > b && c > 0.0
    ensures a * c > b * c
  {
  }

  lemma MulMono(a: real, b: real, c: real)
    requires a <= b && c > 0.0
    ensures a * c <= b * c
  {
  }

  /** Three parts of a non-zero total, as fractions of it, add up to one. */
  lemma SumOfFractions(a: real, b: real, c: real, t: real)
    requires t != 0.0 && a + b + c == t
    ensures a / t + b / t + c / t == 1.0
  {
    assert a / t + b / t + c / t == (a + b + c) / t;
  }

  lemma FractionBounds(a: real, b: real)
    requires 0.0 <= a <= b && b != 0.0
    ensures 0.0 <= a / b <= 1.0
  {
    assert (a / b) * b == a;
  }
}
