/** The few facts about multiplication and division the solver is told by hand. */
module Arithmetic {

  lemma MulMono(a: int, b: int, c: int)
    requires a <= b && 0 <= c
    ensures a * c <= b * c
  {
  }

  lemma DivModUnique(x: int, q: int, r: int, d: int)
    requires d > 0 && x == q * d + r && 0 <= r < d
    ensures x / d == q && x % d == r
  {
    assert x == (x / d) * d + x % d;
    if x / d < q { MulMono(x / d + 1, q, d); }
    if x / d > q { MulMono(q + 1, x / d, d); }
  }

  lemma ModOfMultiple(q: int, d: int)
    requires d > 0
    ensures (q * d) % d == 0 && (q * d) / d == q
  {
    DivModUnique(q * d, q, 0, d);
  }

  /** Two different multiples of `d` are at least `d` apart. */
  lemma MultiplesApart(w: int, v: int, d: int)
    requires d > 0 && w % d == 0 && v % d == 0 && w < v
    ensures w + d <= v
  {
    assert w == (w / d) * d && v == (v / d) * d;
    if v / d <= w / d { MulMono(v / d, w / d, d); }
    MulMono(w / d + 1, v / d, d);
  }

  lemma NextMultiple(w: int, d: int)
    requires d > 0 && w % d == 0
    ensures (w + d) % d == 0
  {
    DivModUnique(w + d, w / d + 1, 0, d);
  }

  /** Taking a number apart at two places at once. */
  lemma ModSplit(x: int, p: int, q: int)
    requires p > 0 && q > 0
    ensures p * q > 0
    ensures x % (p * q) == ((x / p) % q) * p + x % p
  {
    var hi, lo := x / p, x % p;
    var h, l := hi / q, hi % q;
    MulMono(1, p, q);
    assert x == hi * p + lo && hi == h * q + l;
    assert x == h * (p * q) + (l * p + lo) by {
      assert (h * q + l) * p == h * (p * q) + l * p;
    }
    MulMono(0, l, p);
    MulMono(l + 1, q, p);
    DivModUnique(x, h, l * p + lo, p * q);
  }
}
