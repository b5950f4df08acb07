// The few facts about products and quotients that the solver does not find on its own.
module Arith {
  lemma MulMono(a: int, b: int, c: nat)
    requires a <= b
    ensures a * c <= b * c
  {
  }

  /** Quotient and remainder are the only way to write w as q * b + r with 0 <= r < b. */
  lemma DivUnique(w: int, q: int, b: nat, r: int)
    requires 0 <= r < b && w == q * b + r
    ensures w / b == q && w % b == r
  {
    var d, s := w / b, w % b;
    assert w == d * b + s && 0 <= s < b;
    assert (d - q) * b == r - s;
    if d < q {
      MulMono(d - q, -1, b);
    } else if d > q {
      MulMono(1, d - q, b);
    }
  }

  lemma DivDiv(v: nat, k: nat, m: nat)
    requires k > 0 && m > 0
    ensures k * m > 0 && v / (k * m) == (v / k) / m
  {
    var w := v / k;
    var q, r := w / m, w % m;
    MulMono(r + 1, m, k);
    MulMono(1, m, k);
    assert v == q * (k * m) + (r * k + v % k);
    DivUnique(v, q, k * m, r * k + v % k);
  }
}
