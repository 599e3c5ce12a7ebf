/** Facts about Euclidean division and row-major layouts that the solver does
    not find on its own once the divisor is a variable. */
module Arithmetic {

  /** Division by `d` undoes `q * d + r` for a remainder in `0..d-1`. */
  lemma DivMod(q: int, d: int, r: int)
    requires d > 0 && 0 <= r < d
    ensures (q * d + r) / d == q && (q * d + r) % d == r
  {
    var x := q * d + r;
    var k := x / d - q;
    assert d * k == r - x % d;
    if k > 0 { MulMono(d, k); }
    if k < 0 { MulMono(d, -k); }
  }

  lemma MulMono(d: int, k: int)
    requires d > 0 && k >= 1
    ensures d * k >= d
  {
  }

  /** A position below `d * q` has a quotient below `q`. */
  lemma DivBelow(p: int, d: int, q: int)
    requires d > 0 && 0 <= p < d * q
    ensures 0 <= p / d < q
  {
    assert d * (p / d) <= p;
    MulCancelLt(d, p / d, q);
  }

  lemma MulCancelLt(d: int, a: int, b: int)
    requires d > 0 && d * a < d * b
    ensures a < b
  {
  }

  lemma MulLe(a: int, b: int, c: int)
    requires a <= b && c >= 0
    ensures a * c <= b * c
  {
  }

  /** Row-major position (y, x) of an r-by-c grid lies inside the grid. */
  lemma RowMajorBound(y: int, x: int, r: int, c: int)
    requires 0 <= y < r && 0 <= x < c
    ensures 0 <= y * c + x < r * c
  {
    MulLe(y, r - 1, c);
    assert (r - 1) * c == r * c - c;
  }
}
