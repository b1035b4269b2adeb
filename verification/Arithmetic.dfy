/** Integer division and multiplication facts the solver does not find alone. */
module Arithmetic {

  lemma MulMonotone(d: int, x: int, y: int)
    requires d >= 0 && x <= y
    ensures d * x <= d * y
  {
    assert d * y == d * x + d * (y - x);
  }

  lemma MulStep(d: int, x: int, y: int)
    requires d >= 0 && x < y
    ensures d * x + d <= d * y
  {
    MulMonotone(d, x + 1, y);
    assert d * (x + 1) == d * x + d;
  }

  /** Quotient and remainder are unique. */
  lemma DivUnique(n: int, d: int, q: int, r: int)
    requires d > 0 && n == d * q + r && 0 <= r < d
    ensures n / d == q && n % d == r
  {
    assert n == d * (n / d) + n % d;
    if n / d < q {
      MulStep(d, n / d, q);
    } else if n / d > q {
      MulStep(d, q, n / d);
    }
  }

  lemma DivMonotone(a: int, b: int, d: int)
    requires d > 0 && a <= b
    ensures a / d <= b / d
  {
    if a / d > b / d {
      MulStep(d, b / d, a / d);
    }
  }

  lemma DivAddOne(a: int, d: int)
    requires d > 0
    ensures (a + d) / d == a / d + 1
  {
    assert d * (a / d + 1) == d * (a / d) + d;
    DivUnique(a + d, d, a / d + 1, a % d);
  }

  lemma DivExact(a: int, d: int)
    requires d > 0
    ensures a * d / d == a && a * d % d == 0
  {
    DivUnique(a * d, d, a, 0);
  }

  /** An index below rows * width splits into a row and a column. */
  lemma RowColumn(i: int, width: int, rows: int)
    requires 0 <= i < rows * width && width > 0
    ensures 0 <= i / width < rows && 0 <= i % width < width
    ensures i == i / width * width + i % width
  {
    if i / width >= rows {
      MulMonotone(width, rows, i / width);
    }
    if i / width < 0 {
      MulStep(width, i / width, 0);
    }
  }
}
