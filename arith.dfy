// Integer facts about Euclidean division that the shape arithmetic of an
// n-dimensional array relies on: a flat row-major index splits uniquely into
// a row and a column.
module Arith {

  /** A positive multiple of a positive number is at least that number. */
  lemma {:induction false} MulAtLeast(d: int, n: int)
    requires d >= 1 && n >= 0
    ensures d * n >= n
  {
    if d > 1 {
      MulAtLeast(d - 1, n);
      assert d * n == (d - 1) * n + n;
    }
  }

  /** Multiplication regroups. */
  lemma MulAssoc(x: int, y: int, z: int)
    ensures x * (y * z) == (x * y) * z
  {
  }

  /** Quotient and remainder are unique: x == q * n + r with 0 <= r < n fixes both. */
  lemma DivModUnique(x: int, n: int, q: int, r: int)
    requires n > 0 && 0 <= r < n && x == q * n + r
    ensures x / n == q && x % n == r
  {
    var q', r' := x / n, x % n;
    assert x == q' * n + r';
    assert (q - q') * n == r' - r;
    if q > q' {
      MulAtLeast(q - q', n);
    } else if q < q' {
      MulAtLeast(q' - q, n);
    }
  }

  /** Stepping a counter by one steps its remainder by one, wrapping at n. */
  lemma ModSucc(x: nat, n: nat)
    requires n > 0
    ensures (x + 1) % n == if x % n == n - 1 then 0 else x % n + 1
  {
    var q, r := x / n, x % n;
    if r == n - 1 {
      DivModUnique(x + 1, n, q + 1, 0);
    } else {
      DivModUnique(x + 1, n, q, r + 1);
    }
  }

  /** Stepping a counter by one steps its quotient by one exactly where its remainder wraps. */
  lemma DivSucc(x: nat, n: nat)
    requires n > 0
    ensures (x + 1) / n == if x % n == n - 1 then x / n + 1 else x / n
  {
    var q, r := x / n, x % n;
    if r == n - 1 {
      DivModUnique(x + 1, n, q + 1, 0);
    } else {
      DivModUnique(x + 1, n, q, r + 1);
    }
  }

  /** One before a positive multiple of n is the last index of a block of n. */
  lemma LastOfMultiple(m: nat, n: nat)
    requires m > 0 && n > 0
    ensures m * n - 1 >= 0 && (m * n - 1) % n == n - 1
  {
    assert m * n - 1 == (m - 1) * n + (n - 1);
    DivModUnique(m * n - 1, n, m - 1, n - 1);
  }

  /** A multiple of n leaves no remainder. */
  lemma MulMod(a: nat, n: nat)
    requires n > 0
    ensures (a * n) % n == 0
  {
    DivModUnique(a * n, n, a, 0);
  }

  /** A flat index below rows * cols splits into a row below rows and a column below cols. */
  lemma DivBound(p: nat, rows: nat, cols: nat)
    requires p < rows * cols
    ensures cols > 0 && p / cols < rows && p % cols < cols
    ensures p == (p / cols) * cols + p % cols
  {
    assert cols > 0;
    if p / cols >= rows {
      MulMono(rows, p / cols, cols);
      assert false;
    }
  }

  /** Multiplying by a non-negative number keeps the order. */
  lemma MulMono(a: int, b: int, n: int)
    requires a <= b && n >= 0
    ensures a * n <= b * n
  {
    if a < b {
      MulAtLeast(b - a, n);
      assert b * n == a * n + (b - a) * n;
    }
  }

  /** Row i of a buffer of rows rows of n entries ends inside the buffer. */
  lemma RowEnd(i: nat, rows: nat, n: nat)
    requires i < rows
    ensures i * n + n <= rows * n
  {
    MulMono(i + 1, rows, n);
    assert (i + 1) * n == i * n + n;
  }

  /** Row i, offset k (k < n) lies inside a buffer of rows * n entries. */
  lemma RowOffsetBound(i: nat, k: nat, rows: nat, n: nat)
    requires i < rows && k < n
    ensures 0 <= i * n + k < rows * n
    ensures i * n + n <= rows * n
  {
    assert rows * n == i * n + (rows - i) * n;
    MulAtLeast(rows - i, n);
  }
}
