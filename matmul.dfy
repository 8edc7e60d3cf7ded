// The matrix product behind Numpy::Dot, on flat row-major buffers: a
// rows x inner matrix times an inner x cols matrix gives a rows x cols
// matrix whose entry (i, j) sits at i * cols + j.
module MatMul {
  import Arith

  /** The first n terms of row i of a dotted with column j of b. */
  function DotSum(a: seq<int>, b: seq<int>, i: nat, j: nat, inner: nat, cols: nat, n: nat): int
    requires n <= inner && i * inner + inner <= |a|
    requires j < cols && inner * cols <= |b|
  {
    if n == 0 then 0
    else
      Arith.RowOffsetBound(n - 1, j, inner, cols);
      DotSum(a, b, i, j, inner, cols, n - 1) + a[i * inner + (n - 1)] * b[(n - 1) * cols + j]
  }

  /** Entry p of the row-major product: row p / cols, column p % cols. */
  function Entry(a: seq<int>, b: seq<int>, rows: nat, inner: nat, cols: nat, p: nat): int
    requires |a| == rows * inner && |b| == inner * cols && p < rows * cols
  {
    Arith.DivBound(p, rows, cols);
    Arith.RowEnd(p / cols, rows, inner);
    DotSum(a, b, p / cols, p % cols, inner, cols, inner)
  }

  /** The rows x cols product of a (rows x inner) and b (inner x cols). */
  function Product(a: seq<int>, b: seq<int>, rows: nat, inner: nat, cols: nat): (r: seq<int>)
    requires |a| == rows * inner && |b| == inner * cols
    ensures |r| == rows * cols
  {
    seq(rows * cols, p requires 0 <= p < rows * cols => Entry(a, b, rows, inner, cols, p))
  }

  /** A buffer holding every entry of the product is the product. */
  lemma ProductFromEntries(r: seq<int>, a: seq<int>, b: seq<int>, rows: nat, inner: nat, cols: nat)
    requires |a| == rows * inner && |b| == inner * cols && |r| == rows * cols
    requires forall p | 0 <= p < |r| :: r[p] == Entry(a, b, rows, inner, cols, p)
    ensures r == Product(a, b, rows, inner, cols)
  {
  }

  /** Entry (i, j) of the product is row i of a dotted with column j of b. */
  lemma ProductAt(a: seq<int>, b: seq<int>, rows: nat, inner: nat, cols: nat, i: nat, j: nat)
    requires |a| == rows * inner && |b| == inner * cols
    requires i < rows && j < cols
    ensures i * cols + j < rows * cols && i * inner + inner <= |a|
    ensures Product(a, b, rows, inner, cols)[i * cols + j] == DotSum(a, b, i, j, inner, cols, inner)
  {
    Arith.RowOffsetBound(i, j, rows, cols);
    Arith.DivModUnique(i * cols + j, cols, i, j);
    Arith.RowEnd(i, rows, inner);
  }

  /** The n x n identity matrix. */
  function Identity(n: nat): (r: seq<int>)
    ensures |r| == n * n
  {
    seq(n * n, p requires 0 <= p < n * n => if p / n == p % n then 1 else 0)
  }

  lemma IdentityAt(n: nat, k: nat, j: nat)
    requires k < n && j < n
    ensures k * n + j < n * n && Identity(n)[k * n + j] == if k == j then 1 else 0
  {
    Arith.RowOffsetBound(k, j, n, n);
    Arith.DivModUnique(k * n + j, n, k, j);
  }

  /** Dotting a row with column j of the identity picks out its entry j, once j is reached. */
  lemma {:induction false} DotSumRightIdentity(a: seq<int>, i: nat, j: nat, n: nat, m: nat)
    requires m <= n && i * n + n <= |a| && j < n
    ensures DotSum(a, Identity(n), i, j, n, n, m) == if j < m then a[i * n + j] else 0
  {
    if m > 0 {
      DotSumRightIdentity(a, i, j, n, m - 1);
      IdentityAt(n, m - 1, j);
    }
  }

  /** Dotting row i of the identity with a column picks out that column's entry i, once i is reached. */
  lemma {:induction false} DotSumLeftIdentity(b: seq<int>, i: nat, j: nat, n: nat, cols: nat, m: nat)
    requires m <= n && i < n && j < cols && |b| == n * cols
    requires i * n + n <= n * n && i * cols + j < |b|
    ensures DotSum(Identity(n), b, i, j, n, cols, m) == if i < m then b[i * cols + j] else 0
  {
    if m > 0 {
      var k := m - 1;
      DotSumLeftIdentity(b, i, j, n, cols, k);
      IdentityAt(n, i, k);
      Arith.RowOffsetBound(k, j, n, cols);
      var term := Identity(n)[i * n + k] * b[k * cols + j];
      assert DotSum(Identity(n), b, i, j, n, cols, m) == DotSum(Identity(n), b, i, j, n, cols, k) + term;
      assert term == if i == k then b[i * cols + j] else 0;
    }
  }

  /** Multiplying by the identity on the right gives back the matrix. */
  lemma ProductRightIdentity(a: seq<int>, rows: nat, n: nat)
    requires |a| == rows * n
    ensures Product(a, Identity(n), rows, n, n) == a
  {
    var r := Product(a, Identity(n), rows, n, n);
    forall p | 0 <= p < |a| ensures r[p] == a[p] {
      Arith.DivBound(p, rows, n);
      var i, j := p / n, p % n;
      ProductAt(a, Identity(n), rows, n, n, i, j);
      DotSumRightIdentity(a, i, j, n, n);
    }
  }

  /** Multiplying by the identity on the left gives back the matrix. */
  lemma ProductLeftIdentity(b: seq<int>, n: nat, cols: nat)
    requires |b| == n * cols
    ensures Product(Identity(n), b, n, n, cols) == b
  {
    var r := Product(Identity(n), b, n, n, cols);
    forall p | 0 <= p < |b| ensures r[p] == b[p] {
      Arith.DivBound(p, n, cols);
      var i, j := p / cols, p % cols;
      ProductAt(Identity(n), b, n, n, cols, i, j);
      Arith.RowOffsetBound(i, j, n, cols);
      DotSumLeftIdentity(b, i, j, n, cols, n);
    }
  }

  /** [[1, 2], [3, 4]] times the 2 x 2 identity is [[1, 2], [3, 4]]. */
  lemma SquareTimesIdentity()
    ensures Identity(2) == [1, 0, 0, 1]
    ensures Product([1, 2, 3, 4], [1, 0, 0, 1], 2, 2, 2) == [1, 2, 3, 4]
  {
    assert Identity(2) == [1, 0, 0, 1];
    ProductRightIdentity([1, 2, 3, 4], 2, 2);
  }

  /** The 2 x 2 matrix of ones squared is the 2 x 2 matrix of twos. */
  lemma OnesSquared()
    ensures Product([1, 1, 1, 1], [1, 1, 1, 1], 2, 2, 2) == [2, 2, 2, 2]
  {
    var ones := [1, 1, 1, 1];
    var r := Product(ones, ones, 2, 2, 2);
    ProductAt(ones, ones, 2, 2, 2, 0, 0);
    ProductAt(ones, ones, 2, 2, 2, 0, 1);
    ProductAt(ones, ones, 2, 2, 2, 1, 0);
    ProductAt(ones, ones, 2, 2, 2, 1, 1);
    assert r[0] == 2 && r[1] == 2 && r[2] == 2 && r[3] == 2;
  }

  datatype Option<T> = None | Some(value: T)

  /**
   * The first n terms of the accumulation loop of Numpy::Dot as written,
   * for an entry whose row of a was taken as k and column of b as y: term t
   * reads a[t + k * inner] and b[y + t * inner]. None when a read falls
   * outside either buffer, which C++ leaves undefined.
   */
  function AsWrittenSum(a: seq<int>, b: seq<int>, k: nat, y: nat, inner: nat, n: nat): Option<int>
  {
    if n == 0 then Some(0)
    else
      match AsWrittenSum(a, b, k, y, inner, n - 1)
      case None => None
      case Some(s) =>
        var ai, bi := (n - 1) + k * inner, y + (n - 1) * inner;
        if ai < |a| && bi < |b| then Some(s + a[ai] * b[bi]) else None
  }

  /** Numpy::Dot's entries as written: entry p uses k = p / rows and y = p / cols. */
  function AsWrittenProduct(a: seq<int>, b: seq<int>, rows: nat, inner: nat, cols: nat): (r: seq<Option<int>>)
    ensures |r| == rows * cols
  {
    if rows == 0 || cols == 0 then []
    else seq(rows * cols, p requires 0 <= p => AsWrittenSum(a, b, p / rows, p / cols, inner, inner))
  }

  /**
   * The index arithmetic as written breaks the 2 x 2 identity example: it
   * yields [[1, 1], [4, 4]] where the row-major product is [[1, 2], [3, 4]].
   */
  lemma AsWrittenProductDiffers()
    ensures AsWrittenProduct([1, 2, 3, 4], [1, 0, 0, 1], 2, 2, 2) == [Some(1), Some(1), Some(4), Some(4)]
    ensures AsWrittenProduct([1, 2, 3, 4], [1, 0, 0, 1], 2, 2, 2)[1] != Some(Product([1, 2, 3, 4], [1, 0, 0, 1], 2, 2, 2)[1])
  {
    var a, b := [1, 2, 3, 4], [1, 0, 0, 1];
    assert AsWrittenSum(a, b, 0, 0, 2, 2) == Some(1);
    assert AsWrittenSum(a, b, 1, 1, 2, 2) == Some(4);
    SquareTimesIdentity();
  }
}
