// numpy::Numpy<T> with T = int: a stateless factory of arrays filled with
// zeros or ones, and the 1-D/2-D matrix product.
module Numpy {
  import opened Shapes
  import opened NdArrays
  import MatMul
  import Arith

  /** An array of the given shape whose every element is value. */
  method Filled(shape: seq<nat>, value: int) returns (r: Ndarray)
    ensures fresh(r) && fresh(r.data) && r.Valid()
    ensures r.rank == |shape| && r.shape == shape && r.size == Product(shape)
    ensures forall i | 0 <= i < r.size :: r.data[i] == value
  {
    var total := MultiplyExtents(shape);
    var extents := CopyExtents(shape, |shape|);
    assert shape[..|shape|] == shape;
    var buffer := new int[total];
    var i := 0;
    while i < total
      invariant 0 <= i <= total
      invariant forall k | 0 <= k < i :: buffer[k] == value
    {
      buffer[i] := value;
      i := i + 1;
    }
    r := new Ndarray.Adopt(|shape|, total, extents, buffer);
  }

  /** An array of the given shape, size the product of its extents, every element 0. */
  method Zeros(shape: seq<nat>) returns (r: Ndarray)
    ensures fresh(r) && fresh(r.data) && r.Valid()
    ensures r.rank == |shape| && r.shape == shape && r.size == Product(shape)
    ensures forall i | 0 <= i < r.size :: r.data[i] == 0
  {
    r := Filled(shape, 0);
  }

  /** An array of the given shape, size the product of its extents, every element 1. */
  method Ones(shape: seq<nat>) returns (r: Ndarray)
    ensures fresh(r) && fresh(r.data) && r.Valid()
    ensures r.rank == |shape| && r.shape == shape && r.size == Product(shape)
    ensures forall i | 0 <= i < r.size :: r.data[i] == 1
  {
    r := Filled(shape, 1);
  }

  /** The rank the factory methods infer as written: sizeof(const unsigned int*) / sizeof(unsigned int). */
  const AddressBytes: nat := 8
  const ExtentBytes: nat := 4

  function RankAsWritten(): (d: nat)
    ensures d == 2
  {
    AddressBytes / ExtentBytes
  }

  /**
   * Zeros as written on a 64-bit target: the rank comes from the size of the
   * address type, not from the caller's shape, so exactly the first two extents
   * are read whatever the caller passed.
   */
  method ZerosAsWritten(shape: seq<nat>) returns (r: Ndarray)
    requires RankAsWritten() <= |shape|
    ensures fresh(r) && r.Valid()
    ensures r.rank == 2 && r.shape == shape[..2] && r.size == shape[0] * shape[1]
    ensures forall i | 0 <= i < r.size :: r.data[i] == 0
  {
    r := Filled(shape[..RankAsWritten()], 0);
    assert shape[..2] == [shape[0], shape[1]];
    ProductOfPair(shape[0], shape[1]);
  }

  /** A three-axis shape [4, 5, 6] loses its last axis as written: 20 elements instead of 120. */
  method ZerosAsWrittenDropsAxis() returns (written: nat, intended: nat)
    ensures written == 20 && intended == 120
  {
    var w := ZerosAsWritten([4, 5, 6]);
    var z := Zeros([4, 5, 6]);
    assert Product([4, 5, 6]) == 4 * Product([5, 6]);
    written, intended := w.size, z.size;
  }

  /** The number of rows of a rank-1 (n x 1) or rank-2 matrix. */
  ghost function Rows(a: Ndarray): nat
    reads a
    requires 1 <= a.rank <= 2 && a.Sized()
  {
    a.shape[0]
  }

  /** The inner extent of a: 1 for a rank-1 array, taken as an n x 1 column. */
  ghost function Inner(a: Ndarray): nat
    reads a
    requires 1 <= a.rank <= 2 && a.Sized()
  {
    if a.rank == 1 then 1 else a.shape[1]
  }

  /** The number of columns of b: 1 for a rank-1 array. */
  ghost function Cols(b: Ndarray): nat
    reads b
    requires 1 <= b.rank <= 2 && b.Sized()
  {
    if b.rank == 1 then 1 else b.shape[1]
  }

  /** Both operands have rank 1 or 2 and a's inner extent matches b's first extent. */
  ghost predicate Conformable(a: Ndarray, b: Ndarray)
    reads a, b
    requires a.Sized() && b.Sized()
  {
    1 <= a.rank <= 2 && 1 <= b.rank <= 2 && Inner(a) == b.shape[0]
  }

  /**
   * The matrix product. Operands of rank 0 or above 2 give the empty
   * sentinel, and so does an inner-extent mismatch: a rank-1 a with
   * b.shape[0] != 1, or a.shape[1] != b.shape[0]. Otherwise the result is a
   * rank-2 a.shape[0] x cols array, cols being 1 for a rank-1 b and
   * b.shape[1] otherwise, whose entry (i, j) is row i of a dotted with
   * column j of b.
   */
  method Dot(a: Ndarray, b: Ndarray) returns (r: Ndarray)
    requires a.Valid() && b.Valid()
    ensures fresh(r) && fresh(r.data) && r.Valid()
    ensures a.rank == 0 || a.rank > 2 || b.rank == 0 || b.rank > 2 ==> r.IsEmpty()
    ensures 1 <= a.rank <= 2 && 1 <= b.rank <= 2 && a.rank == 1 && b.shape[0] != 1 ==> r.IsEmpty()
    ensures 1 <= a.rank <= 2 && 1 <= b.rank <= 2 && a.rank == 2 && a.shape[1] != b.shape[0] ==> r.IsEmpty()
    ensures Conformable(a, b) ==>
      && r.rank == 2 && r.shape == [Rows(a), Cols(b)] && r.size == Rows(a) * Cols(b)
      && a.size == Rows(a) * b.shape[0] && b.size == b.shape[0] * Cols(b)
      && r.data[..] == MatMul.Product(a.data[..], b.data[..], Rows(a), b.shape[0], Cols(b))
  {
    if a.rank > 2 || b.rank > 2 || a.rank == 0 || b.rank == 0 {
      r := new Ndarray();
      return;
    }
    if a.rank == 1 && b.shape[0] != 1 {
      r := new Ndarray();
      return;
    } else if a.rank == 2 && a.shape[1] != b.shape[0] {
      r := new Ndarray();
      return;
    }
    var rows := a.shape[0];
    var cols := if b.rank == 1 then 1 else b.shape[1];
    var inner := b.shape[0];
    var total := rows * cols;
    if a.rank == 1 {
      assert a.shape == [rows];
      ProductOfOne(rows);
    } else {
      assert a.shape == [rows, inner];
      ProductOfPair(rows, inner);
    }
    if b.rank == 1 {
      assert b.shape == [inner];
      ProductOfOne(inner);
    } else {
      assert b.shape == [inner, cols];
      ProductOfPair(inner, cols);
    }
    ProductOfPair(rows, cols);
    var entries := MultiplyBuffers(a.data, b.data, rows, inner, cols);
    MatMul.ProductFromEntries(entries[..], a.data[..], b.data[..], rows, inner, cols);
    r := new Ndarray.Adopt(2, total, [rows, cols], entries);
  }

  /**
   * The accumulation loops of Dot over row-major buffers: every entry starts
   * at 0 and adds a[i * inner + k] * b[k * cols + j] for each k below inner.
   */
  method MultiplyBuffers(a: array<int>, b: array<int>, rows: nat, inner: nat, cols: nat)
    returns (r: array<int>)
    requires a.Length == rows * inner && b.Length == inner * cols
    ensures fresh(r) && r.Length == rows * cols
    ensures forall p | 0 <= p < r.Length :: r[p] == MatMul.Entry(a[..], b[..], rows, inner, cols, p)
  {
    ghost var sa, sb := a[..], b[..];
    var total := rows * cols;
    r := new int[total](_ => 0);
    var p := 0;
    while p < total
      invariant 0 <= p <= total && r.Length == total
      invariant a[..] == sa && b[..] == sb
      invariant forall q | 0 <= q < p :: r[q] == MatMul.Entry(sa, sb, rows, inner, cols, q)
      invariant forall q | p <= q < total :: r[q] == 0
    {
      AccumulateEntry(a, b, r, p, rows, inner, cols);
      p := p + 1;
    }
  }

  /**
   * One pass of Dot's outer loop: entry p lies in row p / cols and column
   * p % cols, and the inner loop adds that row of a dotted with that column
   * of b into r[p].
   */
  method AccumulateEntry(a: array<int>, b: array<int>, r: array<int>, p: nat, rows: nat, inner: nat, cols: nat)
    requires r != a && r != b
    requires a.Length == rows * inner && b.Length == inner * cols && p < rows * cols && p < r.Length
    modifies r
    ensures r[p] == old(r[p]) + MatMul.Entry(a[..], b[..], rows, inner, cols, p)
    ensures forall q | 0 <= q < r.Length && q != p :: r[q] == old(r[q])
  {
    var i: nat, j: nat := p / cols, p % cols;
    assert i < rows && j < cols by { Arith.DivBound(p, rows, cols); }
    assert i * inner + inner <= a.Length by { Arith.RowEnd(i, rows, inner); }
    var k := 0;
    while k < inner
      invariant 0 <= k <= inner
      invariant r[p] == old(r[p]) + MatMul.DotSum(a[..], b[..], i, j, inner, cols, k)
      invariant forall q | 0 <= q < r.Length && q != p :: r[q] == old(r[q])
    {
      var x: int, y: int := i * inner + k, k * cols + j;
      assert 0 <= x < a.Length by { Arith.RowOffsetBound(i, k, rows, inner); }
      assert 0 <= y < b.Length by { Arith.RowOffsetBound(k, j, inner, cols); }
      r[p] := r[p] + a[x] * b[y];
      k := k + 1;
    }
  }
}
