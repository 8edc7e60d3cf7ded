// Client-level properties of the array library: what a caller observes when
// it chains the factory methods with copying, moving, reshaping, addition,
// equality and the matrix product.
module Scenarios {
  import opened Shapes
  import opened NdArrays
  import opened Numpy
  import opened Rendering

  /** Equality is reflexive: every array compares equal to itself. */
  method EqualsReflexive(x: Ndarray) returns (eq: bool)
    requires x.Sized()
    ensures eq
  {
    eq := x.Equals(x);
  }

  /** A deep copy compares equal to its source and owns a separate element buffer. */
  method CopyEqualsSource(x: Ndarray) returns (eq: bool, separate: bool)
    requires x.Sized()
    ensures eq && separate
  {
    var c := new Ndarray.Copy(x);
    eq := c.Equals(x);
    separate := c.data != x.data;
  }

  /**
   * Moving an array of ones carries its contents to the new array, which
   * compares equal to a copy taken beforehand, and leaves the source as the
   * empty sentinel.
   */
  method MoveCarriesContents(shape: seq<nat>) returns (eq: bool, sourceEmpty: bool)
    ensures eq && sourceEmpty
  {
    var x := Ones(shape);
    var before := new Ndarray.Copy(x);
    var moved := new Ndarray.Move(x);
    eq := moved.Equals(before);
    sourceEmpty := x.IsEmpty();
  }

  /** Adding zeros of the same shape gives back an array equal to the original. */
  method AddZerosIsIdentity(x: Ndarray) returns (eq: bool)
    requires x.Valid()
    ensures eq
  {
    var z := Zeros(x.shape);
    var r := x.Add(z);
    if x.SameShape(z) {
      assert r.data[..] == x.data[..];
    }
    eq := r.Equals(x);
  }

  /**
   * Reshaping a filled array to a shape of the same element count succeeds,
   * and reshaping it back restores an array equal to the original; a shape
   * of another element count is refused.
   */
  method ReshapeRoundTrip(shape: seq<nat>, newShape: seq<nat>) returns (ok: bool, back: bool, eq: bool)
    ensures ok <==> Product(newShape) == Product(shape)
    ensures back && eq
  {
    var x := Ones(shape);
    var before := new Ndarray.Copy(x);
    ok := x.Reshape(newShape);
    back := x.Reshape(shape);
    eq := x.Equals(before);
  }

  /**
   * A 4 x 5 array of zeros reshapes to 2 x 10 and to 5 x 4, but not to
   * 3 x 3, after which it keeps the 5 x 4 shape.
   */
  method ReshapeSequence() returns (first: bool, second: bool, third: bool, last: seq<nat>)
    ensures first && second && !third && last == [5, 4]
  {
    ProductOfPair(4, 5);
    ProductOfPair(2, 10);
    ProductOfPair(5, 4);
    ProductOfPair(3, 3);
    var x := Zeros([4, 5]);
    first := x.Reshape([2, 10]);
    second := x.Reshape([5, 4]);
    third := x.Reshape([3, 3]);
    last := x.shape;
  }

  /**
   * Reshape as written accepts 3 x 3 for a 4 x 5 array: the array then
   * claims 9 elements by its shape while it holds 20.
   */
  method ReshapeAsWrittenBreaksSize() returns (size: nat, product: nat)
    ensures size == 20 && product == 9
  {
    ProductOfPair(4, 5);
    ProductOfPair(3, 3);
    var x := Zeros([4, 5]);
    x.ReshapeAsWritten([3, 3]);
    size := x.size;
    product := MultiplyExtents(x.shape);
  }

  /**
   * The sum of two vectors of ones is the empty sentinel as written, and
   * the vector [2, 2] once the computed result is returned.
   */
  method AddAsWrittenLosesSum() returns (written: nat, intended: seq<int>)
    ensures written == 0 && intended == [2, 2]
  {
    ProductOfOne(2);
    var x := Ones([2]);
    var y := Ones([2]);
    var w := x.AddAsWritten(y);
    var r := x.Add(y);
    written := w.size;
    intended := r.data[..];
  }

  /**
   * A 2 x 3 matrix cannot multiply a 2 x 2 one (3 != 2), and a 2 x 2 matrix
   * of ones squared is the 2 x 2 matrix of twos.
   */
  method DotOfOnes() returns (mismatch: bool, entries: seq<int>)
    ensures mismatch && entries == [2, 2, 2, 2]
  {
    ProductOfPair(2, 3);
    ProductOfPair(2, 2);
    var a := Zeros([2, 3]);
    var b := Zeros([2, 2]);
    var bad := Dot(a, b);
    mismatch := bad.IsEmpty();
    var ones := Ones([2, 2]);
    assert ones.data[..] == [1, 1, 1, 1];
    var square := Dot(ones, ones);
    entries := square.data[..];
    MatMul.OnesSquared();
  }

  /**
   * A 2 x 2 array of ones renders as "[[1  1]" and " [1  1]]" on two
   * lines.
   */
  method RenderSquareOfOnes() returns (out: seq<Token>)
    ensures out == [Open, Open, Elem(1), Space, Space, Elem(1), Close, Newline, Space,
                    Open, Elem(1), Space, Space, Elem(1), Close, Close]
  {
    ProductOfPair(2, 2);
    var x := Ones([2, 2]);
    assert x.data[..] == [1, 1, 1, 1];
    out := x.Render();
    MatrixRenderingWithBreaks(x.shape, x.data[..]);
  }
}
