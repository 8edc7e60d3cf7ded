// Shapes of n-dimensional arrays: the ordered per-axis extents, outermost
// axis first, and the element counts they imply.
module Shapes {
  import Arith

  /** Every extent is at least one, so no axis is empty. */
  predicate AllPositive(shape: seq<nat>) {
    forall k | 0 <= k < |shape| :: shape[k] > 0
  }

  /** The number of elements an array of this shape holds (1 for no axes). */
  function Product(shape: seq<nat>): (p: nat)
    ensures p > 0 <==> AllPositive(shape)
  {
    if |shape| == 0 then 1
    else
      assert AllPositive(shape) <==> shape[0] > 0 && AllPositive(shape[1..]) by {
        if AllPositive(shape[1..]) && shape[0] > 0 {
          forall k | 0 <= k < |shape| ensures shape[k] > 0 {
            if k > 0 { assert shape[k] == shape[1..][k - 1]; }
          }
        }
      }
      shape[0] * Product(shape[1..])
  }

  /** A vector of x entries holds x elements. */
  lemma ProductOfOne(x: nat)
    ensures Product([x]) == x
  {
    assert [x][1..] == [];
  }

  /** A matrix of x rows and y columns holds x * y elements. */
  lemma ProductOfPair(x: nat, y: nat)
    ensures Product([x, y]) == x * y
  {
    assert [x, y][1..] == [y];
    ProductOfOne(y);
  }

  /** The element count of a concatenation of shapes multiplies. */
  lemma {:induction false} ProductAppend(a: seq<nat>, b: seq<nat>)
    ensures Product(a + b) == Product(a) * Product(b)
  {
    if |a| > 0 {
      assert (a + b)[1..] == a[1..] + b;
      ProductAppend(a[1..], b);
      var x, y, z := a[0], Product(a[1..]), Product(b);
      assert Product(a + b) == x * (y * z);
      assert Product(a) == x * y;
      Arith.MulAssoc(x, y, z);
    } else {
      assert a + b == b;
    }
  }

  /** The element count splits at any axis into outer and inner parts. */
  lemma ProductSplit(shape: seq<nat>, d: nat)
    requires d <= |shape|
    ensures Product(shape) == Product(shape[..d]) * Product(shape[d..])
  {
    assert shape == shape[..d] + shape[d..];
    ProductAppend(shape[..d], shape[d..]);
  }

  /** Multiplying extents in from the left, as the factory loops do, builds the product. */
  lemma ProductSnoc(shape: seq<nat>, i: nat)
    requires i < |shape|
    ensures Product(shape[..i + 1]) == Product(shape[..i]) * shape[i]
  {
    assert shape[..i + 1] == shape[..i] + [shape[i]];
    ProductAppend(shape[..i], [shape[i]]);
  }

  /** The inner extent of axis d is that axis's extent times the inner extent of axis d + 1. */
  lemma ProductSuffix(shape: seq<nat>, d: nat)
    requires d < |shape|
    ensures Product(shape[d..]) == shape[d] * Product(shape[d + 1..])
  {
    assert shape[d..][1..] == shape[d + 1..];
  }

  /** Multiplies the extents up from the outermost axis in, as the source's loops do. */
  method MultiplyExtents(shape: seq<nat>) returns (total: nat)
    ensures total == Product(shape)
  {
    total := 1;
    var i := 0;
    while i < |shape|
      invariant 0 <= i <= |shape|
      invariant total == Product(shape[..i])
    {
      ProductSnoc(shape, i);
      total := total * shape[i];
      i := i + 1;
    }
    assert shape[..|shape|] == shape;
  }
}
