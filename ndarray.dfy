// numpy::Ndarray<T> with T = int: an n-dimensional array that owns a shape
// (one extent per axis, outermost first) and a flat row-major buffer of
// elements. The rank-0, size-0 array is the sentinel that failed
// operations return.
module NdArrays {
  import opened Shapes
  import opened Rendering

  class Ndarray {
    var rank: nat
    var size: nat
    var shape: seq<nat>
    var data: array<int>

    /** The shape has one extent per axis and the buffer holds exactly size elements. */
    ghost predicate Sized()
      reads this
    {
      |shape| == rank && data.Length == size
    }

    /** Sized, and the size is the product of the shape unless this is the sentinel. */
    ghost predicate Valid()
      reads this
    {
      Sized() && (size == Product(shape) || IsEmpty())
    }

    /** The empty sentinel: rank 0 and size 0. */
    predicate IsEmpty()
      reads this
    {
      rank == 0 && size == 0
    }

    /** The default constructor builds the empty sentinel. */
    constructor ()
      ensures Valid() && IsEmpty() && shape == [] && fresh(data)
    {
      rank, size, shape := 0, 0, [];
      data := new int[0];
    }

    /** Takes over a shape and a buffer that the caller hands in; trusts the caller's rank and size. */
    constructor Adopt(rank: nat, size: nat, shape: seq<nat>, data: array<int>)
      ensures this.rank == rank && this.size == size && this.shape == shape && this.data == data
      ensures |shape| == rank && data.Length == size ==> Sized()
    {
      this.rank, this.size, this.shape, this.data := rank, size, shape, data;
    }

    /** Copies the first rank extents and the first size elements of the caller's buffers. */
    constructor FromBuffers(rank: nat, size: nat, shapeBuf: seq<nat>, dataBuf: seq<nat>)
      requires rank <= |shapeBuf| && size <= |dataBuf|
      ensures Sized() && this.rank == rank && this.size == size
      ensures shape == shapeBuf[..rank] && data[..] == dataBuf[..size] && fresh(data)
    {
      var extents := CopyExtents(shapeBuf, rank);
      var elements := CopyElements(dataBuf, size);
      this.rank, this.size, shape, data := rank, size, extents, elements;
    }

    /** Deep copy: same rank, size, shape and elements, in a buffer of its own. */
    constructor Copy(rhs: Ndarray)
      requires rhs.Sized()
      ensures Sized() && rank == rhs.rank && size == rhs.size && shape == rhs.shape
      ensures data[..] == rhs.data[..] && fresh(data)
    {
      var extents := CopyExtents(rhs.shape, rhs.rank);
      var elements := CopyElements(rhs.data[..], rhs.size);
      rank, size, shape, data := rhs.rank, rhs.size, extents, elements;
    }

    /** Moving copy: takes over rhs's fields and leaves rhs as the empty sentinel. */
    constructor Move(rhs: Ndarray)
      requires rhs.Sized()
      modifies rhs
      ensures rank == old(rhs.rank) && size == old(rhs.size) && shape == old(rhs.shape)
      ensures data == old(rhs.data) && data[..] == old(rhs.data[..]) && Sized()
      ensures rhs.Valid() && rhs.IsEmpty() && rhs.shape == [] && fresh(rhs.data)
    {
      rank, size, shape, data := rhs.rank, rhs.size, rhs.shape, rhs.data;
      new;
      rhs.rank, rhs.size, rhs.shape := 0, 0, [];
      rhs.data := new int[0];
    }

    /** Copy assignment: becomes a deep copy of rhs; assigning an array to itself changes nothing. */
    method CopyAssign(rhs: Ndarray)
      requires Sized() && rhs.Sized()
      modifies this
      ensures Sized() && rank == old(rhs.rank) && size == old(rhs.size) && shape == old(rhs.shape)
      ensures data[..] == old(rhs.data[..])
      ensures this == rhs ==> data == old(data)
      ensures this != rhs ==> fresh(data) && rhs.data == old(rhs.data)
    {
      if this == rhs {
        return;
      }
      var extents := CopyExtents(rhs.shape, rhs.rank);
      var elements := CopyElements(rhs.data[..], rhs.size);
      rank, size, shape, data := rhs.rank, rhs.size, extents, elements;
    }

    /** Move assignment: takes over rhs's fields and empties rhs; moving into itself changes nothing. */
    method MoveAssign(rhs: Ndarray)
      requires Sized() && rhs.Sized()
      modifies this, rhs
      ensures this == rhs ==> unchanged(this)
      ensures this != rhs ==> rank == old(rhs.rank) && size == old(rhs.size) && shape == old(rhs.shape)
      ensures this != rhs ==> data == old(rhs.data) && data[..] == old(rhs.data[..]) && Sized()
      ensures this != rhs ==> rhs.Valid() && rhs.IsEmpty() && rhs.shape == [] && fresh(rhs.data)
    {
      if this == rhs {
        return;
      }
      rank := rhs.rank;
      rhs.rank := 0;
      size := rhs.size;
      rhs.size := 0;
      shape, data := rhs.shape, rhs.data;
      rhs.shape := [];
      rhs.data := new int[0];
    }

    /**
     * Replaces rank and shape when the new shape holds exactly size elements,
     * and leaves the array alone otherwise; the size and the buffer are never
     * touched, so the elements are reinterpreted in row-major order.
     */
    method Reshape(newShape: seq<nat>) returns (ok: bool)
      requires Sized()
      modifies this
      ensures Sized() && size == old(size) && data == old(data) && data[..] == old(data[..])
      ensures ok <==> Product(newShape) == size
      ensures ok ==> rank == |newShape| && shape == newShape
      ensures !ok ==> rank == old(rank) && shape == old(shape)
      ensures old(Valid()) ==> Valid()
    {
      var total := MultiplyExtents(newShape);
      ok := total == size;
      if ok {
        rank, shape := |newShape|, newShape;
      }
    }

    /** Reshape as written: the size check is commented out, so rank and shape are always replaced. */
    method ReshapeAsWritten(newShape: seq<nat>)
      requires Sized()
      modifies this
      ensures Sized() && rank == |newShape| && shape == newShape
      ensures size == old(size) && data == old(data) && data[..] == old(data[..])
    {
      rank, shape := |newShape|, newShape;
    }

    /**
     * Structural equality: equal ranks, equal sizes, equal extents and equal
     * elements, checked in that order.
     */
    method Equals(rhs: Ndarray) returns (eq: bool)
      requires Sized() && rhs.Sized()
      ensures eq <==> rank == rhs.rank && size == rhs.size && shape == rhs.shape && data[..] == rhs.data[..]
    {
      if rank != rhs.rank {
        return false;
      }
      if size != rhs.size {
        return false;
      }
      var i := 0;
      while i < rank
        invariant 0 <= i <= rank
        invariant forall k | 0 <= k < i :: shape[k] == rhs.shape[k]
      {
        if shape[i] != rhs.shape[i] {
          return false;
        }
        i := i + 1;
      }
      i := 0;
      while i < size
        invariant 0 <= i <= size
        invariant forall k | 0 <= k < i :: data[k] == rhs.data[k]
      {
        if data[i] != rhs.data[i] {
          assert data[..][i] != rhs.data[..][i];
          return false;
        }
        i := i + 1;
      }
      return true;
    }

    /** Both arrays have the same rank, the same size and the same extents. */
    ghost predicate SameShape(rhs: Ndarray)
      reads this, rhs
    {
      rank == rhs.rank && size == rhs.size && shape == rhs.shape
    }

    /**
     * Element-wise sum. Arrays that differ in rank, size or any extent give
     * the empty sentinel; otherwise element i of the result is the sum of the
     * operands' elements i.
     */
    method Add(rhs: Ndarray) returns (r: Ndarray)
      requires Sized() && rhs.Sized()
      ensures fresh(r) && fresh(r.data) && r.Sized()
      ensures !SameShape(rhs) ==> r.IsEmpty()
      ensures SameShape(rhs) ==> r.rank == rank && r.size == size && r.shape == shape
      ensures SameShape(rhs) ==> forall i | 0 <= i < size :: r.data[i] == data[i] + rhs.data[i]
      ensures Valid() ==> r.Valid()
    {
      var same := CheckSameShape(rhs);
      if !same {
        r := new Ndarray();
        return;
      }
      var sum := new int[size];
      var i := 0;
      while i < size
        invariant 0 <= i <= size
        invariant forall k | 0 <= k < i :: sum[k] == data[k] + rhs.data[k]
      {
        sum[i] := data[i] + rhs.data[i];
        i := i + 1;
      }
      r := new Ndarray.Adopt(rank, size, rhs.shape, sum);
    }

    /**
     * Element-wise sum as written: the shape checks and the summing loop run,
     * but the default-constructed array is returned instead of the sum.
     */
    method AddAsWritten(rhs: Ndarray) returns (r: Ndarray)
      requires Sized() && rhs.Sized()
      ensures fresh(r) && r.Valid() && r.IsEmpty()
    {
      var same := CheckSameShape(rhs);
      if !same {
        r := new Ndarray();
        return;
      }
      var sum := new int[size];
      var i := 0;
      while i < size
        invariant 0 <= i <= size
      {
        sum[i] := data[i] + rhs.data[i];
        i := i + 1;
      }
      r := new Ndarray();
    }

    /** The rank, size and extent checks shared by the element-wise operators, axis by axis. */
    method CheckSameShape(rhs: Ndarray) returns (same: bool)
      requires Sized() && rhs.Sized()
      ensures same <==> SameShape(rhs)
    {
      if rank != rhs.rank || size != rhs.size {
        return false;
      }
      var i := 0;
      while i < rank
        invariant 0 <= i <= rank
        invariant forall k | 0 <= k < i :: shape[k] == rhs.shape[k]
      {
        if shape[i] != rhs.shape[i] {
          return false;
        }
        i := i + 1;
      }
      return true;
    }

    /**
     * The nested-bracket rendering: before element i one '[' for each axis
     * whose block starts at i, after it one ']' for each axis whose block
     * ends at i and a space for every other axis, axes walked from the
     * innermost out with a running product of extents, and a line break
     * after each block of axis 1 but the last. Every element is written,
     * whether or not the shape accounts for them all.
     */
    method Render() returns (out: seq<Token>)
      requires Sized() && (size > 0 ==> AllPositive(shape))
      ensures out == RenderedWithBreaks(shape, data[..], size)
    {
      out := [];
      var i := 0;
      while i < size
        invariant 0 <= i <= size
        invariant out == RenderedWithBreaks(shape, data[..], i)
      {
        var opens := OpenBrackets(i);
        var closes := CloseBrackets(i, i + 1 == size);
        out := out + (opens + [Elem(data[i])] + closes);
        i := i + 1;
      }
    }

    /** The brackets written before element i: one '[' for each axis whose block starts at i. */
    method OpenBrackets(i: nat) returns (out: seq<Token>)
      requires |shape| == rank && AllPositive(shape)
      ensures out == Opens(shape, i, 0)
    {
      var extents := shape;
      out := [];
      var block := 1;
      var j := rank;
      while j > 0
        invariant 0 <= j <= |extents|
        invariant block == Block(extents, j)
        invariant out == Opens(extents, i, j)
      {
        block := extents[j - 1] * block;
        if i % block == 0 {
          out := out + [Open];
        }
        j := j - 1;
      }
    }

    /**
     * The tokens written after element i: one ']' for each axis whose block
     * ends at i and a space for every other axis, with a line break right
     * after the ']' of axis 1 unless i is the last element (last).
     */
    method CloseBrackets(i: nat, last: bool) returns (out: seq<Token>)
      requires |shape| == rank && AllPositive(shape)
      ensures out == ClosesWithBreak(shape, i, 0, last)
    {
      var extents := shape;
      out := [];
      var block := 1;
      var j := rank;
      while j > 0
        invariant 0 <= j <= |extents|
        invariant block == Block(extents, j)
        invariant out == ClosesWithBreak(extents, i, j, last)
      {
        block := extents[j - 1] * block;
        if i % block == block - 1 {
          out := out + [Close];
          if j == 2 && !last {
            out := out + [Newline];
          }
        } else {
          out := out + [Space];
        }
        j := j - 1;
      }
    }
  }

  /** Copies the first n extents, one at a time. */
  method CopyExtents(src: seq<nat>, n: nat) returns (dst: seq<nat>)
    requires n <= |src|
    ensures dst == src[..n]
  {
    dst := [];
    var i := 0;
    while i < n
      invariant 0 <= i <= n
      invariant dst == src[..i]
    {
      dst := dst + [src[i]];
      i := i + 1;
    }
  }

  /** Allocates a buffer of n elements and copies the first n elements of src into it. */
  method CopyElements(src: seq<int>, n: nat) returns (dst: array<int>)
    requires n <= |src|
    ensures fresh(dst) && dst[..] == src[..n]
  {
    dst := new int[n];
    var i := 0;
    while i < n
      invariant 0 <= i <= n
      invariant forall k | 0 <= k < i :: dst[k] == src[k]
    {
      dst[i] := src[i];
      i := i + 1;
    }
  }
}
