# An n-dimensional array and its factory, in Dafny

This project models the small NumPy-style array library of the
DeepLearning program, two C++ headers:

- `numpy::Ndarray<T>` (Ndarray.h) is an n-dimensional array. It owns:
  - a rank (`mDemension`);
  - a total size (`mTotalSize`);
  - a shape buffer holding one extent per axis, outermost first (`mArraySize`);
  - a flat row-major element buffer (`mArray`).

  It provides:
  - a default constructor that builds the empty sentinel (rank 0, size 0);
  - constructors from explicit fields;
  - deep and moving copy, both as constructor and as assignment;
  - structural equality;
  - element-wise `+`;
  - `Reshape`;
  - a nested-bracket text rendering.
- `numpy::Numpy<T>` (Numpy.h) is a static factory:
  - `Zeros` and `Ones` build a filled array from a shape;
  - `Dot` is the matrix product of operands of rank 1 or 2.

The element type is `int` throughout.

The modules follow the source:

- `Shapes` holds shapes and the product of their extents, including the
  extent-multiplying loop of the factory methods and of `Reshape`.
- `NdArrays` holds the `Ndarray` class. Its fields `rank`, `size`, `shape`
  and `data` are updated in place. The operations that change state
  (`Reshape`, the two assignments and the moving constructor) carry a
  `modifies` clause. Equality, `+` and the rendering only read.
- `Rendering` holds the specification of the stream operator, as a token
  sequence: the rendering as written (`Rendered`) and the intended one with
  line breaks (`RenderedWithBreaks`).
- `MatMul` holds the row-major matrix product on flat buffers that `Dot`
  computes, and `Dot`'s index arithmetic as written.
- `Numpy` holds `Zeros`, `Ones` and `Dot`.
- `Scenarios` holds client-level consequences. Examples:
  - a copy compares equal to its source;
  - a reshape and its inverse restore the array;
  - adding zeros is the identity;
  - the counterexamples behind the findings below.

Arrays carry two invariants:

- `Sized()`: the shape has `rank` extents and the buffer holds `size`
  elements.
- `Valid()`: `Sized()`, and `size` is the product of the shape unless the
  array is the empty sentinel.

Where the source is defective (see Findings), the main model follows the
evident intent, and the as-written behaviour is modelled beside it.
`Zeros` of a shape with a zero extent yields an array of the given rank
with size 0, not the empty sentinel, and the model follows the code.

The stream operator's line break sits inside the branch that writes a `]`,
and is guarded by `j == 0` where `j` only takes the values `rank` down to 1.
The intended rendering puts one line break between consecutive blocks of the
outermost axis and none after the last. In the loop's terms: right after the
`]` that ends a block of axis 1 (`j == 2`), unless the element is the last
one. The outer axis's separating space still follows the line break, so a
2 x 2 matrix renders as `[[a  b]` and ` [c  d]]` on two lines.

## Model

| member | source | states |
|---|---|---|
| `Shapes.Product` | DeepLearning/DeepLearning/Numpy.h:33-39 | the element count of a shape is positive exactly when every extent is positive |
| `Shapes.MultiplyExtents` | DeepLearning/DeepLearning/Numpy.h:33-39 | the extent-multiplying loop of the factories computes the product of the shape |
| `Shapes.ProductSplit` | DeepLearning/DeepLearning/Ndarray.h:32-40 | the element count splits at any axis into the outer count times the inner block length, which the rendering's running product relies on |
| `Shapes.ProductOfPair` | DeepLearning/DeepLearning/Numpy.h:82-85 | a two-axis shape `[x, y]` holds `x * y` elements, the size Dot gives its result |
| `NdArrays.Ndarray.constructor` | DeepLearning/DeepLearning/Ndarray.h:71-78 | the default constructor yields the valid empty sentinel: rank 0, size 0, no extents, no elements |
| `NdArrays.Ndarray.Adopt` | DeepLearning/DeepLearning/Ndarray.h:80-87 | the owning constructor takes over the caller's rank, size, shape and buffer unchanged |
| `NdArrays.Ndarray.FromBuffers` | DeepLearning/DeepLearning/Ndarray.h:89-105 | the copying constructor holds the first `rank` extents and the first `size` elements of the caller's buffers, in a buffer of its own; both caller buffers are `unsigned int` buffers, so both are sequences of naturals |
| `NdArrays.Ndarray.Copy` | DeepLearning/DeepLearning/Ndarray.h:107-122 | a copy has the source's rank, size, extents and elements, in a freshly allocated buffer |
| `NdArrays.Ndarray.Move` | DeepLearning/DeepLearning/Ndarray.h:124-133 | a moving copy takes over the source's rank, size, shape and buffer, and leaves the source as the valid empty sentinel |
| `NdArrays.Ndarray.CopyAssign` | DeepLearning/DeepLearning/Ndarray.h:135-156 | after copy assignment the target has the source's rank, size, extents and elements; a target distinct from the source gets a fresh buffer, and the source's buffer is kept; self-assignment keeps the buffer |
| `NdArrays.Ndarray.MoveAssign` | DeepLearning/DeepLearning/Ndarray.h:158-173 | move assignment carries rank, size, shape and buffer over and empties the source; moving an array into itself changes nothing |
| `NdArrays.Ndarray.Reshape` | DeepLearning/DeepLearning/Ndarray.h:175-192 | the reshape succeeds exactly when the new shape holds `size` elements, and then replaces rank and shape; otherwise nothing changes; size and buffer are never touched, and validity is preserved |
| `NdArrays.Ndarray.ReshapeAsWritten` | DeepLearning/DeepLearning/Ndarray.h:175-192 | as written, rank and shape are replaced whatever the new shape's element count, while size and buffer stay |
| `NdArrays.Ndarray.Equals` | DeepLearning/DeepLearning/Ndarray.h:194-209 | equality holds if and only if ranks, sizes, every extent and every element are equal |
| `NdArrays.Ndarray.CheckSameShape` | DeepLearning/DeepLearning/Ndarray.h:214-220 | the operator's guard passes if and only if rank, size and every extent agree |
| `NdArrays.Ndarray.Add` | DeepLearning/DeepLearning/Ndarray.h:211-235 | a shape mismatch gives the empty sentinel; otherwise the result has the operands' rank, size and shape, element `i` is the sum of the operands' elements `i`, and validity is preserved |
| `NdArrays.Ndarray.AddAsWritten` | DeepLearning/DeepLearning/Ndarray.h:211-235 | as written, the operator returns the empty sentinel whatever its operands |
| `NdArrays.Ndarray.Render` | DeepLearning/DeepLearning/Ndarray.h:28-63 | the stream operator writes exactly `RenderedWithBreaks(shape, data, size)`, in buffer order: each element's opening brackets, the element, then its closing brackets and spaces, with a line break between blocks of the outermost axis. Every element of the buffer is written, even when the shape does not account for them all |
| `NdArrays.Ndarray.OpenBrackets` | DeepLearning/DeepLearning/Ndarray.h:32-40 | the opening loop's running product walks the axes from the innermost out and writes `Opens`: one `[` per axis whose block starts at the element |
| `NdArrays.Ndarray.CloseBrackets` | DeepLearning/DeepLearning/Ndarray.h:43-60 | the closing loop writes `ClosesWithBreak`: a `]` for each axis whose block ends at the element and a space for every other axis, plus a line break after the `]` of axis 1 unless the element is the last |
| `NdArrays.CopyExtents` | DeepLearning/DeepLearning/Ndarray.h:94-98 | the extent-copying loop yields exactly the first `n` extents |
| `NdArrays.CopyElements` | DeepLearning/DeepLearning/Ndarray.h:117-121 | the element-copying loop yields a fresh buffer holding exactly the first `n` elements |
| `Rendering.Opens` | DeepLearning/DeepLearning/Ndarray.h:33-40 | what is written before an element consists of opening brackets only |
| `Rendering.Closes` | DeepLearning/DeepLearning/Ndarray.h:44-60 | as written, what follows an element has one token per axis, each a closing bracket or a space, and never a line break |
| `Rendering.ExcessCounts` | DeepLearning/DeepLearning/Ndarray.h:33-60 | around one element, opening minus closing brackets is the per-axis sum of "block starts here" minus "block ends here" |
| `Rendering.TotalExcessZero` | DeepLearning/DeepLearning/Ndarray.h:30-61 | over a whole buffer, every axis opens as many blocks as it closes |
| `Rendering.RenderExcess` | DeepLearning/DeepLearning/Ndarray.h:30-61 | the rendering of the first `n` elements holds as many more `[` than `]` as the blocks begun and not yet ended |
| `Rendering.RenderBalanced` | DeepLearning/DeepLearning/Ndarray.h:28-63 | the rendering of a whole array, as written, has as many `[` as `]` |
| `Rendering.OpensAtStart` | DeepLearning/DeepLearning/Ndarray.h:33-40 | the first element is preceded by one `[` per axis |
| `Rendering.ClosesAtEnd` | DeepLearning/DeepLearning/Ndarray.h:44-60 | the last element is followed by one `]` per axis |
| `Rendering.VectorRendering` | DeepLearning/DeepLearning/Ndarray.h:28-63 | the vector `[1, 2, 3]` renders as `[1 2 3]` |
| `Rendering.SquareTokens` | DeepLearning/DeepLearning/Ndarray.h:30-61 | in a 2 x 2 matrix, element `i` is written as `[[x  `, `x] `, `[x  ` or `x]]` according to `i % 4` |
| `Rendering.MatrixRendering` | DeepLearning/DeepLearning/Ndarray.h:28-63 | as written, a 2 x 2 matrix renders as `[[a  b] [c  d]]`, with no line break between the rows |
| `Rendering.ClosesWithoutBreaks` | DeepLearning/DeepLearning/Ndarray.h:43-60 | the intended closing tokens of an element, with their line break removed, are exactly the ones the loop writes as written |
| `Rendering.RenderedWithoutBreaks` | DeepLearning/DeepLearning/Ndarray.h:28-63 | the intended rendering differs from the rendering as written only by line breaks |
| `Rendering.RenderedWithBreaksBalanced` | DeepLearning/DeepLearning/Ndarray.h:28-63 | the intended rendering of a whole array has as many `[` as `]` |
| `Rendering.ClosesBreakCount` | DeepLearning/DeepLearning/Ndarray.h:43-60 | an element's closing tokens hold a line break exactly when the array has rank 2 or more, a block of axis 1 ends at the element, and the element is not the last |
| `Rendering.ElementBreakCount` | DeepLearning/DeepLearning/Ndarray.h:30-61 | everything written for an element holds a line break under exactly the same condition |
| `Rendering.BreaksBefore` | DeepLearning/DeepLearning/Ndarray.h:30-61 | before the last element, the line breaks written so far count the blocks of axis 1 that have ended |
| `Rendering.RowBreaks` | DeepLearning/DeepLearning/Ndarray.h:50-53 | a whole array of rank 2 or more has one line break fewer than its outermost extent: one between each two consecutive outer blocks, none after the last |
| `Rendering.NoBreaksBelowRankTwo` | DeepLearning/DeepLearning/Ndarray.h:50-53 | a rank-0 or rank-1 array has no line break |
| `Rendering.SquareTokensWithBreaks` | DeepLearning/DeepLearning/Ndarray.h:30-61 | in a 2 x 2 matrix, the four elements are meant to be written as `[[x  `, `x]` plus a line break plus a space, `[x  ` and `x]]` |
| `Rendering.MatrixRenderingWithBreaks` | DeepLearning/DeepLearning/Ndarray.h:50-53 | a 2 x 2 matrix is meant to render as `[[a  b]`, a line break, then ` [c  d]]` |
| `MatMul.Product` | DeepLearning/DeepLearning/Numpy.h:87-97 | the row-major product of a `rows x inner` and an `inner x cols` buffer has `rows * cols` entries |
| `MatMul.ProductAt` | DeepLearning/DeepLearning/Numpy.h:87-97 | entry `(i, j)`, at `i * cols + j`, is the sum over `k` of `a[i * inner + k] * b[k * cols + j]` |
| `MatMul.ProductFromEntries` | DeepLearning/DeepLearning/Numpy.h:87-97 | a buffer that holds every entry of the product is the product |
| `MatMul.ProductRightIdentity` | DeepLearning/DeepLearning/Numpy.h:72-100 | multiplying by the identity on the right gives back the matrix |
| `MatMul.ProductLeftIdentity` | DeepLearning/DeepLearning/Numpy.h:72-100 | multiplying by the identity on the left gives back the matrix |
| `MatMul.SquareTimesIdentity` | DeepLearning/DeepLearning/Numpy.h:72-100 | `[[1, 2], [3, 4]]` times the 2 x 2 identity is `[[1, 2], [3, 4]]` |
| `MatMul.OnesSquared` | DeepLearning/DeepLearning/Numpy.h:72-100 | the 2 x 2 matrix of ones squared is the 2 x 2 matrix of twos |
| `MatMul.AsWrittenProduct` | DeepLearning/DeepLearning/Numpy.h:89-97 | Dot's loops as written yield one entry per output position |
| `MatMul.AsWrittenProductDiffers` | DeepLearning/DeepLearning/Numpy.h:89-97 | as written, the identity example yields `[[1, 1], [4, 4]]`, whose entry 1 differs from the row-major product's |
| `Numpy.Filled` | DeepLearning/DeepLearning/Numpy.h:29-70 | the shared body of Zeros and Ones yields a valid array of the given rank and shape, with size the product of the extents and every element the fill value |
| `Numpy.Zeros` | DeepLearning/DeepLearning/Numpy.h:29-48 | Zeros yields a valid array with rank the number of extents, the given shape, size the product of the extents, and every element 0 |
| `Numpy.Ones` | DeepLearning/DeepLearning/Numpy.h:50-70 | Ones yields the same rank, shape and size as Zeros, with every element 1 |
| `Numpy.RankAsWritten` | DeepLearning/DeepLearning/Numpy.h:31 | the rank inferred as `sizeof(const unsigned int*) / sizeof(unsigned int)` is 2 on a 64-bit target |
| `Numpy.ZerosAsWritten` | DeepLearning/DeepLearning/Numpy.h:29-48 | as written, Zeros builds a rank-2 array from the first two extents only |
| `Numpy.ZerosAsWrittenDropsAxis` | DeepLearning/DeepLearning/Numpy.h:31 | as written, the shape `[4, 5, 6]` yields 20 elements instead of 120 |
| `Numpy.Dot` | DeepLearning/DeepLearning/Numpy.h:72-100 | an operand of rank 0 or above 2 gives the empty sentinel, and so does an inner-extent mismatch; otherwise the result is a valid rank-2 `rows x cols` array whose buffer is the row-major product |
| `Numpy.MultiplyBuffers` | DeepLearning/DeepLearning/Numpy.h:86-97 | the accumulation loops fill a fresh zero-initialised buffer with every entry of the row-major product |
| `Numpy.AccumulateEntry` | DeepLearning/DeepLearning/Numpy.h:91-96 | one pass of the outer loop adds row `p / cols` of `a` dotted with column `p % cols` of `b` into entry `p`, and changes no other entry |
| `Scenarios.EqualsReflexive` | DeepLearning/DeepLearning/Ndarray.h:194-209 | every array compares equal to itself |
| `Scenarios.CopyEqualsSource` | DeepLearning/DeepLearning/Ndarray.h:107-122 | a copy compares equal to its source and owns a different buffer |
| `Scenarios.MoveCarriesContents` | DeepLearning/DeepLearning/Ndarray.h:124-133 | after a move the new array equals a copy of the source taken beforehand, and the source is the empty sentinel |
| `Scenarios.AddZerosIsIdentity` | DeepLearning/DeepLearning/Ndarray.h:211-235 | adding zeros of the same shape gives back an array equal to the original |
| `Scenarios.ReshapeRoundTrip` | DeepLearning/DeepLearning/Ndarray.h:175-192 | a reshape succeeds exactly when the element counts agree, and reshaping back restores an array equal to the original |
| `Scenarios.ReshapeSequence` | DeepLearning/DeepLearning/Ndarray.h:175-192 | a 4 x 5 array reshapes to 2 x 10 and to 5 x 4 but not to 3 x 3, and then keeps the 5 x 4 shape |
| `Scenarios.ReshapeAsWrittenBreaksSize` | DeepLearning/DeepLearning/Ndarray.h:188 | as written, a 4 x 5 array reshaped to 3 x 3 holds 20 elements while its shape accounts for 9 |
| `Scenarios.AddAsWrittenLosesSum` | DeepLearning/DeepLearning/Ndarray.h:233-234 | as written, the sum of two vectors of ones has size 0; the computed sum is `[2, 2]` |
| `Scenarios.RenderSquareOfOnes` | DeepLearning/DeepLearning/Ndarray.h:28-63 | the 2 x 2 array of ones renders as `[[1  1]`, a line break, then ` [1  1]]` |
| `Scenarios.DotOfOnes` | DeepLearning/DeepLearning/Numpy.h:72-100 | a 2 x 3 matrix times a 2 x 2 one gives the empty sentinel, and the 2 x 2 matrix of ones squared has entries `[2, 2, 2, 2]` |

## Left out

- Ownership through `std::unique_ptr` is not modelled. Buffers are Dafny
  arrays and sequences whose length is stated. A move leaves the source with
  rank 0, size 0, no extents and an empty buffer, in place of an empty `unique_ptr`.
- Some of the source does not compile once instantiated, and the model
  follows the evident intent instead:
  - `Zeros` and `Dot` pass `unique_ptr` values by copy
    (DeepLearning/DeepLearning/Numpy.h:47 and :99); the model moves them, as
    `Ones` does.
  - `operator+` passes a `unique_ptr` as the size argument
    (DeepLearning/DeepLearning/Ndarray.h:233).
- The rank is the length of the shape sequence; the `sizeof` inference is
  the finding below.
- The element type is `int`. Floating-point instantiations are not modelled.
- Extents and sizes are unbounded naturals. Wrap-around of `unsigned int`
  products is not modelled.
- Elements are unbounded integers. Element sums in `operator+`
  (DeepLearning/DeepLearning/Ndarray.h:231) and the accumulated products of
  `Dot` (DeepLearning/DeepLearning/Numpy.h:95) never overflow in the model.
  In C++ they can overflow `int`, which is undefined behaviour.
- Values are not formatted through `std::ostream`. The rendering is a token
  sequence: `Open`, `Close`, `Space`, `Newline` and `Elem(v)`. The stream
  flush that `std::endl` performs besides the line break is not modelled.
- NdArrays.Ndarray.FromBuffers: its element-copying loop starts from an
  uninitialised counter (DeepLearning/DeepLearning/Ndarray.h:101). The model
  starts it at 0, the only reading under which every element is copied. The
  C++ reads an indeterminate value, which is undefined behaviour.
- Numpy.Dot: for a rank-1 `a` with `b.shape[0] == 1`, the source also reads
  `a`'s second extent, which does not exist
  (DeepLearning/DeepLearning/Numpy.h:79). The model treats a rank-1 `a` as
  an n x 1 column, so its inner extent is 1.
- Numpy.Dot requires both operands to be valid arrays, where the source
  demands nothing.
- NdArrays.Ndarray.Reshape returns whether the shape was accepted. The
  source returns nothing and its intended check is commented out.
- The unused static seed of `Numpy` (DeepLearning/DeepLearning/Numpy.h:19) is
  not modelled.
- The demo driver `main.cpp` is not part of this model. It prints to the
  console and holds a commented-out floating-point prototype.
- The headers define no scalar operation and no element-wise multiply, so
  neither is modelled.

## Findings

| source | as written | input that shows it | evidently intended | confidence | as-written member | corrected member |
|---|---|---|---|---|---|---|
| DeepLearning/DeepLearning/Ndarray.h:233-234 | `operator+` computes the sum, then returns a default-constructed array | two vectors of ones of shape `[2]`: the result has rank 0 and size 0 | return the computed sum, here `[2, 2]` | not executed | `Scenarios.AddAsWrittenLosesSum` | `NdArrays.Ndarray.Add` |
| DeepLearning/DeepLearning/Ndarray.h:188 | `Reshape` has its size check commented out and always installs the new shape | a 4 x 5 array reshaped to `[3, 3]`: size 20, while the shape accounts for 9 | refuse a shape whose product differs from the size | not executed | `Scenarios.ReshapeAsWrittenBreaksSize` | `NdArrays.Ndarray.Reshape` |
| DeepLearning/DeepLearning/Numpy.h:91-95 | `Dot` takes the row of entry `i` as `i / rows` and its column as `i / cols`, and strides `b` by the inner extent | `[[1, 2], [3, 4]]` times the 2 x 2 identity: `[[1, 1], [4, 4]]` | the row-major product, `[[1, 2], [3, 4]]` | not executed | `MatMul.AsWrittenProductDiffers` | `MatMul.ProductRightIdentity` |
| DeepLearning/DeepLearning/Ndarray.h:50-53 | the line break is written only when `j == 0`, inside a loop whose `j` runs from the rank down to 1, so it is never written | a 2 x 2 matrix `[[a, b], [c, d]]`: `[[a  b] [c  d]]` on one line | a line break between consecutive blocks of the outermost axis and none after the last: `[[a  b]`, then ` [c  d]]` | not executed | `Rendering.MatrixRendering` | `Rendering.MatrixRenderingWithBreaks` |
| DeepLearning/DeepLearning/Numpy.h:31 | the rank is `sizeof(const unsigned int*) / sizeof(unsigned int)`, which is 2 on a 64-bit target, whatever the caller passes; `Ones` (Numpy.h:53) and `Reshape` (Ndarray.h:178) do the same | `Zeros` of `[4, 5, 6]`: 20 elements instead of 120 | the rank is the number of extents the caller supplies | not executed | `Numpy.ZerosAsWrittenDropsAxis` | `Numpy.Zeros` |
