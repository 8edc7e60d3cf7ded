// The nested-bracket text rendering of an array (the stream operator of
// Ndarray.h), as a sequence of tokens: an opening bracket, a closing
// bracket, a separating space, a line break, or one element.
//
// Rendered is the rendering as the closing loop is written, whose line-break
// test can never hold; RenderedWithBreaks is the intended one, with a line
// break between the blocks of the outermost axis and none after the last.
module Rendering {
  import opened Shapes
  import Arith

  datatype Token = Open | Close | Space | Newline | Elem(value: int)

  /**
   * The inner extent of axis d: how many elements one block of that axis
   * spans, the product of the extents of axes d and inward.
   */
  function Block(shape: seq<nat>, d: nat): (b: nat)
    requires d <= |shape|
    ensures AllPositive(shape) ==> b > 0
    decreases |shape| - d
  {
    if d == |shape| then 1
    else
      var inner := Block(shape, d + 1);
      assert AllPositive(shape) ==> shape[d] * inner > 0 by {
        if AllPositive(shape) {
          assert shape[d] > 0;
          Arith.MulAtLeast(shape[d], inner);
        }
      }
      shape[d] * inner
  }

  /** The block of axis d holds as many elements as the shape of axes d and inward. */
  lemma {:induction false} BlockIsProduct(shape: seq<nat>, d: nat)
    requires d <= |shape|
    ensures Block(shape, d) == Product(shape[d..])
    decreases |shape| - d
  {
    if d < |shape| {
      BlockIsProduct(shape, d + 1);
      ProductSuffix(shape, d);
    }
  }

  /**
   * Brackets written before element i, for axes d .. |shape| - 1 walked from
   * the innermost outwards: one opening bracket for each axis whose block
   * starts at i.
   */
  function Opens(shape: seq<nat>, i: nat, d: nat): (r: seq<Token>)
    requires d <= |shape| && AllPositive(shape)
    ensures forall k | 0 <= k < |r| :: r[k] == Open
    decreases |shape| - d
  {
    if d == |shape| then []
    else Opens(shape, i, d + 1) + (if i % Block(shape, d) == 0 then [Open] else [])
  }

  /**
   * Tokens written after element i, for axes d .. |shape| - 1 walked from
   * the innermost outwards: a closing bracket for each axis whose block ends
   * at i, a space for every other axis.
   */
  function Closes(shape: seq<nat>, i: nat, d: nat): (r: seq<Token>)
    requires d <= |shape| && AllPositive(shape)
    ensures |r| == |shape| - d
    ensures forall k | 0 <= k < |r| :: r[k] == Close || r[k] == Space
    decreases |shape| - d
  {
    if d == |shape| then []
    else
      var c := Block(shape, d);
      Closes(shape, i, d + 1) + (if i % c == c - 1 then [Close] else [Space])
  }

  /** Everything written for element i of the flat buffer. */
  function ElementTokens(shape: seq<nat>, data: seq<int>, i: nat): seq<Token>
    requires i < |data| && AllPositive(shape)
  {
    Opens(shape, i, 0) + [Elem(data[i])] + Closes(shape, i, 0)
  }

  /** The rendering of the first n elements, in buffer order. */
  function Rendered(shape: seq<nat>, data: seq<int>, n: nat): seq<Token>
    requires n <= |data| && (n > 0 ==> AllPositive(shape))
  {
    if n == 0 then [] else Rendered(shape, data, n - 1) + ElementTokens(shape, data, n - 1)
  }

  /** How often token t occurs in ts. */
  function Count(ts: seq<Token>, t: Token): nat {
    if |ts| == 0 then 0 else Count(ts[..|ts| - 1], t) + (if ts[|ts| - 1] == t then 1 else 0)
  }

  lemma {:induction false} CountAppend(a: seq<Token>, b: seq<Token>, t: Token)
    ensures Count(a + b, t) == Count(a, t) + Count(b, t)
    decreases |b|
  {
    if |b| == 0 {
      assert a + b == a;
    } else {
      assert (a + b)[..|a + b| - 1] == a + b[..|b| - 1];
      CountAppend(a, b[..|b| - 1], t);
    }
  }

  lemma {:induction false} CountAbsent(ts: seq<Token>, t: Token)
    requires forall k | 0 <= k < |ts| :: ts[k] != t
    ensures Count(ts, t) == 0
  {
    if |ts| > 0 {
      CountAbsent(ts[..|ts| - 1], t);
    }
  }

  function Indicator(b: bool): int { if b then 1 else 0 }

  /**
   * Opening minus closing brackets written around element i by axes d and
   * inward: each axis adds one where its block starts at i and takes one away
   * where its block ends at i.
   */
  function Excess(shape: seq<nat>, i: nat, d: nat): int
    requires d <= |shape| && AllPositive(shape)
    decreases |shape| - d
  {
    if d == |shape| then 0
    else
      var c := Block(shape, d);
      Excess(shape, i, d + 1) + Indicator(i % c == 0) - Indicator(i % c == c - 1)
  }

  /** Excess counts exactly the brackets Opens and Closes write. */
  lemma {:induction false} ExcessCounts(shape: seq<nat>, i: nat, d: nat)
    requires d <= |shape| && AllPositive(shape)
    ensures Excess(shape, i, d) == Count(Opens(shape, i, d), Open) - Count(Closes(shape, i, d), Close)
    decreases |shape| - d
  {
    if d < |shape| {
      var c := Block(shape, d);
      var opens, closes := Opens(shape, i, d + 1), Closes(shape, i, d + 1);
      var open: seq<Token> := if i % c == 0 then [Open] else [];
      var close: seq<Token> := if i % c == c - 1 then [Close] else [Space];
      assert Count(Opens(shape, i, d), Open) == Count(opens, Open) + Indicator(i % c == 0) by {
        assert Opens(shape, i, d) == opens + open;
        CountAppend(opens, open, Open);
      }
      assert Count(Closes(shape, i, d), Close) == Count(closes, Close) + Indicator(i % c == c - 1) by {
        assert Closes(shape, i, d) == closes + close;
        CountAppend(closes, close, Close);
      }
      ExcessCounts(shape, i, d + 1);
    }
  }

  /** Excess summed over the first n elements. */
  function TotalExcess(shape: seq<nat>, n: nat, d: nat): int
    requires d <= |shape| && AllPositive(shape)
  {
    if n == 0 then 0 else TotalExcess(shape, n - 1, d) + Excess(shape, n - 1, d)
  }

  /** Over the first n indices, how many more blocks of length c start than end. */
  function Drift(n: nat, c: nat): int
    requires c > 0
  {
    if n == 0 then 0 else Drift(n - 1, c) + Indicator((n - 1) % c == 0) - Indicator((n - 1) % c == c - 1)
  }

  /** A block that has started and not yet ended counts one; none is open at a multiple of c. */
  lemma {:induction false} DriftValue(n: nat, c: nat)
    requires c > 0
    ensures Drift(n, c) == if n % c == 0 then 0 else 1
  {
    if n > 0 {
      DriftValue(n - 1, c);
      Arith.ModSucc(n - 1, c);
    }
  }

  lemma {:induction false} TotalExcessStep(shape: seq<nat>, n: nat, d: nat)
    requires d < |shape| && AllPositive(shape)
    ensures TotalExcess(shape, n, d) == TotalExcess(shape, n, d + 1) + Drift(n, Block(shape, d))
  {
    if n > 0 {
      TotalExcessStep(shape, n - 1, d);
    }
  }

  lemma {:induction false} TotalExcessInnermost(shape: seq<nat>, n: nat)
    requires AllPositive(shape)
    ensures TotalExcess(shape, n, |shape|) == 0
  {
    if n > 0 {
      TotalExcessInnermost(shape, n - 1);
    }
  }

  /** Over a whole buffer, every axis opens as many blocks as it closes. */
  lemma {:induction false} TotalExcessZero(shape: seq<nat>, d: nat)
    requires d <= |shape| && AllPositive(shape)
    ensures TotalExcess(shape, Product(shape), d) == 0
    decreases |shape| - d
  {
    if d == |shape| {
      TotalExcessInnermost(shape, Product(shape));
    } else {
      TotalExcessZero(shape, d + 1);
      TotalExcessStep(shape, Product(shape), d);
      ProductSplit(shape, d);
      BlockIsProduct(shape, d);
      Arith.MulMod(Product(shape[..d]), Block(shape, d));
      DriftValue(Product(shape), Block(shape, d));
    }
  }

  /** Element i contributes the opening brackets before it and the closing brackets after it. */
  lemma ElementCounts(shape: seq<nat>, data: seq<int>, i: nat)
    requires i < |data| && AllPositive(shape)
    ensures Count(ElementTokens(shape, data, i), Open) == Count(Opens(shape, i, 0), Open)
    ensures Count(ElementTokens(shape, data, i), Close) == Count(Closes(shape, i, 0), Close)
  {
    var o, e, c := Opens(shape, i, 0), [Elem(data[i])], Closes(shape, i, 0);
    CountAppend(o + e, c, Open);
    CountAppend(o + e, c, Close);
    CountAppend(o, e, Open);
    CountAppend(o, e, Close);
    CountAbsent(o, Close);
    CountAbsent(c, Open);
  }

  /** Appending element n - 1 adds its opening and closing brackets to the counts. */
  lemma RenderCountStep(shape: seq<nat>, data: seq<int>, n: nat)
    requires 0 < n <= |data| && AllPositive(shape)
    ensures Count(Rendered(shape, data, n), Open)
      == Count(Rendered(shape, data, n - 1), Open) + Count(Opens(shape, n - 1, 0), Open)
    ensures Count(Rendered(shape, data, n), Close)
      == Count(Rendered(shape, data, n - 1), Close) + Count(Closes(shape, n - 1, 0), Close)
  {
    var prev, e := Rendered(shape, data, n - 1), ElementTokens(shape, data, n - 1);
    assert Rendered(shape, data, n) == prev + e;
    CountAppend(prev, e, Open);
    CountAppend(prev, e, Close);
    ElementCounts(shape, data, n - 1);
  }

  lemma {:induction false} RenderExcess(shape: seq<nat>, data: seq<int>, n: nat)
    requires n <= |data| && AllPositive(shape)
    ensures Count(Rendered(shape, data, n), Open) - Count(Rendered(shape, data, n), Close)
      == TotalExcess(shape, n, 0)
  {
    if n > 0 {
      RenderExcess(shape, data, n - 1);
      RenderCountStep(shape, data, n);
      ExcessCounts(shape, n - 1, 0);
    }
  }

  /** The rendering of a whole array is balanced: as many '[' as ']'. */
  lemma RenderBalanced(shape: seq<nat>, data: seq<int>)
    requires |data| == Product(shape)
    ensures Count(Rendered(shape, data, |data|), Open) == Count(Rendered(shape, data, |data|), Close)
  {
    if |data| > 0 {
      RenderExcess(shape, data, |data|);
      TotalExcessZero(shape, 0);
    }
  }

  /** The first element is preceded by one '[' per axis. */
  lemma {:induction false} OpensAtStart(shape: seq<nat>, d: nat)
    requires d <= |shape| && AllPositive(shape)
    ensures |Opens(shape, 0, d)| == |shape| - d
    decreases |shape| - d
  {
    if d < |shape| {
      OpensAtStart(shape, d + 1);
    }
  }

  lemma ClosesCountStep(shape: seq<nat>, i: nat, d: nat)
    requires d < |shape| && AllPositive(shape)
    ensures Count(Closes(shape, i, d), Close)
      == Count(Closes(shape, i, d + 1), Close) + Indicator(i % Block(shape, d) == Block(shape, d) - 1)
  {
    var c := Block(shape, d);
    CountAppend(Closes(shape, i, d + 1), if i % c == c - 1 then [Close] else [Space], Close);
  }

  /** The last index of a whole array is the last index of a block of every axis. */
  lemma LastEndsBlock(shape: seq<nat>, d: nat)
    requires d <= |shape| && AllPositive(shape)
    ensures (Product(shape) - 1) % Block(shape, d) == Block(shape, d) - 1
  {
    var c, outer := Block(shape, d), Product(shape[..d]);
    ProductSplit(shape, d);
    BlockIsProduct(shape, d);
    assert outer > 0 by {
      if outer == 0 {
        assert false;
      }
    }
    Arith.LastOfMultiple(outer, c);
  }

  /** The last element of a whole array is followed by one ']' per axis. */
  lemma {:induction false} ClosesAtEnd(shape: seq<nat>, d: nat)
    requires d <= |shape| && AllPositive(shape)
    ensures Count(Closes(shape, Product(shape) - 1, d), Close) == |shape| - d
    decreases |shape| - d
  {
    if d < |shape| {
      var last: nat := Product(shape) - 1;
      assert Count(Closes(shape, last, d + 1), Close) == |shape| - d - 1 by {
        ClosesAtEnd(shape, d + 1);
      }
      assert Count(Closes(shape, last, d), Close) == Count(Closes(shape, last, d + 1), Close) + 1 by {
        LastEndsBlock(shape, d);
        ClosesCountStep(shape, last, d);
      }
    }
  }

  /** A vector [1, 2, 3] renders as "[1 2 3]". */
  lemma VectorRendering()
    ensures Rendered([3], [1, 2, 3], 3)
      == [Open, Elem(1), Space, Elem(2), Space, Elem(3), Close]
  {
  }

  /** Around element i of a 2 x 2 matrix: the row bracket opens and closes every two elements, the outer one every four. */
  lemma SquareBrackets(shape: seq<nat>, i: nat)
    requires |shape| == 2 && shape[0] == 2 && shape[1] == 2
    ensures AllPositive(shape)
    ensures Opens(shape, i, 0) == (if i % 2 == 0 then [Open] else []) + (if i % 4 == 0 then [Open] else [])
    ensures Closes(shape, i, 0) == [if i % 2 == 1 then Close else Space, if i % 4 == 3 then Close else Space]
  {
    assert Block(shape, 1) == 2 && Block(shape, 0) == 4;
    assert Opens(shape, i, 1) == (if i % 2 == 0 then [Open] else []);
    assert Closes(shape, i, 1) == [if i % 2 == 1 then Close else Space];
  }

  /**
   * What a 2 x 2 matrix writes around each element, by its position in the
   * matrix: "[[" before the first, "] " after the second, "[" before the
   * third and "]]" after the last; a space pair wherever no bracket is due.
   */
  lemma SquareTokens(shape: seq<nat>, data: seq<int>, i: nat)
    requires |shape| == 2 && shape[0] == 2 && shape[1] == 2 && i < |data|
    ensures AllPositive(shape)
    ensures i % 4 == 0 ==> ElementTokens(shape, data, i) == [Open, Open, Elem(data[i]), Space, Space]
    ensures i % 4 == 1 ==> ElementTokens(shape, data, i) == [Elem(data[i]), Close, Space]
    ensures i % 4 == 2 ==> ElementTokens(shape, data, i) == [Open, Elem(data[i]), Space, Space]
    ensures i % 4 == 3 ==> ElementTokens(shape, data, i) == [Elem(data[i]), Close, Close]
  {
    SquareBrackets(shape, i);
    assert i % 2 == (i % 4) % 2 by {
      Arith.DivModUnique(i, 2, 2 * (i / 4) + (i % 4) / 2, (i % 4) % 2);
    }
  }

  /**
   * A 2 x 2 matrix [[a, b], [c, d]] renders as "[[a  b] [c  d]]": the outer
   * axis writes a space wherever its block does not end, and no line break
   * is written between the rows.
   */
  lemma MatrixRendering(shape: seq<nat>, data: seq<int>)
    requires |shape| == 2 && shape[0] == 2 && shape[1] == 2 && |data| == 4
    ensures Rendered(shape, data, 4)
      == [Open, Open, Elem(data[0]), Space, Space, Elem(data[1]), Close, Space,
          Open, Elem(data[2]), Space, Space, Elem(data[3]), Close, Close]
  {
    var r0 := [Open, Open, Elem(data[0]), Space, Space];
    var r1 := [Elem(data[1]), Close, Space];
    var r2 := [Open, Elem(data[2]), Space, Space];
    var r3 := [Elem(data[3]), Close, Close];
    assert Rendered(shape, data, 1) == r0 by { SquareTokens(shape, data, 0); }
    assert Rendered(shape, data, 2) == r0 + r1 by { SquareTokens(shape, data, 1); }
    assert Rendered(shape, data, 3) == r0 + r1 + r2 by { SquareTokens(shape, data, 2); }
    assert Rendered(shape, data, 4) == r0 + r1 + r2 + r3 by { SquareTokens(shape, data, 3); }
  }

  /**
   * Tokens the closing loop is meant to write after element i, for axes
   * d .. |shape| - 1 walked from the innermost outwards: as Closes, and a
   * line break right after the bracket that ends a block of axis 1 unless i
   * is the last element of the array (last).
   */
  function ClosesWithBreak(shape: seq<nat>, i: nat, d: nat, last: bool): (r: seq<Token>)
    requires d <= |shape| && AllPositive(shape)
    ensures forall k | 0 <= k < |r| :: r[k] != Open
    decreases |shape| - d
  {
    if d == |shape| then []
    else
      var c := Block(shape, d);
      ClosesWithBreak(shape, i, d + 1, last)
        + (if i % c != c - 1 then [Space] else if d == 1 && !last then [Close, Newline] else [Close])
  }

  /** Everything meant to be written for element i of the flat buffer. */
  function ElementTokensWithBreak(shape: seq<nat>, data: seq<int>, i: nat): seq<Token>
    requires i < |data| && AllPositive(shape)
  {
    Opens(shape, i, 0) + [Elem(data[i])] + ClosesWithBreak(shape, i, 0, i + 1 == |data|)
  }

  /** The intended rendering of the first n elements, in buffer order. */
  function RenderedWithBreaks(shape: seq<nat>, data: seq<int>, n: nat): seq<Token>
    requires n <= |data| && (n > 0 ==> AllPositive(shape))
  {
    if n == 0 then [] else RenderedWithBreaks(shape, data, n - 1) + ElementTokensWithBreak(shape, data, n - 1)
  }

  /** ts with every line break removed. */
  function WithoutBreaks(ts: seq<Token>): (r: seq<Token>)
    ensures |r| <= |ts|
  {
    if |ts| == 0 then []
    else WithoutBreaks(ts[..|ts| - 1]) + (if ts[|ts| - 1] == Newline then [] else [ts[|ts| - 1]])
  }

  lemma {:induction false} WithoutBreaksAppend(a: seq<Token>, b: seq<Token>)
    ensures WithoutBreaks(a + b) == WithoutBreaks(a) + WithoutBreaks(b)
    decreases |b|
  {
    if |b| == 0 {
      assert a + b == a;
    } else {
      assert (a + b)[..|a + b| - 1] == a + b[..|b| - 1];
      WithoutBreaksAppend(a, b[..|b| - 1]);
    }
  }

  /** A token sequence without line breaks is left as it is. */
  lemma {:induction false} WithoutBreaksNone(ts: seq<Token>)
    requires forall k | 0 <= k < |ts| :: ts[k] != Newline
    ensures WithoutBreaks(ts) == ts
  {
    if |ts| > 0 {
      WithoutBreaksNone(ts[..|ts| - 1]);
    }
  }

  /** Removing line breaks keeps the count of every other token. */
  lemma {:induction false} CountWithoutBreaks(ts: seq<Token>, t: Token)
    requires t != Newline
    ensures Count(WithoutBreaks(ts), t) == Count(ts, t)
  {
    if |ts| > 0 {
      var init, x := ts[..|ts| - 1], ts[|ts| - 1];
      CountWithoutBreaks(init, t);
      CountAppend(WithoutBreaks(init), if x == Newline then [] else [x], t);
    }
  }

  /** The intended closing tokens differ from the written ones only by the line break. */
  lemma {:induction false} ClosesWithoutBreaks(shape: seq<nat>, i: nat, d: nat, last: bool)
    requires d <= |shape| && AllPositive(shape)
    ensures WithoutBreaks(ClosesWithBreak(shape, i, d, last)) == Closes(shape, i, d)
    decreases |shape| - d
  {
    if d < |shape| {
      var c := Block(shape, d);
      var init := ClosesWithBreak(shape, i, d + 1, last);
      var tail: seq<Token> := if i % c != c - 1 then [Space] else if d == 1 && !last then [Close, Newline] else [Close];
      var written: seq<Token> := if i % c == c - 1 then [Close] else [Space];
      assert WithoutBreaks(ClosesWithBreak(shape, i, d, last)) == WithoutBreaks(init) + written by {
        assert ClosesWithBreak(shape, i, d, last) == init + tail;
        BreakDropped(tail);
        WithoutBreaksAppend(init, tail);
      }
      assert Closes(shape, i, d) == Closes(shape, i, d + 1) + written;
      ClosesWithoutBreaks(shape, i, d + 1, last);
    }
  }

  /** A single bracket or space is kept, and the line break after a bracket is dropped. */
  lemma BreakDropped(tail: seq<Token>)
    requires tail == [Space] || tail == [Close] || tail == [Close, Newline]
    ensures WithoutBreaks(tail) == [tail[0]]
  {
    if |tail| == 2 {
      assert tail[..1] == [Close];
    }
  }

  /**
   * The intended rendering differs from the written one only by line
   * breaks: removing them gives back exactly what the code writes.
   */
  lemma {:induction false} RenderedWithoutBreaks(shape: seq<nat>, data: seq<int>, n: nat)
    requires n <= |data| && (n > 0 ==> AllPositive(shape))
    ensures WithoutBreaks(RenderedWithBreaks(shape, data, n)) == Rendered(shape, data, n)
  {
    if n > 0 {
      var i := n - 1;
      assert WithoutBreaks(ElementTokensWithBreak(shape, data, i)) == ElementTokens(shape, data, i) by {
        ElementWithoutBreaks(shape, data, i);
      }
      WithoutBreaksAppend(RenderedWithBreaks(shape, data, i), ElementTokensWithBreak(shape, data, i));
      RenderedWithoutBreaks(shape, data, i);
    }
  }

  /** The intended tokens of one element differ from the written ones only by the line break. */
  lemma ElementWithoutBreaks(shape: seq<nat>, data: seq<int>, i: nat)
    requires i < |data| && AllPositive(shape)
    ensures WithoutBreaks(ElementTokensWithBreak(shape, data, i)) == ElementTokens(shape, data, i)
  {
    var o, e := Opens(shape, i, 0), [Elem(data[i])];
    var c := ClosesWithBreak(shape, i, 0, i + 1 == |data|);
    assert WithoutBreaks(o + e) == o + e by {
      WithoutBreaksNone(o + e);
    }
    WithoutBreaksAppend(o + e, c);
    ClosesWithoutBreaks(shape, i, 0, i + 1 == |data|);
  }

  /** The intended rendering of a whole array is balanced too: as many '[' as ']'. */
  lemma RenderedWithBreaksBalanced(shape: seq<nat>, data: seq<int>)
    requires |data| == Product(shape)
    ensures Count(RenderedWithBreaks(shape, data, |data|), Open)
      == Count(RenderedWithBreaks(shape, data, |data|), Close)
  {
    var ts := RenderedWithBreaks(shape, data, |data|);
    RenderedWithoutBreaks(shape, data, |data|);
    CountWithoutBreaks(ts, Open);
    CountWithoutBreaks(ts, Close);
    RenderBalanced(shape, data);
  }

  /** How many of the indices below n end a block of length c. */
  function Ends(n: nat, c: nat): nat
    requires c > 0
  {
    if n == 0 then 0 else Ends(n - 1, c) + Indicator((n - 1) % c == c - 1)
  }

  /** One block of length c ends per c indices: n / c of them below n. */
  lemma {:induction false} EndsValue(n: nat, c: nat)
    requires c > 0
    ensures Ends(n, c) == n / c
  {
    if n > 0 {
      EndsValue(n - 1, c);
      Arith.DivSucc(n - 1, c);
    }
  }

  /** The closing tokens of element i hold a line break exactly where a row block of a matrix ends before the last element. */
  lemma {:induction false} ClosesBreakCount(shape: seq<nat>, i: nat, d: nat, last: bool)
    requires d <= |shape| && AllPositive(shape)
    ensures Count(ClosesWithBreak(shape, i, d, last), Newline)
      == Indicator(d <= 1 < |shape| && i % Block(shape, 1) == Block(shape, 1) - 1 && !last)
    decreases |shape| - d
  {
    if d < |shape| {
      var c := Block(shape, d);
      var init := ClosesWithBreak(shape, i, d + 1, last);
      var tail: seq<Token> := if i % c != c - 1 then [Space] else if d == 1 && !last then [Close, Newline] else [Close];
      assert Count(ClosesWithBreak(shape, i, d, last), Newline)
        == Count(init, Newline) + Indicator(d == 1 && i % c == c - 1 && !last) by {
        assert ClosesWithBreak(shape, i, d, last) == init + tail;
        BreakCounted(tail);
        CountAppend(init, tail, Newline);
      }
      ClosesBreakCount(shape, i, d + 1, last);
    }
  }

  /** A single bracket or space holds no line break; a bracket followed by one holds one. */
  lemma BreakCounted(tail: seq<Token>)
    requires tail == [Space] || tail == [Close] || tail == [Close, Newline]
    ensures Count(tail, Newline) == Indicator(|tail| == 2)
  {
    if |tail| == 2 {
      assert tail[..1] == [Close];
    }
  }

  /** Element i carries a line break exactly where a row block of a matrix ends before the last element. */
  lemma ElementBreakCount(shape: seq<nat>, data: seq<int>, i: nat)
    requires i < |data| && AllPositive(shape)
    ensures Count(ElementTokensWithBreak(shape, data, i), Newline)
      == Indicator(2 <= |shape| && i % Block(shape, 1) == Block(shape, 1) - 1 && i + 1 != |data|)
  {
    var o, e, c := Opens(shape, i, 0), [Elem(data[i])], ClosesWithBreak(shape, i, 0, i + 1 == |data|);
    CountAppend(o + e, c, Newline);
    CountAppend(o, e, Newline);
    CountAbsent(o, Newline);
    ClosesBreakCount(shape, i, 0, i + 1 == |data|);
  }

  /** Before the last element, the line breaks of a matrix count the row blocks ended so far. */
  lemma {:induction false} BreaksBefore(shape: seq<nat>, data: seq<int>, n: nat)
    requires n < |data| && 2 <= |shape| && AllPositive(shape)
    ensures Count(RenderedWithBreaks(shape, data, n), Newline) == Ends(n, Block(shape, 1))
  {
    if n > 0 {
      BreaksBefore(shape, data, n - 1);
      CountAppend(RenderedWithBreaks(shape, data, n - 1), ElementTokensWithBreak(shape, data, n - 1), Newline);
      ElementBreakCount(shape, data, n - 1);
    }
  }

  /**
   * A whole array of rank 2 or more holds one line break between each two
   * consecutive blocks of its outermost axis, and none after the last: one
   * fewer than its outermost extent.
   */
  lemma RowBreaks(shape: seq<nat>, data: seq<int>)
    requires 2 <= |shape| && AllPositive(shape) && |data| == Product(shape)
    ensures Count(RenderedWithBreaks(shape, data, |data|), Newline) == shape[0] - 1
  {
    var n := |data|;
    RowsEnded(shape, n);
    BreaksBefore(shape, data, n - 1);
    LastBreakless(shape, data);
  }

  /** Below the last index of a whole array, all row blocks but the last have ended. */
  lemma RowsEnded(shape: seq<nat>, n: nat)
    requires 2 <= |shape| && AllPositive(shape) && n == Product(shape)
    ensures n > 0 && Block(shape, 1) > 0 && Ends(n - 1, Block(shape, 1)) == shape[0] - 1
  {
    var c := Block(shape, 1);
    assert n == shape[0] * c by {
      BlockIsProduct(shape, 0);
      assert shape[0..] == shape;
    }
    assert Ends(n, c) == shape[0] by {
      EndsValue(n, c);
      Arith.DivModUnique(n, c, shape[0], 0);
    }
    LastEndsBlock(shape, 1);
  }

  /** The last element of a whole array adds no line break. */
  lemma LastBreakless(shape: seq<nat>, data: seq<int>)
    requires 0 < |data| && AllPositive(shape)
    ensures Count(RenderedWithBreaks(shape, data, |data|), Newline)
      == Count(RenderedWithBreaks(shape, data, |data| - 1), Newline)
  {
    var n := |data|;
    CountAppend(RenderedWithBreaks(shape, data, n - 1), ElementTokensWithBreak(shape, data, n - 1), Newline);
    ElementBreakCount(shape, data, n - 1);
  }

  /** A rank-0 or rank-1 array has no line break in its intended rendering. */
  lemma {:induction false} NoBreaksBelowRankTwo(shape: seq<nat>, data: seq<int>, n: nat)
    requires |shape| < 2 && n <= |data| && (n > 0 ==> AllPositive(shape))
    ensures Count(RenderedWithBreaks(shape, data, n), Newline) == 0
  {
    if n > 0 {
      NoBreaksBelowRankTwo(shape, data, n - 1);
      CountAppend(RenderedWithBreaks(shape, data, n - 1), ElementTokensWithBreak(shape, data, n - 1), Newline);
      ElementBreakCount(shape, data, n - 1);
    }
  }

  /**
   * A 2 x 2 matrix [[a, b], [c, d]] is meant to render as "[[a  b]" and
   * " [c  d]]" on two lines: the line break follows the first row's bracket,
   * before the outer axis's separating space.
   */
  lemma MatrixRenderingWithBreaks(shape: seq<nat>, data: seq<int>)
    requires |shape| == 2 && shape[0] == 2 && shape[1] == 2 && |data| == 4
    ensures RenderedWithBreaks(shape, data, 4)
      == [Open, Open, Elem(data[0]), Space, Space, Elem(data[1]), Close, Newline, Space,
          Open, Elem(data[2]), Space, Space, Elem(data[3]), Close, Close]
  {
    var r0 := [Open, Open, Elem(data[0]), Space, Space];
    var r1 := [Elem(data[1]), Close, Newline, Space];
    var r2 := [Open, Elem(data[2]), Space, Space];
    var r3 := [Elem(data[3]), Close, Close];
    assert RenderedWithBreaks(shape, data, 1) == r0 by { SquareTokensWithBreaks(shape, data, 0); }
    assert RenderedWithBreaks(shape, data, 2) == r0 + r1 by { SquareTokensWithBreaks(shape, data, 1); }
    assert RenderedWithBreaks(shape, data, 3) == r0 + r1 + r2 by { SquareTokensWithBreaks(shape, data, 2); }
    assert RenderedWithBreaks(shape, data, 4) == r0 + r1 + r2 + r3 by { SquareTokensWithBreaks(shape, data, 3); }
  }

  /** What a 2 x 2 matrix of four elements is meant to write around each of them. */
  lemma SquareTokensWithBreaks(shape: seq<nat>, data: seq<int>, i: nat)
    requires |shape| == 2 && shape[0] == 2 && shape[1] == 2 && |data| == 4 && i < 4
    ensures AllPositive(shape)
    ensures i == 0 ==> ElementTokensWithBreak(shape, data, i) == [Open, Open, Elem(data[i]), Space, Space]
    ensures i == 1 ==> ElementTokensWithBreak(shape, data, i) == [Elem(data[i]), Close, Newline, Space]
    ensures i == 2 ==> ElementTokensWithBreak(shape, data, i) == [Open, Elem(data[i]), Space, Space]
    ensures i == 3 ==> ElementTokensWithBreak(shape, data, i) == [Elem(data[i]), Close, Close]
  {
    SquareBrackets(shape, i);
    assert Block(shape, 1) == 2 && Block(shape, 0) == 4;
    var c2 := ClosesWithBreak(shape, i, 2, i == 3);
    var c1 := ClosesWithBreak(shape, i, 1, i == 3);
    assert c2 == [];
    if i == 0 {
      assert c1 == [Space];
    } else if i == 1 {
      assert c1 == [Close, Newline];
    } else if i == 2 {
      assert c1 == [Space];
    } else {
      assert c1 == [Close];
    }
  }
}
