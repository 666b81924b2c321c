/** Piece geometry (src/game/Piece.js): the seven tetromino matrices, the
    quarter-turn rotation, weighted sampling of block types and the falling
    piece itself. Colours, offsets and drawing are not modelled. */
module Tetromino {

  /** A shape or board matrix, row-major: m[row][column]; 0 is empty. */
  type Matrix = seq<seq<int>>

  datatype Option<T> = None | Some(value: T)

  /** At least one row and one column, and every row as long as the first. */
  predicate Rectangular(m: Matrix) {
    |m| > 0 && |m[0]| > 0 && forall i :: 0 <= i < |m| ==> |m[i]| == |m[0]|
  }

  /** Every entry is 0 or 1. */
  predicate Binary(m: Matrix) {
    forall i, j :: 0 <= i < |m| && 0 <= j < |m[i]| ==> m[i][j] == 0 || m[i][j] == 1
  }

  const SHAPE_COUNT := 7

  /** The canonical shapes, in the order I, O, T, S, Z, J, L. */
  const SHAPES: seq<Matrix> := [
    [[1, 1, 1, 1]],
    [[1, 1], [1, 1]],
    [[0, 1, 0], [1, 1, 1]],
    [[0, 1, 1], [1, 1, 0]],
    [[1, 1, 0], [0, 1, 1]],
    [[1, 0, 0], [1, 1, 1]],
    [[0, 0, 1], [1, 1, 1]]
  ]

  /** Number of occupied (non-zero) entries of a row. */
  function RowCount(row: seq<int>): nat {
    if row == [] then 0 else (if row[0] != 0 then 1 else 0) + RowCount(row[1..])
  }

  /** Number of occupied entries of a matrix. */
  function Count(m: Matrix): nat {
    if m == [] then 0 else RowCount(m[0]) + Count(m[1..])
  }

  lemma ShapesWellFormed()
    ensures |SHAPES| == SHAPE_COUNT
    ensures forall k :: 0 <= k < SHAPE_COUNT ==>
      Rectangular(SHAPES[k]) && Binary(SHAPES[k]) && Count(SHAPES[k]) == 4
  {
    assert Count(SHAPES[0]) == 4;
    assert Count(SHAPES[1]) == 4;
    assert Count(SHAPES[2]) == 4;
    assert Count(SHAPES[3]) == 4;
    assert Count(SHAPES[4]) == 4;
    assert Count(SHAPES[5]) == 4;
    assert Count(SHAPES[6]) == 4;
  }

  // ---------------------------------------------------------------------
  // Rotation

  /** The matrix whose row j is column j of m read bottom to top. */
  function QuarterTurn(m: Matrix, cols: nat): (r: Matrix)
    requires forall i :: 0 <= i < |m| ==> |m[i]| == cols
    ensures |r| == cols && forall j :: 0 <= j < cols ==> |r[j]| == |m|
  {
    seq(cols, j requires 0 <= j < cols =>
      seq(|m|, k requires 0 <= k < |m| => m[|m| - 1 - k][j]))
  }

  /** A clockwise quarter turn: an R x C matrix becomes a C x R matrix. */
  function Rotated(m: Matrix): (r: Matrix)
    requires Rectangular(m)
    ensures Rectangular(r) && |r| == |m[0]| && |r[0]| == |m|
  {
    QuarterTurn(m, |m[0]|)
  }

  /** Entry (i, j) of m lands at (j, R-1-i) of the turned matrix. */
  lemma RotatedAt(m: Matrix, i: int, j: int)
    requires Rectangular(m) && 0 <= i < |m| && 0 <= j < |m[0]|
    ensures Rotated(m)[j][|m| - 1 - i] == m[i][j]
  {
  }

  /** n successive quarter turns. */
  function RotateTimes(m: Matrix, n: nat): (r: Matrix)
    requires Rectangular(m)
    ensures Rectangular(r)
    ensures n % 2 == 0 ==> |r| == |m| && |r[0]| == |m[0]|
    ensures n % 2 == 1 ==> |r| == |m[0]| && |r[0]| == |m|
  {
    if n == 0 then m else Rotated(RotateTimes(m, n - 1))
  }

  /** A half turn: r[a][b] == m[R-1-a][C-1-b]. */
  function HalfTurn(m: Matrix): (r: Matrix)
    requires Rectangular(m)
    ensures Rectangular(r) && |r| == |m| && |r[0]| == |m[0]|
  {
    seq(|m|, a requires 0 <= a < |m| =>
      seq(|m[0]|, b requires 0 <= b < |m[0]| => m[|m| - 1 - a][|m[0]| - 1 - b]))
  }

  lemma RotateTwice(m: Matrix)
    requires Rectangular(m)
    ensures Rotated(Rotated(m)) == HalfTurn(m)
  {
    var r2, h := Rotated(Rotated(m)), HalfTurn(m);
    forall a | 0 <= a < |m|
      ensures r2[a] == h[a]
    {
      forall b | 0 <= b < |m[0]|
        ensures r2[a][b] == h[a][b]
      {
        var r1 := Rotated(m);
        assert r2[a][b] == r1[|m[0]| - 1 - b][a];
        assert r1[|m[0]| - 1 - b][a] == m[|m| - 1 - a][|m[0]| - 1 - b];
      }
    }
  }

  lemma HalfTurnTwice(m: Matrix)
    requires Rectangular(m)
    ensures HalfTurn(HalfTurn(m)) == m
  {
    var h := HalfTurn(HalfTurn(m));
    forall a | 0 <= a < |m|
      ensures h[a] == m[a]
    {
      assert |h[a]| == |m[a]|;
    }
  }

  /** Four quarter turns give back the original matrix. */
  lemma {:induction false} FourTurnsIdentity(m: Matrix)
    requires Rectangular(m)
    ensures RotateTimes(m, 4) == m
  {
    var r1 := Rotated(m);
    var r2 := Rotated(r1);
    var r3 := Rotated(r2);
    assert RotateTimes(m, 1) == r1;
    assert RotateTimes(m, 2) == r2;
    assert RotateTimes(m, 3) == r3;
    assert RotateTimes(m, 4) == Rotated(r3);
    RotateTwice(m);
    RotateTwice(r2);
    HalfTurnTwice(m);
  }

  /** The rotation counter wraps at four without changing the shape it denotes. */
  lemma {:induction false} NextRotation(m: Matrix, n: nat)
    requires Rectangular(m) && n < 4
    ensures RotateTimes(m, (n + 1) % 4) == Rotated(RotateTimes(m, n))
  {
    if n == 3 {
      assert (n + 1) % 4 == 0;
      FourTurnsIdentity(m);
      assert RotateTimes(m, 4) == Rotated(RotateTimes(m, 3));
    } else {
      assert (n + 1) % 4 == n + 1;
      assert RotateTimes(m, n + 1) == Rotated(RotateTimes(m, n));
    }
  }

  /** Appends entry col[j] to row j of M. */
  function AppendColumn(M: Matrix, col: seq<int>): (r: Matrix)
    requires |col| == |M|
    ensures |r| == |M|
  {
    seq(|M|, j requires 0 <= j < |M| => M[j] + [col[j]])
  }

  lemma {:induction false} RowCountSnoc(row: seq<int>, a: int)
    ensures RowCount(row + [a]) == RowCount(row) + (if a != 0 then 1 else 0)
  {
    if row != [] {
      assert (row + [a])[1..] == row[1..] + [a];
      RowCountSnoc(row[1..], a);
    } else {
      assert [a][1..] == [];
    }
  }

  lemma {:induction false} CountAppendColumn(M: Matrix, col: seq<int>)
    requires |col| == |M|
    ensures Count(AppendColumn(M, col)) == Count(M) + RowCount(col)
  {
    if M != [] {
      var A := AppendColumn(M, col);
      assert A[0] == M[0] + [col[0]];
      RowCountSnoc(M[0], col[0]);
      assert A[1..] == AppendColumn(M[1..], col[1..]);
      CountAppendColumn(M[1..], col[1..]);
    }
  }

  /** n rows of length zero. */
  function NoColumns(n: nat): (r: Matrix)
    ensures |r| == n
  {
    seq(n, _ => [])
  }

  lemma {:induction false} CountNoColumns(n: nat)
    ensures Count(NoColumns(n)) == 0
  {
    if n > 0 {
      assert NoColumns(n)[1..] == NoColumns(n - 1);
      CountNoColumns(n - 1);
    }
  }

  lemma {:induction false} CountQuarterTurn(m: Matrix, cols: nat)
    requires forall i :: 0 <= i < |m| ==> |m[i]| == cols
    ensures Count(QuarterTurn(m, cols)) == Count(m)
  {
    if m == [] {
      assert QuarterTurn(m, cols) == NoColumns(cols);
      CountNoColumns(cols);
    } else {
      var q, a := QuarterTurn(m, cols), AppendColumn(QuarterTurn(m[1..], cols), m[0]);
      forall j | 0 <= j < cols
        ensures q[j] == a[j]
      {
        assert |q[j]| == |a[j]|;
        forall k | 0 <= k < |m|
          ensures q[j][k] == a[j][k]
        {
          if k < |m| - 1 {
            assert a[j][k] == m[1..][|m| - 2 - k][j];
          }
        }
      }
      assert q == a;
      CountAppendColumn(QuarterTurn(m[1..], cols), m[0]);
      CountQuarterTurn(m[1..], cols);
    }
  }

  /** A quarter turn keeps the number of occupied cells. */
  lemma RotatedCount(m: Matrix)
    requires Rectangular(m)
    ensures Count(Rotated(m)) == Count(m)
  {
    CountQuarterTurn(m, |m[0]|);
  }

  /** Rotation builds a fresh matrix in two nested loops, one entry at a time. */
  method RotateMatrix(matrix: Matrix) returns (rotated: Matrix)
    requires Rectangular(matrix)
    ensures rotated == Rotated(matrix)
  {
    var rows := |matrix|;
    var cols := |matrix[0]|;
    rotated := seq(cols, _ => seq(rows, _ => 0));
    for i := 0 to rows
      invariant |rotated| == cols && forall j :: 0 <= j < cols ==> |rotated[j]| == rows
      invariant forall j, k :: 0 <= j < cols && 0 <= k < rows ==>
        rotated[j][k] == if rows - 1 - k < i then matrix[rows - 1 - k][j] else 0
    {
      for j := 0 to cols
        invariant |rotated| == cols && forall j' :: 0 <= j' < cols ==> |rotated[j']| == rows
        invariant forall j', k :: 0 <= j' < cols && 0 <= k < rows ==>
          rotated[j'][k] == if rows - 1 - k < i || (rows - 1 - k == i && j' < j)
                            then matrix[rows - 1 - k][j'] else 0
      {
        rotated := rotated[j := rotated[j][rows - 1 - i := matrix[i][j]]];
      }
    }
    assert forall j :: 0 <= j < cols ==> rotated[j] == Rotated(matrix)[j];
  }

  // ---------------------------------------------------------------------
  // Random choices

  /** The shape index drawn from a uniform draw in [0, 1): floor(draw * 7). */
  function ShapeIndexFor(draw: real): (k: int)
    requires 0.0 <= draw < 1.0
    ensures 0 <= k < SHAPE_COUNT
  {
    (draw * 7.0).Floor
  }

  /** Weights of block types 1..5: standard, data fragment, special, virus, power-up. */
  const TYPE_WEIGHTS: seq<int> := [60, 20, 10, 5, 5]

  /** Reference definition of the weighted choice: the first cumulative
      bucket (60, 80, 90, 95, 100) that the roll does not exceed, and the
      standard type 1 when the roll exceeds them all. */
  function TypeForRoll(roll: real): (t: int)
    ensures 1 <= t <= 5
    ensures 0.0 <= roll <= 100.0 ==>
      (t == 1 <==> roll <= 60.0) && (t == 5 <==> 95.0 < roll)
  {
    if roll <= 60.0 then 1
    else if roll <= 80.0 then 2
    else if roll <= 90.0 then 3
    else if roll <= 95.0 then 4
    else if roll <= 100.0 then 5
    else 1
  }

  function Sum(s: seq<int>): int {
    if s == [] then 0 else Sum(s[..|s| - 1]) + s[|s| - 1]
  }

  /** The weights add up to 100, so for a roll in [0, 100] the type is the
      first t whose cumulative weight reaches the roll, and the final
      fallback is never taken. */
  lemma TypeForRollMatchesWeights(roll: real)
    requires 0.0 <= roll <= 100.0
    ensures Sum(TYPE_WEIGHTS) == 100
    ensures roll <= Sum(TYPE_WEIGHTS[..TypeForRoll(roll)]) as real
    ensures TypeForRoll(roll) > 1 ==> Sum(TYPE_WEIGHTS[..TypeForRoll(roll) - 1]) as real < roll
  {
    WeightPrefixSums();
  }

  /** The running sums of the weights: 0, 60, 80, 90, 95, 100. */
  lemma WeightPrefixSums()
    ensures Sum(TYPE_WEIGHTS[..0]) == 0 && Sum(TYPE_WEIGHTS[..1]) == 60 && Sum(TYPE_WEIGHTS[..2]) == 80
    ensures Sum(TYPE_WEIGHTS[..3]) == 90 && Sum(TYPE_WEIGHTS[..4]) == 95 && Sum(TYPE_WEIGHTS[..5]) == 100
    ensures TYPE_WEIGHTS[..5] == TYPE_WEIGHTS
  {
    assert TYPE_WEIGHTS[..0] == [];
    assert TYPE_WEIGHTS[..1][..0] == [];
    assert TYPE_WEIGHTS[..2][..1] == TYPE_WEIGHTS[..1];
    assert TYPE_WEIGHTS[..3][..2] == TYPE_WEIGHTS[..2];
    assert TYPE_WEIGHTS[..4][..3] == TYPE_WEIGHTS[..3];
    assert TYPE_WEIGHTS[..5][..4] == TYPE_WEIGHTS[..4];
    assert TYPE_WEIGHTS[..5] == TYPE_WEIGHTS;
  }

  /** The accumulator loop over the weights; the draw is uniform in [0, 1). */
  method RandomType(draw: real) returns (t: int)
    ensures t == TypeForRoll(draw * 100.0)
    ensures draw < 1.0 ==> 1 <= t <= 5
  {
    var roll := draw * 100.0;
    var accumulated := 0;
    WeightPrefixSums();
    for i := 0 to |TYPE_WEIGHTS|
      invariant accumulated == Sum(TYPE_WEIGHTS[..i])
      invariant i > 0 ==> roll > accumulated as real
    {
      assert TYPE_WEIGHTS[..i + 1][..i] == TYPE_WEIGHTS[..i];
      accumulated := accumulated + TYPE_WEIGHTS[i];
      if roll <= accumulated as real {
        return i + 1;
      }
    }
    return 1;
  }

  // ---------------------------------------------------------------------
  // The falling piece

  /** A piece's fields agree: shape k of the table turned `rotation` times. */
  ghost predicate WellTurned(k: int, blockType: int, rotation: int, shape: Matrix) {
    0 <= k < SHAPE_COUNT && 1 <= blockType <= 5 && 0 <= rotation < 4
    && Rectangular(SHAPES[k])
    && shape == RotateTimes(SHAPES[k], rotation)
  }

  /** One more quarter turn keeps the fields in agreement. */
  lemma WellTurnedStep(k: int, blockType: int, rotation: int, shape: Matrix)
    requires WellTurned(k, blockType, rotation, shape)
    ensures Rectangular(shape) && WellTurned(k, blockType, (rotation + 1) % 4, Rotated(shape))
  {
    NextRotation(SHAPES[k], rotation);
  }

  class Piece {
    var x: int
    var y: int
    var shapeIndex: int
    var shape: Matrix
    var blockType: int
    var rotation: int

    /** The shape is always the canonical shape turned `rotation` times. */
    ghost predicate Valid()
      reads this
    {
      WellTurned(shapeIndex, blockType, rotation, shape)
    }

    /** A new piece at (x0, y0): the given shape, or one drawn from shapeDraw,
        and a type drawn from typeDraw. */
    constructor (x0: int, y0: int, shapeChoice: Option<int>, shapeDraw: real, typeDraw: real)
      requires shapeChoice.Some? ==> 0 <= shapeChoice.value < SHAPE_COUNT
      requires shapeChoice.None? ==> 0.0 <= shapeDraw < 1.0
      ensures Valid()
      ensures x == x0 && y == y0 && rotation == 0
      ensures shapeIndex == if shapeChoice.Some? then shapeChoice.value else ShapeIndexFor(shapeDraw)
      ensures shape == SHAPES[shapeIndex]
      ensures blockType == TypeForRoll(typeDraw * 100.0)
    {
      ShapesWellFormed();
      var index := if shapeChoice.Some? then shapeChoice.value else ShapeIndexFor(shapeDraw);
      var t := RandomType(typeDraw);
      x, y := x0, y0;
      shapeIndex := index;
      shape := SHAPES[index];
      blockType := t;
      rotation := 0;
    }

    /** Turns the piece in place. */
    method Rotate()
      requires Valid()
      modifies this
      ensures Valid()
      ensures shape == Rotated(old(shape)) && rotation == (old(rotation) + 1) % 4
      ensures x == old(x) && y == old(y)
      ensures shapeIndex == old(shapeIndex) && blockType == old(blockType)
    {
      WellTurnedStep(shapeIndex, blockType, rotation, shape);
      shape := RotateMatrix(shape);
      rotation := (rotation + 1) % 4;
    }

    /** A fresh piece holding the next rotation; this piece is not modified. */
    method GetRotated() returns (r: Piece)
      requires Valid()
      ensures fresh(r) && r.Valid()
      ensures r.x == x && r.y == y && r.shapeIndex == shapeIndex && r.blockType == blockType
      ensures r.shape == Rotated(shape) && r.rotation == (rotation + 1) % 4
    {
      WellTurnedStep(shapeIndex, blockType, rotation, shape);
      var turned := RotateMatrix(shape);
      r := new Piece(x, y, Some(shapeIndex), 0.0, 0.0);
      r.shape := turned;
      r.blockType := blockType;
      r.rotation := (rotation + 1) % 4;
    }
  }

  /** Every piece shape holds exactly four occupied cells, in every rotation. */
  lemma {:induction false} RotatedShapeCount(k: int, n: nat)
    requires 0 <= k < SHAPE_COUNT
    ensures Rectangular(SHAPES[k]) && Count(RotateTimes(SHAPES[k], n)) == 4
  {
    ShapesWellFormed();
    if n > 0 {
      RotatedShapeCount(k, n - 1);
      RotatedCount(RotateTimes(SHAPES[k], n - 1));
    }
  }
}
