/**
 The seven tetromino kinds and the main game's shape table. Each matrix is
 square; its non-zero entries are the colour id of the kind (Z=1, S=2, T=3,
 O=4, L=5, I=6, J=7).
 */
module Shapes {
  import opened Grid

  datatype Shape = I | L | J | O | Z | S | T

  /** The kinds in the order of the shape table's keys. */
  const AllShapes: seq<Shape> := [I, L, J, O, Z, S, T]

  /** A matrix usable as a falling piece of the main game: square, at most
      4x4, every cell a colour id in 0..7, and at least one cell filled. */
  predicate PieceMatrix(m: Matrix) {
    IsMatrix(m) && |m[0]| == |m| && |m| <= 4 && CellsWithin(m, 0, 7) && HasCell(m)
  }

  function ShapeMatrix(s: Shape): (m: Matrix)
    ensures PieceMatrix(m)
  {
    var m := match s
      case I => [[0,6,0,0],[0,6,0,0],[0,6,0,0],[0,6,0,0]]
      case L => [[0,5,0],[0,5,0],[0,5,5]]
      case J => [[0,7,0],[0,7,0],[7,7,0]]
      case O => [[4,4],[4,4]]
      case Z => [[1,1,0],[0,1,1],[0,0,0]]
      case S => [[0,2,2],[2,2,0],[0,0,0]]
      case T => [[0,3,0],[3,3,3],[0,0,0]];
    assert m[1][1] != 0 || m[0][1] != 0;
    m
  }

  /** A quarter turn keeps a piece matrix a piece matrix. */
  lemma RotateKeepsPiece(m: Matrix, dir: int)
    requires PieceMatrix(m)
    ensures PieceMatrix(Rotate(m, dir))
  {
    RotateKeepsCell(m, dir);
    RotateKeepsCells(m, dir, 0, 7);
  }

  /** The matrix a freshly drawn kind starts with: the table entry, except
      that the I piece is turned clockwise (lying flat) when the coin flip
      `horizontal` says so. */
  function InitialMatrix(s: Shape, horizontal: bool): (m: Matrix)
    ensures PieceMatrix(m)
    ensures s != I || !horizontal ==> m == ShapeMatrix(s)
  {
    if s == I && horizontal then
      RotateKeepsPiece(ShapeMatrix(I), 1);
      Rotate(ShapeMatrix(I), 1)
    else ShapeMatrix(s)
  }

  /** One outcome of shuffling the seven kinds. */
  predicate IsShuffle(r: seq<Shape>) {
    |r| == 7 && multiset(r) == multiset(AllShapes)
  }

  /** The kinds still in a bag: no kind twice. */
  predicate BagOk(bag: seq<Shape>) {
    forall i, j :: 0 <= i < j < |bag| ==> bag[i] != bag[j]
  }

  /** Seven kinds with none repeated: what the bag holds right after a refill. */
  predicate FullBag(r: seq<Shape>) {
    |r| == 7 && BagOk(r)
  }

  /** Each kind occurs once in the list of all kinds. */
  lemma AllShapesOnce(x: Shape)
    ensures multiset(AllShapes)[x] == 1
  {
    AllShapesDistinct();
    OnceIn(AllShapes, Position(x));
  }

  /** Where a kind sits in the list of all kinds. */
  function Position(x: Shape): (k: nat)
    ensures k < |AllShapes| && AllShapes[k] == x
  {
    match x
    case I => 0 case L => 1 case J => 2 case O => 3 case Z => 4 case S => 5 case T => 6
  }

  lemma AllShapesDistinct()
    ensures BagOk(AllShapes)
  {
  }

  /** An element of a sequence without repeats is counted once. */
  lemma OnceIn(s: seq<Shape>, k: nat)
    requires k < |s| && BagOk(s)
    ensures multiset(s)[s[k]] == 1
  {
    assert s == s[..k] + [s[k]] + s[k + 1..];
    assert s[k] !in s[..k];
    assert s[k] !in s[k + 1..];
  }

  /** A value at two different indices is counted at least twice. */
  lemma RepeatCountsTwice(r: seq<Shape>, i: nat, j: nat)
    requires i < j < |r|
    ensures r[i] == r[j] ==> multiset(r)[r[i]] >= 2
  {
    assert r == r[..i] + [r[i]] + r[i + 1..j] + [r[j]] + r[j + 1..];
  }

  /** A shuffle of the seven kinds is a full bag. */
  lemma ShuffleIsBag(r: seq<Shape>)
    requires IsShuffle(r)
    ensures FullBag(r)
  {
    forall i, j | 0 <= i < j < |r|
      ensures r[i] != r[j]
    {
      RepeatCountsTwice(r, i, j);
      AllShapesOnce(r[i]);
    }
  }
}
