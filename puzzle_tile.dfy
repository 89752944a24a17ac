/** The board cell a tile's picture is cut from, as `PuzzleTile` computes it, and what it
    means for the board as a whole. */
module PuzzleTile {
  import opened PuzzleLib
  import opened Arith

  /** A cell of the source picture, counted from the top-left corner. */
  datatype Cell = Cell(row: nat, col: nat)

  /** The `tilePos` memo: which cell of the picture tile number `tileIndex` shows. */
  function TilePos(tileIndex: nat, gridSize: nat): (c: Cell)
    requires gridSize > 0
    ensures c.row * gridSize + c.col == tileIndex && c.col < gridSize
    ensures tileIndex < gridSize * gridSize ==> c.row < gridSize
  {
    Cell(tileIndex / gridSize, tileIndex % gridSize)
  }

  /** The cell is the only row and column within the grid's width that recombine to the
      tile's number, so distinct tiles show distinct cells. */
  lemma TilePosUnique(tileIndex: nat, gridSize: nat, row: nat, col: nat)
    requires gridSize > 0 && col < gridSize && row * gridSize + col == tileIndex
    ensures TilePos(tileIndex, gridSize) == Cell(row, col)
  {
    DivModUnique(tileIndex, gridSize, row, col);
  }

  lemma TilePosInjective(a: nat, b: nat, gridSize: nat)
    requires gridSize > 0 && TilePos(a, gridSize) == TilePos(b, gridSize)
    ensures a == b
  {
  }

  /** A cell inside the grid recombines to a tile number inside the board. */
  lemma CellInRange(row: nat, col: nat, gridSize: nat)
    requires row < gridSize && col < gridSize
    ensures row * gridSize + col < gridSize * gridSize
  {
    assert row * gridSize + col < (row + 1) * gridSize;
    MulMonotone(row + 1, gridSize, gridSize);
  }

  lemma MulMonotone(a: nat, b: nat, k: nat)
    requires a <= b
    ensures a * k <= b * k
  {
  }

  /** The board renders tile `tileOrder[pos]` at each position; when the order is a
      permutation of all `gridSize²` tiles, no two positions show the same cell of the
      picture and every cell appears at some position. */
  lemma BoardShowsEveryCellOnce(tileOrder: seq<int>, gridSize: nat)
    requires gridSize > 0 && IsPermutation(tileOrder, gridSize * gridSize)
    ensures |tileOrder| == gridSize * gridSize
    ensures forall p :: 0 <= p < |tileOrder| ==> 0 <= tileOrder[p] < gridSize * gridSize
    ensures forall p, q :: 0 <= p < q < |tileOrder| ==>
      TilePos(tileOrder[p], gridSize) != TilePos(tileOrder[q], gridSize)
    ensures forall c: Cell :: c.row < gridSize && c.col < gridSize ==>
      exists p :: 0 <= p < |tileOrder| && TilePos(tileOrder[p], gridSize) == c
  {
    PermutationFacts(tileOrder, gridSize * gridSize);
    forall c: Cell | c.row < gridSize && c.col < gridSize
      ensures exists p :: 0 <= p < |tileOrder| && TilePos(tileOrder[p], gridSize) == c
    {
      CellShown(tileOrder, gridSize, c.row, c.col);
    }
  }

  lemma CellShown(tileOrder: seq<int>, gridSize: nat, row: nat, col: nat)
    requires gridSize > 0 && row < gridSize && col < gridSize
    requires forall v :: 0 <= v < gridSize * gridSize ==> v in tileOrder
    ensures exists p :: 0 <= p < |tileOrder| && tileOrder[p] >= 0 && TilePos(tileOrder[p], gridSize) == Cell(row, col)
  {
    var v := row * gridSize + col;
    CellInRange(row, col, gridSize);
    assert v in tileOrder;
    var p :| 0 <= p < |tileOrder| && tileOrder[p] == v;
    TilePosUnique(v, gridSize, row, col);
  }
}
