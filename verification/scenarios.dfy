/** The unit-test scenarios of the repository, proved for every board that
    matches their setup. */
module Scenarios {
  import opened Boards
  import opened BoardFacts
  import opened Counting
  import opened Flood
  import opened FloodReach
  import opened Service

  /** The board has bombs exactly at (br, bc). */
  ghost predicate OnlyBombAt(b: Board, br: int, bc: int)
    requires Shaped(b)
  {
    forall i, j | InBounds(b, i, j) :: b.cells[i][j].bomb <==> (i, j) == (br, bc)
  }

  /** Nothing has been revealed or flagged yet. */
  ghost predicate Untouched(b: Board)
    requires Shaped(b)
  {
    forall i, j | InBounds(b, i, j) :: !b.cells[i][j].visited && !b.cells[i][j].flagged
  }

  /** 3 x 3 with one bomb in the centre: the bomb holds 9, every other square 1. */
  lemma CenterBombCounts(b: Board)
    requires Shaped(b) && b.size == 3 && OnlyBombAt(b, 1, 1) && Counted(b)
    ensures b.cells[1][1].neighbors == 9 && b.cells[0][0].neighbors == 1
    ensures forall i, j | InBounds(b, i, j) && (i, j) != (1, 1) :: b.cells[i][j].neighbors == 1
  {
    forall i, j | InBounds(b, i, j) && (i, j) != (1, 1)
      ensures b.cells[i][j].neighbors == 1
    {
      assert BombNeighbours(b, i, j) == {(1, 1)};
    }
  }

  /** A square with no bomb anywhere around it counts zero. */
  lemma NoBombAround(b: Board, r: int, c: int)
    requires Shaped(b) && InBounds(b, r, c) && !b.cells[r][c].bomb && Counted(b)
    requires forall i, j | InBounds(b, i, j) && Adjacent(r, c, i, j) :: !b.cells[i][j].bomb
    ensures b.cells[r][c].neighbors == 0
  {
    assert BombNeighbours(b, r, c) == {};
  }

  /** The squares of the corner-bomb board the flood needs. */
  ghost predicate CornerLayout(b: Board)
    requires Shaped(b) && b.size == 3
  {
    && b.cells[0][0].bomb && !b.cells[0][0].visited
    && Openable(b, 2, 2) && Openable(b, 1, 2) && Openable(b, 2, 1)
    && Openable(b, 1, 1) && Openable(b, 0, 1) && Openable(b, 1, 0)
    && !IsNumber(b.cells[2][2]) && !IsNumber(b.cells[1][2]) && !IsNumber(b.cells[2][1])
  }

  lemma CornerBoardLayout(b: Board)
    requires Shaped(b) && b.size == 3 && OnlyBombAt(b, 0, 0) && Counted(b) && Untouched(b)
    ensures CornerLayout(b)
  {
    NoBombAround(b, 2, 2);
    NoBombAround(b, 1, 2);
    NoBombAround(b, 2, 1);
  }

  /** The zero cells of the corner-bomb board lead to the numbered border. */
  lemma CornerTrails(b: Board)
    requires Shaped(b) && b.size == 3 && CornerLayout(b)
    ensures Reaches(b, 2, 2, 1, 1) && Reaches(b, 2, 2, 0, 1) && Reaches(b, 2, 2, 1, 0)
  {
    var p1, p2, p3 := [(1, 1)], [(0, 1)], [(1, 0)];
    assert IsTrail(b, p1) && IsTrail(b, p2) && IsTrail(b, p3);
    TrailPrepend(b, 2, 2, p1);
    assert Joins(b, [(2, 2)] + p1, 2, 2, 1, 1);
    TrailPrepend(b, 1, 2, p2);
    var q2 := [(1, 2)] + p2;
    TrailPrepend(b, 2, 2, q2);
    assert Joins(b, [(2, 2)] + q2, 2, 2, 0, 1);
    TrailPrepend(b, 2, 1, p3);
    var q3 := [(2, 1)] + p3;
    TrailPrepend(b, 2, 2, q3);
    assert Joins(b, [(2, 2)] + q3, 2, 2, 1, 0);
  }

  lemma CornerFlood(b: Board)
    requires Shaped(b) && b.size == 3 && CornerLayout(b)
    ensures var b' := RevealCell(b, 2, 2);
      && !b'.cells[0][0].visited
      && b'.cells[2][2].visited && b'.cells[1][1].visited
      && b'.cells[0][1].visited && b'.cells[1][0].visited
  {
    var b' := RevealCell(b, 2, 2);
    assert CellRevealed(b.cells[0][0], b'.cells[0][0]);
    CornerTrails(b);
    RevealOpensRegion(b, 2, 2);
    assert Opened(b, b', 1, 1) && Opened(b, b', 0, 1) && Opened(b, b', 1, 0);
  }

  /** 3 x 3 with one bomb in a corner: clicking the far corner opens the zero
      region and its numbered border but never the bomb. */
  lemma FloodStopsAtNumbers(b: Board)
    requires Shaped(b) && b.size == 3 && OnlyBombAt(b, 0, 0) && Counted(b) && Untouched(b)
    ensures var b' := RevealCell(b, 2, 2);
      && !b'.cells[0][0].visited
      && b'.cells[2][2].visited && b'.cells[1][1].visited
      && b'.cells[0][1].visited && b'.cells[1][0].visited
  {
    CornerBoardLayout(b);
    CornerFlood(b);
  }

  /** 2 x 2 with a bomb at (0, 0): clicking the numbered (0, 1) reveals it alone. */
  lemma NumberRevealsAlone(b: Board)
    requires Shaped(b) && b.size == 2 && OnlyBombAt(b, 0, 0) && Counted(b) && Untouched(b)
    ensures var b' := RevealCell(b, 0, 1);
      b'.cells[0][1].visited && !b'.cells[1][0].visited && !b'.cells[1][1].visited
  {
    assert (0, 0) in BombNeighbours(b, 0, 1);
  }

  /** 1 x 1 with a bomb: clicking it reveals the bomb, so the game is lost. */
  lemma BombClickLoses(b: Board)
    requires Shaped(b) && b.size == 1 && OnlyBombAt(b, 0, 0) && Untouched(b)
    ensures RevealCell(b, 0, 0).cells[0][0].visited
    ensures BombRevealed(RevealCell(b, 0, 0))
  {
    assert RevealCell(b, 0, 0).cells[0][0].visited;
  }
}
