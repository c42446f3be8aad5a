/** The board record (BoardModel) and the grid helpers every operation shares. */
module Boards {
  import opened Cells

  datatype GameState = StillPlaying | Won | Lost

  /** An N x N board. `ended` stands for "EndTime has been stamped"; the
      clock value itself is not modelled. */
  datatype Board = Board(
    size: int,
    cells: seq<seq<Cell>>,
    rewards: int,
    state: GameState,
    ended: bool)

  /** The grid really is size x size. */
  predicate Shaped(b: Board) {
    |b.cells| == b.size && forall i | 0 <= i < |b.cells| :: |b.cells[i]| == b.size
  }

  predicate InBounds(b: Board, r: int, c: int) {
    0 <= r < b.size && 0 <= c < b.size
  }

  /** Every slot (r, c) holds the cell that knows it sits at (r, c). */
  predicate Positioned(b: Board)
    requires Shaped(b)
  {
    forall i, j | 0 <= i < b.size && 0 <= j < b.size ::
      b.cells[i][j].row == i && b.cells[i][j].column == j
  }

  function At(b: Board, r: int, c: int): Cell
    requires Shaped(b) && InBounds(b, r, c)
  {
    b.cells[r][c]
  }

  /** The board with the cell at (r, c) replaced and nothing else changed. */
  function SetCell(b: Board, r: int, c: int, x: Cell): (b': Board)
    requires Shaped(b) && InBounds(b, r, c)
    ensures Shaped(b') && b'.size == b.size
    ensures b'.rewards == b.rewards && b'.state == b.state && b'.ended == b.ended
    ensures At(b', r, c) == x
    ensures forall i, j | InBounds(b, i, j) && (i, j) != (r, c) :: b'.cells[i][j] == b.cells[i][j]
  {
    b.(cells := b.cells[r := b.cells[r][c := x]])
  }

  /** (i, j) is one of the eight squares around (r, c). */
  predicate Adjacent(r: int, c: int, i: int, j: int) {
    -1 <= i - r <= 1 && -1 <= j - c <= 1 && (i, j) != (r, c)
  }

  /** The board constructor: every slot gets a fresh cell carrying its own
      position, no rewards banked, the game still running, no end time. */
  function NewBoard(size: int): (b: Board)
    requires size >= 0
    ensures Shaped(b) && b.size == size
    ensures Positioned(b)
    ensures forall i, j | InBounds(b, i, j) :: Pristine(b.cells[i][j])
    ensures b.rewards == 0 && b.state == StillPlaying && !b.ended
  {
    Board(size, seq(size, i => seq(size, j => NewCell(i, j))), 0, StillPlaying, false)
  }
}

/** Board-wide facts the rules engine keeps true between moves. */
module BoardFacts {
  import opened Cells
  import opened Boards

  /** Some revealed cell holds a bomb. */
  predicate BombRevealed(b: Board)
    requires Shaped(b)
  {
    exists i, j | 0 <= i < b.size && 0 <= j < b.size :: b.cells[i][j].bomb && b.cells[i][j].visited
  }

  /** Some safe cell is still hidden. */
  predicate SafeHidden(b: Board)
    requires Shaped(b)
  {
    exists i, j | 0 <= i < b.size && 0 <= j < b.size :: !b.cells[i][j].bomb && !b.cells[i][j].visited
  }

  /** Some cell still carries the reward. */
  predicate HasRewardCell(b: Board)
    requires Shaped(b)
  {
    exists i, j | 0 <= i < b.size && 0 <= j < b.size :: b.cells[i][j].reward
  }

  /** No two different cells carry the reward. */
  ghost predicate AtMostOneReward(b: Board)
    requires Shaped(b)
  {
    forall i, j, i2, j2 | InBounds(b, i, j) && InBounds(b, i2, j2) && b.cells[i][j].reward && b.cells[i2][j2].reward ::
      i == i2 && j == j2
  }

  /** No cell is both flagged and revealed. */
  ghost predicate FlagsHidden(b: Board)
    requires Shaped(b)
  {
    forall i, j | InBounds(b, i, j) :: !(b.cells[i][j].flagged && b.cells[i][j].visited)
  }

  /** The banked peeks plus the peek still lying on the board never exceed the
      two a round can hand out (one seeded at setup, one for finding the cell). */
  ghost predicate RewardLedger(b: Board)
    requires Shaped(b)
  {
    0 <= b.rewards && b.rewards + (if HasRewardCell(b) then 1 else 0) <= 2
  }

  /** The invariant every board the engine produces satisfies. */
  ghost predicate Inv(b: Board) {
    Shaped(b) && Positioned(b) && AtMostOneReward(b) && FlagsHidden(b) && RewardLedger(b)
  }

  /** A new board satisfies the invariant. */
  lemma NewBoardInv(size: int)
    requires size >= 0
    ensures Inv(NewBoard(size))
  {
    var b := NewBoard(size);
    assert !HasRewardCell(b);
  }
}
