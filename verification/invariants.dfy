/** The board invariant survives every move, a lost game stays lost, and a
    won game does not. */
module Invariants {
  import opened Cells
  import opened Boards
  import opened BoardFacts
  import opened Flood
  import opened Service

  /** What a click on the hidden, unflagged (r, c) does, as the click
      handler and the legacy visit both promise: (r, c) is revealed and its
      reward banked; every other cell is at most revealed, and only when it
      is safe and unflagged. */
  ghost predicate ClickOutcome(b: Board, b': Board, r: int, c: int)
    requires Shaped(b)
  {
    && Shaped(b') && b'.size == b.size && InBounds(b, r, c) && !b.cells[r][c].flagged
    && b'.cells[r][c] == b.cells[r][c].(visited := true, reward := false)
    && b'.rewards == b.rewards + (if b.cells[r][c].reward then 1 else 0)
    && forall i, j | InBounds(b, i, j) && (i, j) != (r, c) :: CellRevealed(b.cells[i][j], b'.cells[i][j])
  }

  lemma ClickKeepsShape(b: Board, b': Board, r: int, c: int)
    requires Inv(b) && ClickOutcome(b, b', r, c)
    ensures Positioned(b') && FlagsHidden(b')
  {
    forall i, j | 0 <= i < b.size && 0 <= j < b.size
      ensures b'.cells[i][j].row == i && b'.cells[i][j].column == j
      ensures !(b'.cells[i][j].flagged && b'.cells[i][j].visited)
    {
      if (i, j) != (r, c) {
        assert CellRevealed(b.cells[i][j], b'.cells[i][j]);
      }
    }
  }

  /** A click never adds a reward mark; collecting one banks exactly the peek
      that left the board. */
  lemma ClickKeepsRewards(b: Board, b': Board, r: int, c: int)
    requires Inv(b) && ClickOutcome(b, b', r, c)
    ensures AtMostOneReward(b') && RewardLedger(b')
  {
    forall i, j | InBounds(b, i, j) && b'.cells[i][j].reward ensures (i, j) != (r, c) && b.cells[i][j].reward {
      if (i, j) != (r, c) {
        assert CellRevealed(b.cells[i][j], b'.cells[i][j]);
      }
    }
    if HasRewardCell(b') {
      var i, j :| 0 <= i < b.size && 0 <= j < b.size && b'.cells[i][j].reward;
      assert b.cells[i][j].reward;
      assert !b.cells[r][c].reward;
    }
  }

  lemma ClickKeepsInv(b: Board, b': Board, r: int, c: int)
    requires Inv(b) && ClickOutcome(b, b', r, c)
    ensures Inv(b')
  {
    ClickKeepsShape(b, b', r, c);
    ClickKeepsRewards(b, b', r, c);
  }

  /** Clicking keeps the board invariant; in particular the reward ledger:
      picking up the reward banks exactly the peek that left the board. */
  lemma RevealCellKeepsInv(b: Board, r: int, c: int)
    requires Inv(b)
    ensures Inv(RevealCell(b, r, c))
  {
    if Clickable(b, r, c) {
      ClickKeepsInv(b, RevealCell(b, r, c), r, c);
    }
  }

  /** The legacy visit keeps the board invariant. */
  lemma VisitCellKeepsInv(b: Board, r: int, c: int)
    requires Inv(b)
    ensures Inv(VisitCell(b, r, c).0)
  {
    if Clickable(b, r, c) {
      ClickKeepsInv(b, VisitCell(b, r, c).0, r, c);
    }
  }

  /** Flagging keeps the board invariant: a revealed cell never gets a flag. */
  lemma ToggleFlagKeepsInv(b: Board, r: int, c: int)
    requires Inv(b)
    ensures Inv(ToggleFlag(b, r, c))
  {
    var b' := ToggleFlag(b, r, c);
    forall i, j | 0 <= i < b.size && 0 <= j < b.size
      ensures b'.cells[i][j] == b.cells[i][j].(flagged := b'.cells[i][j].flagged)
      ensures b'.cells[i][j].flagged ==> !b'.cells[i][j].visited
    {
    }
    assert HasRewardCell(b') == HasRewardCell(b);
  }

  /** Peeking keeps the board invariant: the counter never goes negative. */
  lemma UseRewardPeekKeepsInv(b: Board, r: int, c: int)
    requires Inv(b)
    ensures Inv(UseRewardPeek(b, r, c).0)
  {
  }

  /** Once a bomb is revealed it stays revealed, so Lost is final. */
  lemma LostIsFinal(b: Board, r: int, c: int)
    requires Shaped(b) && BombRevealed(b)
    ensures BombRevealed(RevealCell(b, r, c))
    ensures BombRevealed(VisitCell(b, r, c).0)
    ensures BombRevealed(ToggleFlag(b, r, c))
    ensures BombRevealed(UseRewardPeek(b, r, c).0)
  {
    var i, j :| 0 <= i < b.size && 0 <= j < b.size && b.cells[i][j].bomb && b.cells[i][j].visited;
    assert RevealCell(b, r, c).cells[i][j].visited;
    assert VisitCell(b, r, c).0.cells[i][j].visited;
    assert ToggleFlag(b, r, c).cells[i][j].visited;
  }

  /** Won is not final: the state is re-derived from the grid on every call,
      and a won board still accepts a click on a hidden bomb. */
  lemma WonIsNotFinal()
    ensures exists b: Board :: Inv(b) && !BombRevealed(b) && !SafeHidden(b)
                              && BombRevealed(RevealCell(b, 0, 0))
  {
    var bomb := Cell(0, 0, false, true, false, BombSentinel, false);
    var safe := Cell(0, 1, true, false, false, 1, false);
    var b := Board(2, [[bomb, safe], [safe.(row := 1, column := 0), safe.(row := 1, column := 1)]],
                   0, Won, true);
    assert !HasRewardCell(b);
    assert Inv(b);
    assert RevealCell(b, 0, 0).cells[0][0].visited;
  }
}
