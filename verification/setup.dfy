/** Starting a round (BoardService.SetupBombs and TryPlaceSingleReward). The
    random draws are inputs: `layout` holds the bomb draw of every cell and
    `pick` the index Random.Next chose among the safe cells. */
module Setup {
  import opened Cells
  import opened Boards
  import opened BoardFacts
  import opened Counting

  /** The bomb draws cover the board. */
  predicate Fits(b: Board, layout: seq<seq<bool>>) {
    |layout| == b.size && forall i | 0 <= i < |layout| :: |layout[i]| == b.size
  }

  /** Clear every cell's play state and arm it according to its draw; the
      session goes back to StillPlaying with nothing banked and no end time. */
  function Reset(b: Board, layout: seq<seq<bool>>): (b': Board)
    requires Shaped(b) && Fits(b, layout)
    ensures Shaped(b') && b'.size == b.size
    ensures b'.rewards == 0 && b'.state == StillPlaying && !b'.ended
    ensures forall i, j | InBounds(b, i, j) ::
              b'.cells[i][j] == Cell(b.cells[i][j].row, b.cells[i][j].column, false, layout[i][j], false, 0, false)
  {
    var n := b.size;
    b.(cells := seq(n, i requires 0 <= i < n =>
                      seq(n, j requires 0 <= j < n =>
                            b.cells[i][j].(visited := false, flagged := false, reward := false,
                                           neighbors := 0, bomb := layout[i][j]))),
       rewards := 0, state := StillPlaying, ended := false)
  }

  /** p comes before q in row-major order. */
  predicate RowMajorBefore(p: (int, int), q: (int, int)) {
    p.0 < q.0 || (p.0 == q.0 && p.1 < q.1)
  }

  predicate RowMajorSorted(s: seq<(int, int)>) {
    forall k, l | 0 <= k < l < |s| :: RowMajorBefore(s[k], s[l])
  }

  /** The safe cells of row r from column c on, left to right. */
  function SafeInRow(b: Board, r: int, c: int): (s: seq<(int, int)>)
    requires Shaped(b) && 0 <= r < b.size && 0 <= c <= b.size
    ensures forall p :: p in s <==> p.0 == r && c <= p.1 < b.size && !b.cells[r][p.1].bomb
    ensures RowMajorSorted(s)
    decreases b.size - c
  {
    if c == b.size then []
    else if !b.cells[r][c].bomb then [(r, c)] + SafeInRow(b, r, c + 1)
    else SafeInRow(b, r, c + 1)
  }

  /** The safe cells of rows r and below, in row-major order. */
  function SafeFrom(b: Board, r: int): (s: seq<(int, int)>)
    requires Shaped(b) && 0 <= r <= b.size
    ensures forall p :: p in s <==> r <= p.0 < b.size && 0 <= p.1 < b.size && !b.cells[p.0][p.1].bomb
    ensures RowMajorSorted(s)
    decreases b.size - r
  {
    if r == b.size then []
    else SafeInRow(b, r, 0) + SafeFrom(b, r + 1)
  }

  /** The list TryPlaceSingleReward collects: every safe cell once, row by row. */
  function SafeCells(b: Board): (s: seq<(int, int)>)
    requires Shaped(b)
    ensures forall p :: p in s <==> InBounds(b, p.0, p.1) && !b.cells[p.0][p.1].bomb
    ensures RowMajorSorted(s)
  {
    SafeFrom(b, 0)
  }

  /** Random.Next(k) returns an index below k; with no safe cell there is no draw. */
  predicate ValidPick(b: Board, pick: int)
    requires Shaped(b)
  {
    |SafeCells(b)| == 0 || 0 <= pick < |SafeCells(b)|
  }

  /** Some cell is safe. */
  predicate HasSafeCell(b: Board)
    requires Shaped(b)
  {
    exists i, j | 0 <= i < b.size && 0 <= j < b.size :: !b.cells[i][j].bomb
  }

  /** The safe-cell list is empty exactly when every square holds a bomb. */
  lemma SafeCellsExist(b: Board)
    requires Shaped(b)
    ensures HasSafeCell(b) <==> |SafeCells(b)| > 0
  {
    var safe := SafeCells(b);
    if HasSafeCell(b) {
      var i, j :| 0 <= i < b.size && 0 <= j < b.size && !b.cells[i][j].bomb;
      assert (i, j) in safe;
    }
    if |safe| > 0 {
      assert safe[0] in safe;
    }
  }

  /** Put the reward on the picked safe cell and bank one peek; on an
      all-bomb board change nothing. */
  function TryPlaceSingleReward(b: Board, pick: int): (b': Board)
    requires Shaped(b) && ValidPick(b, pick)
    ensures Shaped(b') && b'.size == b.size && b'.state == b.state && b'.ended == b.ended
    ensures !HasSafeCell(b) ==> b' == b
    ensures HasSafeCell(b) ==>
              && b'.rewards == 1
              && 0 <= pick < |SafeCells(b)|
              && var p := SafeCells(b)[pick];
                 InBounds(b, p.0, p.1) && !b.cells[p.0][p.1].bomb && b'.cells[p.0][p.1].reward
                 && forall i, j | InBounds(b, i, j) && (i, j) != p :: b'.cells[i][j] == b.cells[i][j]
    ensures forall i, j | InBounds(b, i, j) :: b'.cells[i][j] == b.cells[i][j].(reward := b'.cells[i][j].reward)
  {
    SafeCellsExist(b);
    var safe := SafeCells(b);
    if |safe| == 0 then
      b
    else
      var p := safe[pick];
      assert p in safe;
      SetCell(b, p.0, p.1, b.cells[p.0][p.1].(reward := true)).(rewards := 1)
  }

  /** What placing the reward on a freshly reset board establishes. */
  lemma PlacedRewardFacts(b: Board, pick: int)
    requires Shaped(b) && ValidPick(b, pick)
    requires b.rewards == 0
    requires forall i, j | InBounds(b, i, j) :: !b.cells[i][j].reward && !b.cells[i][j].visited && !b.cells[i][j].flagged
    ensures var b' := TryPlaceSingleReward(b, pick);
      && AtMostOneReward(b') && FlagsHidden(b')
      && (forall i, j | InBounds(b, i, j) :: b'.cells[i][j].reward ==> !b'.cells[i][j].bomb)
      && (HasSafeCell(b) ==> b'.rewards == 1 && HasRewardCell(b'))
      && (!HasSafeCell(b) ==> b'.rewards == 0 && !HasRewardCell(b'))
  {
    var b' := TryPlaceSingleReward(b, pick);
    if HasSafeCell(b) {
      var p := SafeCells(b)[pick];
      assert b'.cells[p.0][p.1].reward;
    }
  }

  /** Counting neighbours touches only the counts, so the reward, flag and
      position facts carry over. */
  lemma CountingKeepsFacts(b: Board, b': Board)
    requires Shaped(b) && Shaped(b') && b'.size == b.size
    requires forall i, j | InBounds(b, i, j) :: b'.cells[i][j] == b.cells[i][j].(neighbors := b'.cells[i][j].neighbors)
    ensures AtMostOneReward(b) ==> AtMostOneReward(b')
    ensures FlagsHidden(b) ==> FlagsHidden(b')
    ensures Positioned(b) ==> Positioned(b')
  {
  }

  /** Boards with the same bombs agree on whether a safe cell exists. */
  lemma SameBombsSameSafety(b: Board, b': Board)
    requires Shaped(b) && Shaped(b') && b'.size == b.size
    requires forall i, j | InBounds(b, i, j) :: b'.cells[i][j].bomb == b.cells[i][j].bomb
    ensures HasSafeCell(b') == HasSafeCell(b)
  {
    if HasSafeCell(b) {
      var i, j :| 0 <= i < b.size && 0 <= j < b.size && !b.cells[i][j].bomb;
      assert !b'.cells[i][j].bomb;
    }
    if HasSafeCell(b') {
      var i, j :| 0 <= i < b.size && 0 <= j < b.size && !b'.cells[i][j].bomb;
      assert !b.cells[i][j].bomb;
    }
  }

  /** ... and so do the existence of a reward cell and of a safe cell. */
  lemma CountingKeepsWitnesses(b: Board, b': Board)
    requires Shaped(b) && Shaped(b') && b'.size == b.size
    requires forall i, j | InBounds(b, i, j) :: b'.cells[i][j] == b.cells[i][j].(neighbors := b'.cells[i][j].neighbors)
    ensures HasRewardCell(b') == HasRewardCell(b)
    ensures HasSafeCell(b') == HasSafeCell(b)
  {
    if HasRewardCell(b) {
      var i, j :| 0 <= i < b.size && 0 <= j < b.size && b.cells[i][j].reward;
      assert b'.cells[i][j].reward;
    }
    if HasRewardCell(b') {
      var i, j :| 0 <= i < b.size && 0 <= j < b.size && b'.cells[i][j].reward;
      assert b.cells[i][j].reward;
    }
    SameBombsSameSafety(b, b');
  }

  /** A fresh round: every cell armed as drawn, nothing revealed or flagged,
      at most one reward and only on a safe cell, one peek banked exactly
      when a safe cell exists, the game running and not ended. */
  ghost predicate FreshRound(b: Board, layout: seq<seq<bool>>, b': Board)
    requires Shaped(b) && Fits(b, layout)
  {
    && Shaped(b') && b'.size == b.size
    && b'.state == StillPlaying && !b'.ended
    && (forall i, j | InBounds(b, i, j) ::
          && b'.cells[i][j].row == b.cells[i][j].row && b'.cells[i][j].column == b.cells[i][j].column
          && b'.cells[i][j].bomb == layout[i][j]
          && !b'.cells[i][j].visited && !b'.cells[i][j].flagged
          && (b'.cells[i][j].reward ==> !b'.cells[i][j].bomb))
    && AtMostOneReward(b') && FlagsHidden(b')
    && (HasSafeCell(b') ==> b'.rewards == 1 && HasRewardCell(b'))
    && (!HasSafeCell(b') ==> b'.rewards == 0 && !HasRewardCell(b'))
  }

  /** The board counting produces from the placed board b2: only the
      neighbour counts may differ. */
  ghost predicate CountedFrom(b2: Board, b': Board)
    requires Shaped(b2)
  {
    && Shaped(b') && b'.size == b2.size
    && b'.rewards == b2.rewards && b'.state == b2.state && b'.ended == b2.ended
    && forall i, j | InBounds(b2, i, j) :: b'.cells[i][j] == b2.cells[i][j].(neighbors := b'.cells[i][j].neighbors)
  }

  /** Cell by cell, reset and placement leave every slot armed as drawn and
      untouched. */
  lemma PlacedCells(b: Board, layout: seq<seq<bool>>, pick: int)
    requires Shaped(b) && Fits(b, layout) && ValidPick(Reset(b, layout), pick)
    ensures var b2 := TryPlaceSingleReward(Reset(b, layout), pick);
      forall i, j | InBounds(b, i, j) ::
        && b2.cells[i][j].row == b.cells[i][j].row && b2.cells[i][j].column == b.cells[i][j].column
        && b2.cells[i][j].bomb == layout[i][j]
        && !b2.cells[i][j].visited && !b2.cells[i][j].flagged
  {
    var b1 := Reset(b, layout);
    var b2 := TryPlaceSingleReward(b1, pick);
    forall i, j | InBounds(b, i, j)
      ensures && b2.cells[i][j].row == b.cells[i][j].row && b2.cells[i][j].column == b.cells[i][j].column
              && b2.cells[i][j].bomb == layout[i][j]
              && !b2.cells[i][j].visited && !b2.cells[i][j].flagged
    {
      assert b2.cells[i][j] == b1.cells[i][j].(reward := b2.cells[i][j].reward);
    }
  }

  /** Reset followed by reward placement already makes a fresh round. */
  lemma PlacedIsFresh(b: Board, layout: seq<seq<bool>>, pick: int)
    requires Shaped(b) && Fits(b, layout) && ValidPick(Reset(b, layout), pick)
    ensures var b2 := TryPlaceSingleReward(Reset(b, layout), pick);
      FreshRound(b, layout, b2) && (Positioned(b) ==> Positioned(b2))
  {
    var b1 := Reset(b, layout);
    var b2 := TryPlaceSingleReward(b1, pick);
    PlacedRewardFacts(b1, pick);
    PlacedCells(b, layout, pick);
    SameBombsSameSafety(b1, b2);
  }

  /** Counting the neighbours keeps a fresh round fresh. */
  lemma CountingKeepsFresh(b: Board, layout: seq<seq<bool>>, b2: Board, b': Board)
    requires Shaped(b) && Fits(b, layout) && FreshRound(b, layout, b2) && CountedFrom(b2, b')
    ensures FreshRound(b, layout, b')
    ensures Positioned(b2) ==> Positioned(b')
  {
    CountingKeepsFacts(b2, b');
    CountingKeepsWitnesses(b2, b');
    forall i, j | InBounds(b, i, j)
      ensures && b'.cells[i][j].row == b.cells[i][j].row && b'.cells[i][j].column == b.cells[i][j].column
              && b'.cells[i][j].bomb == layout[i][j]
              && !b'.cells[i][j].visited && !b'.cells[i][j].flagged
              && (b'.cells[i][j].reward ==> !b'.cells[i][j].bomb)
    {
      assert b'.cells[i][j] == b2.cells[i][j].(neighbors := b'.cells[i][j].neighbors);
    }
  }

  /** A fresh round on a positioned board satisfies the board invariant. */
  lemma FreshRoundInv(b: Board, layout: seq<seq<bool>>, b': Board)
    requires Shaped(b) && Fits(b, layout) && FreshRound(b, layout, b') && Positioned(b')
    ensures Inv(b')
  {
  }

  /** Reset, reward placement and counting together make a fresh round. */
  lemma SetupMakesFreshRound(b: Board, layout: seq<seq<bool>>, pick: int, b': Board)
    requires Shaped(b) && Fits(b, layout) && ValidPick(Reset(b, layout), pick)
    requires CountedFrom(TryPlaceSingleReward(Reset(b, layout), pick), b')
    ensures FreshRound(b, layout, b')
    ensures Positioned(b) ==> Inv(b')
  {
    var b2 := TryPlaceSingleReward(Reset(b, layout), pick);
    PlacedIsFresh(b, layout, pick);
    CountingKeepsFresh(b, layout, b2, b');
    if Positioned(b) {
      FreshRoundInv(b, layout, b');
    }
  }

  /** Start a round: reset and arm every cell, place the reward, count the
      neighbours. */
  method SetupBombs(b: Board, layout: seq<seq<bool>>, pick: int) returns (b': Board)
    requires Shaped(b) && Fits(b, layout) && ValidPick(Reset(b, layout), pick)
    ensures FreshRound(b, layout, b')
    ensures Counted(b')
    ensures Positioned(b) ==> Inv(b')
    ensures |SafeCells(Reset(b, layout))| > 0 ==>
              var p := SafeCells(Reset(b, layout))[pick];
              InBounds(b, p.0, p.1) && !layout[p.0][p.1] && b'.cells[p.0][p.1].reward
  {
    var b1 := Reset(b, layout);
    var b2 := TryPlaceSingleReward(b1, pick);
    b' := CountBombsNearby(b2);
    SetupMakesFreshRound(b, layout, pick, b');
    SafeCellsExist(b1);
  }
}
