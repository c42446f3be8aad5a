/** The play moves of BoardService: reveal, legacy visit, flag, peek and the
    game-state derivation. */
module Service {
  import opened Boards
  import opened BoardFacts
  import opened Flood
  import opened FloodReach

  /** The move acts on (r, c): in bounds, hidden and unflagged. */
  predicate Clickable(b: Board, r: int, c: int)
    requires Shaped(b)
  {
    InBounds(b, r, c) && !b.cells[r][c].visited && !b.cells[r][c].flagged
  }

  /** The board after picking up the reward on (r, c), if it carries one. */
  function Collect(b: Board, r: int, c: int): (b': Board)
    requires Shaped(b) && InBounds(b, r, c)
    ensures Shaped(b') && b'.size == b.size && b'.state == b.state && b'.ended == b.ended
    ensures !b'.cells[r][c].reward
    ensures b'.rewards == b.rewards + (if b.cells[r][c].reward then 1 else 0)
    ensures b'.cells[r][c] == b.cells[r][c].(reward := false)
    ensures forall i, j | InBounds(b, i, j) && (i, j) != (r, c) :: b'.cells[i][j] == b.cells[i][j]
  {
    var cell := b.cells[r][c];
    if cell.reward then SetCell(b, r, c, cell.(reward := false)).(rewards := b.rewards + 1) else b
  }

  /** The click handler: ignore clicks outside the board or on revealed or
      flagged cells; otherwise collect the reward, then reveal a bomb or a
      number alone, or flood from a zero cell. */
  function RevealCell(b: Board, r: int, c: int): (b': Board)
    requires Shaped(b)
    ensures Shaped(b') && b'.size == b.size && b'.state == b.state && b'.ended == b.ended
    ensures !Clickable(b, r, c) ==> b' == b
    ensures Clickable(b, r, c) ==>
              && b'.cells[r][c] == b.cells[r][c].(visited := true, reward := false)
              && b'.rewards == b.rewards + (if b.cells[r][c].reward then 1 else 0)
    ensures Clickable(b, r, c) && (b.cells[r][c].bomb || IsNumber(b.cells[r][c])) ==>
              forall i, j | InBounds(b, i, j) && (i, j) != (r, c) :: b'.cells[i][j] == b.cells[i][j]
    ensures forall i, j | InBounds(b, i, j) && (i, j) != (r, c) ::
              CellRevealed(b.cells[i][j], b'.cells[i][j])
  {
    if !InBounds(b, r, c) then b
    else
      var cell := b.cells[r][c];
      if cell.visited || cell.flagged then b
      else
        var b0 := Collect(b, r, c);
        if cell.bomb then SetCell(b0, r, c, b0.cells[r][c].(visited := true))
        else if IsNumber(cell) then SetCell(b0, r, c, b0.cells[r][c].(visited := true))
        else FloodFill(b0, r, c)
  }

  /** Two boards whose cells agree on everything but the reward marks have
      the same trails. */
  lemma TrailsIgnoreRewards(b: Board, b': Board, path: seq<(int, int)>)
    requires Shaped(b) && Shaped(b') && b'.size == b.size
    requires forall i, j | InBounds(b, i, j) :: b'.cells[i][j] == b.cells[i][j].(reward := b'.cells[i][j].reward)
    ensures IsTrail(b, path) <==> IsTrail(b', path)
  {
    if IsTrail(b, path) {
      forall k | 0 <= k < |path| - 1 ensures !IsNumber(b'.cells[path[k].0][path[k].1]) {
        assert Openable(b, path[k].0, path[k].1);
      }
    }
    if IsTrail(b', path) {
      forall k | 0 <= k < |path| - 1 ensures !IsNumber(b.cells[path[k].0][path[k].1]) {
        assert Openable(b', path[k].0, path[k].1);
      }
    }
  }

  /** Reward marks do not change what a flood can reach. */
  lemma ReachesIgnoresRewards(b: Board, b': Board, r: int, c: int, i: int, j: int)
    requires Shaped(b) && Shaped(b') && b'.size == b.size
    requires forall i, j | InBounds(b, i, j) :: b'.cells[i][j] == b.cells[i][j].(reward := b'.cells[i][j].reward)
    ensures Reaches(b, r, c, i, j) <==> Reaches(b', r, c, i, j)
  {
    if Reaches(b, r, c, i, j) {
      var path :| Joins(b, path, r, c, i, j);
      TrailsIgnoreRewards(b, b', path);
      assert Joins(b', path, r, c, i, j);
    }
    if Reaches(b', r, c, i, j) {
      var path :| Joins(b', path, r, c, i, j);
      TrailsIgnoreRewards(b, b', path);
      assert Joins(b, path, r, c, i, j);
    }
  }

  /** Revealing an openable zero cell reveals exactly the squares reachable
      from it: the connected zero region and its numbered border. */
  lemma RevealOpensRegion(b: Board, r: int, c: int)
    requires Shaped(b) && Openable(b, r, c) && !IsNumber(b.cells[r][c])
    ensures forall i, j :: Opened(b, RevealCell(b, r, c), i, j) <==> Reaches(b, r, c, i, j)
  {
    var b0 := Collect(b, r, c);
    var b' := RevealCell(b, r, c);
    assert b' == FloodFill(b0, r, c);
    FloodFillExact(b0, r, c);
    forall i, j ensures Opened(b, b', i, j) <==> Reaches(b, r, c, i, j) {
      ReachesIgnoresRewards(b, b0, r, c, i, j);
      assert Opened(b, b', i, j) <==> Opened(b0, b', i, j);
    }
  }

  /** The legacy single-cell visit: reveal (r, c) alone, collect its reward,
      and report whether it was a bomb. */
  function VisitCell(b: Board, r: int, c: int): (res: (Board, bool))
    requires Shaped(b)
    ensures Shaped(res.0) && res.0.size == b.size && res.0.state == b.state && res.0.ended == b.ended
    ensures res.1 <==> Clickable(b, r, c) && b.cells[r][c].bomb
    ensures !Clickable(b, r, c) ==> res.0 == b
    ensures Clickable(b, r, c) ==>
              && res.0.cells[r][c] == b.cells[r][c].(visited := true, reward := false)
              && res.0.rewards == b.rewards + (if b.cells[r][c].reward then 1 else 0)
              && forall i, j | InBounds(b, i, j) && (i, j) != (r, c) :: res.0.cells[i][j] == b.cells[i][j]
  {
    if !InBounds(b, r, c) then (b, false)
    else
      var cell := b.cells[r][c];
      if cell.visited || cell.flagged then (b, false)
      else
        var b1 := SetCell(b, r, c, cell.(visited := true));
        var b2 := Collect(b1, r, c);
        (b2, cell.bomb)
  }

  /** On bombs, numbered cells and ignored clicks the legacy visit and the
      click handler leave the same board; they differ only on zero cells,
      where the visit does not flood. */
  lemma VisitAgreesWithReveal(b: Board, r: int, c: int)
    requires Shaped(b)
    requires !Clickable(b, r, c) || b.cells[r][c].bomb || IsNumber(b.cells[r][c])
    ensures VisitCell(b, r, c).0 == RevealCell(b, r, c)
  {
    if Clickable(b, r, c) {
      var v, w := VisitCell(b, r, c).0, RevealCell(b, r, c);
      assert v.cells == w.cells by {
        forall i | 0 <= i < b.size ensures v.cells[i] == w.cells[i] {
          assert forall j | 0 <= j < b.size :: v.cells[i][j] == w.cells[i][j];
        }
      }
    }
  }

  /** Toggle the flag on a hidden cell; ignore the board's outside and revealed cells. */
  function ToggleFlag(b: Board, r: int, c: int): (b': Board)
    requires Shaped(b)
    ensures Shaped(b') && b'.size == b.size
    ensures b'.rewards == b.rewards && b'.state == b.state && b'.ended == b.ended
    ensures !InBounds(b, r, c) || b.cells[r][c].visited ==> b' == b
    ensures InBounds(b, r, c) && !b.cells[r][c].visited ==>
              b'.cells[r][c].flagged != b.cells[r][c].flagged
              && b'.cells[r][c] == b.cells[r][c].(flagged := b'.cells[r][c].flagged)
    ensures forall i, j | InBounds(b, i, j) && (i, j) != (r, c) :: b'.cells[i][j] == b.cells[i][j]
  {
    if !InBounds(b, r, c) then b
    else
      var cell := b.cells[r][c];
      if cell.visited then b
      else SetCell(b, r, c, cell.(flagged := !cell.flagged))
  }

  /** Flagging twice gives back the board flagged zero times. */
  lemma ToggleFlagTwice(b: Board, r: int, c: int)
    requires Shaped(b)
    ensures ToggleFlag(ToggleFlag(b, r, c), r, c) == b
  {
    if InBounds(b, r, c) && !b.cells[r][c].visited {
      var b2 := ToggleFlag(ToggleFlag(b, r, c), r, c);
      assert b2.cells == b.cells by {
        forall i | 0 <= i < b.size ensures b2.cells[i] == b.cells[i] {
          assert forall j | 0 <= j < b.size :: b2.cells[i][j] == b.cells[i][j];
        }
      }
    }
  }

  /** What a peek reports. */
  datatype PeekOutcome = NoReward | OutOfBounds | Peeked(isBomb: bool)

  /** Spend a banked reward to learn whether (r, c) is a bomb without revealing it. */
  function UseRewardPeek(b: Board, r: int, c: int): (res: (Board, PeekOutcome))
    requires Shaped(b)
    ensures res.0.cells == b.cells && res.0.size == b.size
    ensures res.0.state == b.state && res.0.ended == b.ended
    ensures res.1 == NoReward <==> b.rewards <= 0
    ensures res.1 == OutOfBounds <==> b.rewards > 0 && !InBounds(b, r, c)
    ensures !res.1.Peeked? ==> res.0 == b
    ensures res.1.Peeked? ==>
              InBounds(b, r, c) && res.1.isBomb == b.cells[r][c].bomb && res.0.rewards == b.rewards - 1
  {
    if b.rewards <= 0 then (b, NoReward)
    else if !InBounds(b, r, c) then (b, OutOfBounds)
    else (b.(rewards := b.rewards - 1), Peeked(b.cells[r][c].bomb))
  }

  /** Derive and store the game state: Lost once a bomb is revealed, else
      StillPlaying while a safe cell is hidden, else Won; a terminal state
      stamps the end time. */
  method DetermineGameState(b: Board) returns (b': Board, s: GameState)
    requires Shaped(b)
    ensures s == Lost <==> BombRevealed(b)
    ensures s == StillPlaying <==> !BombRevealed(b) && SafeHidden(b)
    ensures s == Won <==> !BombRevealed(b) && !SafeHidden(b)
    ensures b'.state == s && b'.ended == (b.ended || s != StillPlaying)
    ensures b'.cells == b.cells && b'.size == b.size && b'.rewards == b.rewards
  {
    var n := b.size;
    var r := 0;
    while r < n
      invariant 0 <= r <= n
      invariant forall i, j | 0 <= i < r && 0 <= j < n :: !(b.cells[i][j].bomb && b.cells[i][j].visited)
    {
      var c := 0;
      while c < n
        invariant 0 <= c <= n
        invariant forall j | 0 <= j < c :: !(b.cells[r][j].bomb && b.cells[r][j].visited)
      {
        if b.cells[r][c].bomb && b.cells[r][c].visited {
          b' := b.(state := Lost, ended := true);
          return b', b'.state;
        }
        c := c + 1;
      }
      r := r + 1;
    }
    r := 0;
    while r < n
      invariant 0 <= r <= n
      invariant forall i, j | 0 <= i < r && 0 <= j < n :: b.cells[i][j].bomb || b.cells[i][j].visited
    {
      var c := 0;
      while c < n
        invariant 0 <= c <= n
        invariant forall j | 0 <= j < c :: b.cells[r][j].bomb || b.cells[r][j].visited
      {
        if !b.cells[r][c].bomb && !b.cells[r][c].visited {
          b' := b.(state := StillPlaying);
          return b', b'.state;
        }
        c := c + 1;
      }
      r := r + 1;
    }
    b' := b.(state := Won, ended := true);
    s := b'.state;
  }
}
