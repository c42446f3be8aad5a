/** The recursive flood fill of BoardService.FloodFillOpening.

    The flood writes nothing but the visited mark, and it reads a cell's
    visited mark only to stop on squares already revealed. So the model
    runs the recursion against the fixed starting board and threads the set
    of squares it has revealed so far; a square counts as revealed when the
    board says so or when it is in that set. FloodFill then marks the
    collected squares on the board in one step. */
module Flood {
  import opened Cells
  import opened Boards

  /** The eight (dr, dc) offsets in the order the nested loops visit them. */
  const Offsets: seq<(int, int)> :=
    [(-1, -1), (-1, 0), (-1, 1), (0, -1), (0, 1), (1, -1), (1, 0), (1, 1)]

  lemma OffsetsAreAdjacent(r: int, c: int, k: int)
    requires 0 <= k < |Offsets|
    ensures Adjacent(r, c, r + Offsets[k].0, c + Offsets[k].1)
  {
  }

  /** Every adjacent square is reached by one of the eight offsets. */
  lemma AdjacentIsOffset(r: int, c: int, i: int, j: int) returns (k: int)
    requires Adjacent(r, c, i, j)
    ensures 0 <= k < |Offsets| && (i, j) == (r + Offsets[k].0, c + Offsets[k].1)
  {
    var dr, dc := i - r, j - c;
    k := if dr == -1 then dc + 1 else if dr == 0 then (if dc == -1 then 3 else 4) else dc + 6;
  }

  /** The in-bounds squares not revealed on b; with the squares the flood has
      already collected taken away, the flood's termination measure. */
  ghost function Hidden(b: Board): set<(int, int)>
    requires Shaped(b)
  {
    set i, j | 0 <= i < b.size && 0 <= j < b.size && !b.cells[i][j].visited :: (i, j)
  }

  /** A cell the flood may open: in bounds, hidden, unflagged and not a bomb. */
  predicate Openable(b: Board, r: int, c: int)
    requires Shaped(b)
  {
    InBounds(b, r, c) && !b.cells[r][c].visited && !b.cells[r][c].flagged && !b.cells[r][c].bomb
  }

  /** Openable on b and not yet collected by the flood in progress. */
  predicate Unopened(b: Board, seen: set<(int, int)>, r: int, c: int)
    requires Shaped(b)
  {
    Openable(b, r, c) && (r, c) !in seen
  }

  /** A numbered cell bounds the flood instead of extending it. */
  predicate IsNumber(x: Cell) {
    x.neighbors > 0
  }

  /** o' extends seen by openable squares only. */
  ghost predicate Grows(b: Board, seen: set<(int, int)>, o': set<(int, int)>)
    requires Shaped(b)
  {
    seen <= o' && forall p | p in o' && p !in seen :: Openable(b, p.0, p.1)
  }

  lemma GrowsTrans(b: Board, o0: set<(int, int)>, o1: set<(int, int)>, o2: set<(int, int)>)
    requires Shaped(b) && Grows(b, o0, o1) && Grows(b, o1, o2)
    ensures Grows(b, o0, o2)
  {
  }

  /** One call of the flood from (r, c), with seen the squares it
      has revealed so far: stop outside the board and on revealed, flagged or
      bomb cells; otherwise reveal the cell, and when it is not a number
      continue from all eight neighbours. */
  function Spread(b: Board, seen: set<(int, int)>, r: int, c: int): (o': set<(int, int)>)
    requires Shaped(b)
    ensures Grows(b, seen, o')
    ensures Openable(b, r, c) ==> (r, c) in o'
    ensures !Unopened(b, seen, r, c) ==> o' == seen
    decreases Hidden(b) - seen, 0, 0
  {
    if !InBounds(b, r, c) then seen
    else
      var cell := b.cells[r][c];
      if cell.visited || (r, c) in seen || cell.flagged || cell.bomb then seen
      else
        assert (r, c) in Hidden(b) - seen;
        var o1 := seen + {(r, c)};
        if IsNumber(cell) then o1
        else
          var o2 := SpreadNeighbours(b, o1, r, c, 0);
          GrowsTrans(b, seen, o1, o2);
          o2
  }

  /** Continue the flood from the neighbours Offsets[k..] of (r, c). */
  function SpreadNeighbours(b: Board, seen: set<(int, int)>, r: int, c: int, k: nat): (o': set<(int, int)>)
    requires Shaped(b) && k <= |Offsets|
    ensures Grows(b, seen, o')
    decreases Hidden(b) - seen, 1, |Offsets| - k
  {
    if k == |Offsets| then seen
    else
      var o1 := Spread(b, seen, r + Offsets[k].0, c + Offsets[k].1);
      var o2 := SpreadNeighbours(b, o1, r, c, k + 1);
      GrowsTrans(b, seen, o1, o2);
      o2
  }

  /** b with every square of s revealed. */
  function RevealAll(b: Board, s: set<(int, int)>): (b': Board)
    requires Shaped(b)
    ensures Shaped(b') && b'.size == b.size
    ensures b'.rewards == b.rewards && b'.state == b.state && b'.ended == b.ended
    ensures forall i, j | InBounds(b, i, j) ::
              b'.cells[i][j] == b.cells[i][j].(visited := b.cells[i][j].visited || (i, j) in s)
  {
    var rows := seq(b.size, i requires 0 <= i < b.size =>
                  seq(b.size, j requires 0 <= j < b.size =>
                    b.cells[i][j].(visited := b.cells[i][j].visited || (i, j) in s)));
    b.(cells := rows)
  }

  /** y is x, possibly revealed; a cell only gets revealed when it is
      neither a bomb nor flagged. */
  ghost predicate CellRevealed(x: Cell, y: Cell) {
    && y.row == x.row && y.column == x.column && y.bomb == x.bomb && y.flagged == x.flagged
    && y.neighbors == x.neighbors && y.reward == x.reward
    && (x.visited ==> y.visited)
    && (y.visited && !x.visited ==> !x.bomb && !x.flagged)
  }

  /** b' is b with some further safe, unflagged cells revealed and nothing
      else changed. */
  ghost predicate OnlyRevealed(b: Board, b': Board)
    requires Shaped(b)
  {
    && Shaped(b') && b'.size == b.size
    && b'.rewards == b.rewards && b'.state == b.state && b'.ended == b.ended
    && (forall i, j | InBounds(b, i, j) :: CellRevealed(b.cells[i][j], b'.cells[i][j]))
  }

  /** (i, j) was revealed on the way from b to b'. */
  ghost predicate Opened(b: Board, b': Board, i: int, j: int)
    requires Shaped(b) && Shaped(b') && b'.size == b.size
  {
    InBounds(b, i, j) && !b.cells[i][j].visited && b'.cells[i][j].visited
  }

  /** The flood from (r, c) on b: it reveals only safe, unflagged cells,
      reveals (r, c) when that is openable and changes nothing otherwise. */
  function FloodFill(b: Board, r: int, c: int): (b': Board)
    requires Shaped(b)
    ensures OnlyRevealed(b, b')
    ensures Openable(b, r, c) ==> b'.cells[r][c].visited
    ensures !Openable(b, r, c) ==> forall i, j | InBounds(b, i, j) :: b'.cells[i][j] == b.cells[i][j]
    ensures forall i, j :: Opened(b, b', i, j) <==> (i, j) in Spread(b, {}, r, c)
  {
    RevealAll(b, Spread(b, {}, r, c))
  }
}

/** What the flood reaches: exactly the squares joined to the start by a trail
    of openable cells whose every step but the last leaves a zero cell. */
module FloodReach {
  import opened Cells
  import opened Boards
  import opened Flood

  /** A trail the flood can travel on b. */
  ghost predicate IsTrail(b: Board, path: seq<(int, int)>)
    requires Shaped(b)
  {
    && |path| > 0
    && (forall k | 0 <= k < |path| :: Openable(b, path[k].0, path[k].1))
    && (forall k | 0 <= k < |path| - 1 ::
          !IsNumber(b.cells[path[k].0][path[k].1])
          && Adjacent(path[k].0, path[k].1, path[k + 1].0, path[k + 1].1))
  }

  /** path is a trail from (r, c) to (i, j). */
  ghost predicate Joins(b: Board, path: seq<(int, int)>, r: int, c: int, i: int, j: int)
    requires Shaped(b)
  {
    IsTrail(b, path) && path[0] == (r, c) && path[|path| - 1] == (i, j)
  }

  /** (i, j) lies at the end of a trail that starts at (r, c). */
  ghost predicate Reaches(b: Board, r: int, c: int, i: int, j: int)
    requires Shaped(b)
  {
    exists path :: Joins(b, path, r, c, i, j)
  }

  /** Every zero square collected between seen and o' has no unopened
      neighbour left. */
  ghost predicate ZeroClosed(b: Board, seen: set<(int, int)>, o': set<(int, int)>)
    requires Shaped(b)
  {
    forall i, j, i2, j2 |
        (i, j) in o' && (i, j) !in seen && InBounds(b, i, j) && !IsNumber(b.cells[i][j])
        && Adjacent(i, j, i2, j2) ::
      !Unopened(b, o', i2, j2)
  }

  lemma ZeroClosedTrans(b: Board, o0: set<(int, int)>, o1: set<(int, int)>, o2: set<(int, int)>)
    requires Shaped(b) && o0 <= o1 <= o2
    requires ZeroClosed(b, o0, o1) && ZeroClosed(b, o1, o2)
    ensures ZeroClosed(b, o0, o2)
  {
    forall i, j, i2, j2 |
        (i, j) in o2 && (i, j) !in o0 && InBounds(b, i, j) && !IsNumber(b.cells[i][j])
        && Adjacent(i, j, i2, j2)
      ensures !Unopened(b, o2, i2, j2)
    {
      if (i, j) in o1 {
        assert !Unopened(b, o1, i2, j2);
      }
    }
  }

  /** The flood from (r, c) leaves no collected zero cell with an unopened neighbour. */
  lemma {:induction false} SpreadClosed(b: Board, seen: set<(int, int)>, r: int, c: int)
    requires Shaped(b)
    ensures ZeroClosed(b, seen, Spread(b, seen, r, c))
    decreases Hidden(b) - seen, 0, 0
  {
    if Unopened(b, seen, r, c) {
      assert (r, c) in Hidden(b) - seen;
      var o1 := seen + {(r, c)};
      if !IsNumber(b.cells[r][c]) {
        var o2 := SpreadNeighbours(b, o1, r, c, 0);
        assert Spread(b, seen, r, c) == o2;
        SpreadNeighboursClosed(b, o1, r, c, 0);
        SpreadNeighboursSettle(b, o1, r, c, 0);
        ZeroClosedFromStart(b, seen, o2, r, c);
      }
    }
  }

  /** Collecting the zero cell (r, c) and then settling all its neighbours
      keeps the collected zero cells closed. */
  lemma ZeroClosedFromStart(b: Board, seen: set<(int, int)>, o': set<(int, int)>, r: int, c: int)
    requires Shaped(b) && Unopened(b, seen, r, c)
    requires ZeroClosed(b, seen + {(r, c)}, o')
    requires forall k | 0 <= k < |Offsets| :: !Unopened(b, o', r + Offsets[k].0, c + Offsets[k].1)
    ensures ZeroClosed(b, seen, o')
  {
    forall i, j, i2, j2 |
        (i, j) in o' && (i, j) !in seen && InBounds(b, i, j) && !IsNumber(b.cells[i][j])
        && Adjacent(i, j, i2, j2)
      ensures !Unopened(b, o', i2, j2)
    {
      if (i, j) == (r, c) {
        var k := AdjacentIsOffset(r, c, i2, j2);
      }
    }
  }

  /** Continuing the flood from Offsets[k..] keeps collected zero cells closed. */
  lemma {:induction false} SpreadNeighboursClosed(b: Board, seen: set<(int, int)>, r: int, c: int, k: nat)
    requires Shaped(b) && k <= |Offsets|
    ensures ZeroClosed(b, seen, SpreadNeighbours(b, seen, r, c, k))
    decreases Hidden(b) - seen, 1, |Offsets| - k
  {
    if k < |Offsets| {
      var o1 := Spread(b, seen, r + Offsets[k].0, c + Offsets[k].1);
      var o2 := SpreadNeighbours(b, o1, r, c, k + 1);
      assert SpreadNeighbours(b, seen, r, c, k) == o2;
      SpreadClosed(b, seen, r + Offsets[k].0, c + Offsets[k].1);
      SpreadNeighboursClosed(b, o1, r, c, k + 1);
      ZeroClosedTrans(b, seen, o1, o2);
    }
  }

  /** Continuing the flood from Offsets[k..] leaves none of those neighbours unopened. */
  lemma {:induction false} SpreadNeighboursSettle(b: Board, seen: set<(int, int)>, r: int, c: int, k: nat)
    requires Shaped(b) && k <= |Offsets|
    ensures forall k' | k <= k' < |Offsets| ::
              !Unopened(b, SpreadNeighbours(b, seen, r, c, k), r + Offsets[k'].0, c + Offsets[k'].1)
    decreases |Offsets| - k
  {
    if k < |Offsets| {
      var o1 := Spread(b, seen, r + Offsets[k].0, c + Offsets[k].1);
      var o2 := SpreadNeighbours(b, o1, r, c, k + 1);
      assert SpreadNeighbours(b, seen, r, c, k) == o2;
      SpreadNeighboursSettle(b, o1, r, c, k + 1);
      assert !Unopened(b, o2, r + Offsets[k].0, c + Offsets[k].1);
    }
  }

  /** A zero cell in front of a trail that starts next to it extends the trail. */
  lemma TrailPrepend(b: Board, r: int, c: int, path: seq<(int, int)>)
    requires Shaped(b) && IsTrail(b, path)
    requires Openable(b, r, c) && !IsNumber(b.cells[r][c]) && Adjacent(r, c, path[0].0, path[0].1)
    ensures IsTrail(b, [(r, c)] + path)
  {
    var p := [(r, c)] + path;
    forall k | 0 <= k < |p| ensures Openable(b, p[k].0, p[k].1) {
      if k > 0 { assert p[k] == path[k - 1]; }
    }
  }

  /** A trail from a neighbour of the zero cell (r, c) extends to a trail
      from (r, c). */
  lemma TrailThroughNeighbour(b: Board, r: int, c: int, k: int, path: seq<(int, int)>, i: int, j: int)
      returns (p: seq<(int, int)>)
    requires Shaped(b) && Openable(b, r, c) && !IsNumber(b.cells[r][c]) && 0 <= k < |Offsets|
    requires Joins(b, path, r + Offsets[k].0, c + Offsets[k].1, i, j)
    ensures Joins(b, p, r, c, i, j)
  {
    OffsetsAreAdjacent(r, c, k);
    TrailPrepend(b, r, c, path);
    p := [(r, c)] + path;
    assert p[|p| - 1] == (i, j);
  }

  /** Every square the flood from (r, c) collects is joined to (r, c) by a trail. */
  lemma {:induction false} SpreadSound(b: Board, seen: set<(int, int)>, r: int, c: int, i: int, j: int)
      returns (path: seq<(int, int)>)
    requires Shaped(b) && (i, j) in Spread(b, seen, r, c) && (i, j) !in seen
    ensures Joins(b, path, r, c, i, j)
    decreases Hidden(b) - seen, 0, 0
  {
    assert (r, c) in Hidden(b) - seen;
    var o1 := seen + {(r, c)};
    if (i, j) == (r, c) {
      path := [(r, c)];
    } else {
      assert !IsNumber(b.cells[r][c]) && Spread(b, seen, r, c) == SpreadNeighbours(b, o1, r, c, 0);
      path := SpreadNeighboursSound(b, o1, r, c, 0, i, j);
    }
  }

  /** Every square collected while flooding from the neighbours Offsets[k..]
      of the zero cell (r, c) is joined to (r, c) by a trail. */
  lemma {:induction false} SpreadNeighboursSound(b: Board, seen: set<(int, int)>, r: int, c: int, k: nat, i: int, j: int)
      returns (path: seq<(int, int)>)
    requires Shaped(b) && k <= |Offsets| && Openable(b, r, c) && !IsNumber(b.cells[r][c])
    requires (i, j) in SpreadNeighbours(b, seen, r, c, k) && (i, j) !in seen
    ensures Joins(b, path, r, c, i, j)
    decreases Hidden(b) - seen, 1, |Offsets| - k
  {
    var o1 := Spread(b, seen, r + Offsets[k].0, c + Offsets[k].1);
    var o2 := SpreadNeighbours(b, o1, r, c, k + 1);
    assert SpreadNeighbours(b, seen, r, c, k) == o2;
    if (i, j) in o1 {
      var q := SpreadSound(b, seen, r + Offsets[k].0, c + Offsets[k].1, i, j);
      path := TrailThroughNeighbour(b, r, c, k, q, i, j);
    } else {
      path := SpreadNeighboursSound(b, o1, r, c, k + 1, i, j);
    }
  }

  /** Along a trail whose start was collected, every square was collected. */
  lemma {:induction false} TrailCollected(b: Board, o': set<(int, int)>, path: seq<(int, int)>, n: nat)
    requires Shaped(b) && ZeroClosed(b, {}, o')
    requires IsTrail(b, path) && path[0] in o' && n < |path|
    ensures path[n] in o'
  {
    if n > 0 {
      TrailCollected(b, o', path, n - 1);
      assert Openable(b, path[n - 1].0, path[n - 1].1);
      assert !Unopened(b, o', path[n].0, path[n].1);
    }
  }

  /** From an openable cell the flood collects exactly the squares reachable from it. */
  lemma SpreadExact(b: Board, r: int, c: int)
    requires Shaped(b) && Openable(b, r, c)
    ensures forall i, j :: (i, j) in Spread(b, {}, r, c) <==> Reaches(b, r, c, i, j)
  {
    var o' := Spread(b, {}, r, c);
    forall i, j | (i, j) in o' ensures Reaches(b, r, c, i, j) {
      var path := SpreadSound(b, {}, r, c, i, j);
    }
    SpreadClosed(b, {}, r, c);
    forall i, j | Reaches(b, r, c, i, j) ensures (i, j) in o' {
      var path :| Joins(b, path, r, c, i, j);
      TrailCollected(b, o', path, |path| - 1);
    }
  }

  /** The flood from an openable cell reveals exactly the squares reachable from it. */
  lemma FloodFillExact(b: Board, r: int, c: int)
    requires Shaped(b) && Openable(b, r, c)
    ensures forall i, j :: Opened(b, FloodFill(b, r, c), i, j) <==> Reaches(b, r, c, i, j)
  {
    SpreadExact(b, r, c);
  }
}
