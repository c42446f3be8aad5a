/** Neighbour counting (BoardService.CountBombsNearby). */
module Counting {
  import opened Cells
  import opened Boards

  /** The reference definition: the in-bounds squares around (r, c) that hold a bomb. */
  ghost function BombNeighbours(b: Board, r: int, c: int): set<(int, int)>
    requires Shaped(b)
  {
    set i, j | 0 <= i < b.size && 0 <= j < b.size && Adjacent(r, c, i, j) && b.cells[i][j].bomb :: (i, j)
  }

  /** Those bombs whose offset (i - r, j - c) comes before (dr, dc) in the
      row-major order the scan visits offsets in. */
  ghost function BombsBefore(b: Board, r: int, c: int, dr: int, dc: int): set<(int, int)>
    requires Shaped(b)
  {
    set i, j | 0 <= i < b.size && 0 <= j < b.size && Adjacent(r, c, i, j) && b.cells[i][j].bomb
                && (i - r < dr || (i - r == dr && j - c < dc)) :: (i, j)
  }

  /** Every cell carries the count its bombs give it: 9 on a bomb, else the
      number of bombs around it. */
  ghost predicate Counted(b: Board)
    requires Shaped(b)
  {
    forall i, j | InBounds(b, i, j) ::
      if b.cells[i][j].bomb then b.cells[i][j].neighbors == BombSentinel
      else b.cells[i][j].neighbors == |BombNeighbours(b, i, j)|
  }

  /** Two boards with the same bombs have the same bomb neighbours everywhere. */
  lemma SameBombsSameNeighbours(b: Board, b': Board, r: int, c: int)
    requires Shaped(b) && Shaped(b') && b'.size == b.size
    requires forall i, j | InBounds(b, i, j) :: b'.cells[i][j].bomb == b.cells[i][j].bomb
    ensures BombNeighbours(b', r, c) == BombNeighbours(b, r, c)
  {
  }

  lemma SubsetCardinality<X>(a: set<X>, b: set<X>)
    requires a <= b
    ensures |a| <= |b|
  {
    if a != {} {
      var x :| x in a;
      SubsetCardinality(a - {x}, b - {x});
    }
  }

  /** A square has at most eight neighbours, so at most eight bomb neighbours. */
  lemma AtMostEight(b: Board, r: int, c: int)
    requires Shaped(b)
    ensures |BombNeighbours(b, r, c)| <= 8
  {
    var ring := {(r - 1, c - 1), (r - 1, c), (r - 1, c + 1), (r, c - 1),
                 (r, c + 1), (r + 1, c - 1), (r + 1, c), (r + 1, c + 1)};
    assert |ring| == 8;
    SubsetCardinality(BombNeighbours(b, r, c), ring);
  }

  /** Whether the scan at offset (dr, dc) around (r, c) meets a bomb. */
  predicate HitsBomb(b: Board, r: int, c: int, dr: int, dc: int)
    requires Shaped(b)
  {
    (dr, dc) != (0, 0) && InBounds(b, r + dr, c + dc) && b.cells[r + dr][c + dc].bomb
  }

  /** A step that meets a bomb adds exactly that square to the bombs seen. */
  lemma BombsBeforeHit(b: Board, r: int, c: int, dr: int, dc: int)
    requires Shaped(b) && -1 <= dr <= 1 && -1 <= dc <= 1
    requires HitsBomb(b, r, c, dr, dc)
    ensures BombsBefore(b, r, c, dr, dc + 1) == BombsBefore(b, r, c, dr, dc) + {(r + dr, c + dc)}
  {
    var before, after := BombsBefore(b, r, c, dr, dc), BombsBefore(b, r, c, dr, dc + 1);
    forall p | p in after ensures p in before + {(r + dr, c + dc)} { }
    forall p | p in before + {(r + dr, c + dc)} ensures p in after { }
  }

  /** A step that meets no bomb leaves the bombs seen as they were. */
  lemma BombsBeforeMiss(b: Board, r: int, c: int, dr: int, dc: int)
    requires Shaped(b) && -1 <= dr <= 1 && -1 <= dc <= 1
    requires !HitsBomb(b, r, c, dr, dc)
    ensures BombsBefore(b, r, c, dr, dc + 1) == BombsBefore(b, r, c, dr, dc)
  {
    var before, after := BombsBefore(b, r, c, dr, dc), BombsBefore(b, r, c, dr, dc + 1);
    forall p | p in after ensures p in before { }
  }

  /** One step of the scan adds at most the square at (r + dr, c + dc). */
  lemma BombsBeforeStep(b: Board, r: int, c: int, dr: int, dc: int)
    requires Shaped(b) && -1 <= dr <= 1 && -1 <= dc <= 1
    ensures |BombsBefore(b, r, c, dr, dc + 1)| ==
            |BombsBefore(b, r, c, dr, dc)| + (if HitsBomb(b, r, c, dr, dc) then 1 else 0)
  {
    if HitsBomb(b, r, c, dr, dc) {
      assert (r + dr, c + dc) !in BombsBefore(b, r, c, dr, dc);
      BombsBeforeHit(b, r, c, dr, dc);
    } else {
      BombsBeforeMiss(b, r, c, dr, dc);
    }
  }

  /** Finishing a row of offsets is the same as starting the next one. */
  lemma BombsBeforeRow(b: Board, r: int, c: int, dr: int)
    requires Shaped(b)
    ensures |BombsBefore(b, r, c, dr, 2)| == |BombsBefore(b, r, c, dr + 1, -1)|
  {
    var x, y := BombsBefore(b, r, c, dr, 2), BombsBefore(b, r, c, dr + 1, -1);
    forall p | p in y ensures p in x { }
    assert x == y;
  }

  /** After the last row of offsets the scan has seen every bomb neighbour. */
  lemma BombsBeforeAll(b: Board, r: int, c: int)
    requires Shaped(b)
    ensures |BombsBefore(b, r, c, 2, -1)| == |BombNeighbours(b, r, c)|
  {
    assert BombsBefore(b, r, c, 2, -1) == BombNeighbours(b, r, c);
  }

  /** The inner dc loop of the scan: offsets (dr, -1), (dr, 0), (dr, 1). */
  method ScanRow(b: Board, r: int, c: int, dr: int, count0: int) returns (count: int)
    requires Shaped(b) && -1 <= dr <= 1
    requires count0 == |BombsBefore(b, r, c, dr, -1)|
    ensures count == |BombsBefore(b, r, c, dr + 1, -1)|
  {
    count := count0;
    var dc := -1;
    while dc <= 1
      invariant -1 <= dc <= 2
      invariant count == |BombsBefore(b, r, c, dr, dc)|
    {
      BombsBeforeStep(b, r, c, dr, dc);
      if dr == 0 && dc == 0 {
        // skip the cell itself
      } else {
        var rr, cc := r + dr, c + dc;
        if rr >= 0 && rr < b.size && cc >= 0 && cc < b.size && b.cells[rr][cc].bomb {
          count := count + 1;
        }
      }
      dc := dc + 1;
    }
    BombsBeforeRow(b, r, c, dr);
  }

  /** The nested dr/dc scan around one cell. */
  method CountAround(b: Board, r: int, c: int) returns (count: int)
    requires Shaped(b) && InBounds(b, r, c)
    ensures count == |BombNeighbours(b, r, c)|
    ensures 0 <= count <= 8
  {
    count := 0;
    var dr := -1;
    while dr <= 1
      invariant -1 <= dr <= 2
      invariant count == |BombsBefore(b, r, c, dr, -1)|
    {
      count := ScanRow(b, r, c, dr, count);
      dr := dr + 1;
    }
    BombsBeforeAll(b, r, c);
    AtMostEight(b, r, c);
  }

  /** The counted cell for slot (i, j): only the count changes. */
  ghost predicate CountedCell(b: Board, i: int, j: int, x: Cell)
    requires Shaped(b) && InBounds(b, i, j)
  {
    && x == b.cells[i][j].(neighbors := x.neighbors)
    && (if b.cells[i][j].bomb then x.neighbors == BombSentinel
        else x.neighbors == |BombNeighbours(b, i, j)| && 0 <= x.neighbors <= 8)
  }

  /** Store in every cell its bomb count, 9 on bombs; nothing else changes. */
  method CountBombsNearby(b: Board) returns (b': Board)
    requires Shaped(b)
    ensures Shaped(b') && b'.size == b.size
    ensures b'.rewards == b.rewards && b'.state == b.state && b'.ended == b.ended
    ensures forall i, j | InBounds(b, i, j) :: b'.cells[i][j] == b.cells[i][j].(neighbors := b'.cells[i][j].neighbors)
    ensures forall i, j | InBounds(b, i, j) && b.cells[i][j].bomb :: b'.cells[i][j].neighbors == BombSentinel
    ensures forall i, j | InBounds(b, i, j) && !b.cells[i][j].bomb ::
              b'.cells[i][j].neighbors == |BombNeighbours(b, i, j)| && 0 <= b'.cells[i][j].neighbors <= 8
    ensures Counted(b')
  {
    var rows: seq<seq<Cell>> := [];
    var r := 0;
    while r < b.size
      invariant 0 <= r <= b.size
      invariant |rows| == r
      invariant forall i | 0 <= i < r :: |rows[i]| == b.size
      invariant forall i, j | 0 <= i < r && 0 <= j < b.size :: CountedCell(b, i, j, rows[i][j])
    {
      var row: seq<Cell> := [];
      var c := 0;
      while c < b.size
        invariant 0 <= c <= b.size
        invariant |row| == c
        invariant forall j | 0 <= j < c :: CountedCell(b, r, j, row[j])
      {
        var cell := b.cells[r][c];
        if cell.bomb {
          row := row + [cell.(neighbors := BombSentinel)];
        } else {
          var n := CountAround(b, r, c);
          row := row + [cell.(neighbors := n)];
        }
        c := c + 1;
      }
      rows := rows + [row];
      r := r + 1;
    }
    b' := b.(cells := rows);
    forall i, j | InBounds(b', i, j)
      ensures BombNeighbours(b', i, j) == BombNeighbours(b, i, j)
    {
      SameBombsSameNeighbours(b, b', i, j);
    }
  }
}
