# Minesweeper rules engine, modelled in Dafny

This project models the rules engine of a console Minesweeper game. That
engine is `BoardService` acting on a square `BoardModel` of `CellModel`s.
The model covers the following:

- setting up a round: clearing the cells, placing the bombs, hiding one
  reward, and counting the bombs around every cell;
- revealing a cell. A zero-count cell starts a recursive flood fill that
  opens the connected zeros and their numbered border;
- the older `VisitCell` entry point;
- toggling a flag;
- spending a reward on a peek;
- deciding whether the game is lost, won or still being played.

## Layout

- `cells.dfy` (`Cells`) holds the cell record and its two constructors.
- `board.dfy` has two modules:
  - `Boards` holds the board record, bounds, one-cell update, adjacency and the fresh-board constructor.
  - `BoardFacts` holds the game predicates and the invariant `Inv` that every operation keeps.
- `counting.dfy` (`Counting`) holds the neighbour count. The loop is proved against the reference set `BombNeighbours`.
- `setup.dfy` (`Setup`) holds the round setup and the reward placement.
- `flood.dfy` has two modules:
  - `Flood` holds the flood fill.
  - `FloodReach` proves that the flood opens exactly the cells reachable from the click through hidden zero cells.
- `service.dfy` (`Service`) holds the player operations and the state decision.
- `invariants.dfy` (`Invariants`) proves that every player operation keeps `Inv`, and that a loss is final.
- `scenarios.dfy` (`Scenarios`) states the repository's unit-test boards as lemmas.

## Modelling choices

- **The board is a value.** The board is an immutable `Board`, and every
  mutating service call is a function that returns the new board. The
  two-dimensional array becomes `seq<seq<Cell>>`, and `Shaped` says that it
  is `size` by `size`. The optional `EndTime` becomes the boolean `ended`.
- **Random choices are parameters.** `SetupBombs` takes the bomb pattern
  as a `layout` grid, one boolean per cell. `TryPlaceSingleReward` takes the
  index `pick` into the row-major list of safe cells. Any pattern the
  random draw could produce can be passed in.
- **The flood is computed as a set of cells.**
  - `Flood.Spread` follows the source's recursion exactly:
    - it checks bounds;
    - it stops on a visited, flagged or bomb cell, or on a cell already opened;
    - it opens the cell;
    - it stops on a number;
    - otherwise it visits the eight offsets in the source's order.
  - It threads the set of opened cells instead of writing into the board.
    `FloodFill` then marks that set visited.
  - This is equivalent to the recursive writes. The flood writes only
    `visited`, and it reads `visited` only to stop at a cell it has already
    opened. That read is exactly the set membership test.
- **Integers are unbounded.** Within the engine no value can overflow 32
  bits: counts stay in 0..9, and `RewardsRemaining` stays in 0..2
  (`BoardFacts.RewardLedger`).

## Where the code departs from the documented behaviour

The model follows the code in each case:

- A `Won` board is not terminal. `DetermineGameState` re-derives the
  state from the cells every time, and the service calls do not consult
  `GameState`. A won board can therefore be clicked again: a hidden bomb
  can still be revealed, and the next evaluation then says `Lost`
  (`Invariants.WonIsNotFinal`). `Lost` is final, because a revealed bomb
  stays revealed (`Invariants.LostIsFinal`).
- Only the clicked cell gives up its reward. `FloodFillOpening` never
  touches `HasSpecialReward`, so a reward cell opened by the flood keeps
  its reward and it is never collected.
- Setup seeds `RewardsRemaining` with 1, and finding the reward cell adds
  another. A round therefore offers up to two peeks, not one
  (`BoardFacts.RewardLedger`).

## Model

| member | source | states |
|---|---|---|
| Cells.DefaultCell | Minesweeper/Minesweeper.Models/CellModel.cs:7-21 | a parameterless cell sits at (-1, -1) and is hidden, unflagged, bomb-free, reward-free and counts 0 |
| Cells.NewCell | Minesweeper/Minesweeper.Models/CellModel.cs:24 | a positioned cell is the default cell moved to the given row and column, and is otherwise pristine |
| Boards.NewBoard | Minesweeper/Minesweeper.Models/BoardModel.cs:28-36 | a new board of size n is n by n, each cell knows its own row and column and is pristine, no rewards are held, and the game is still being played and has not ended |
| BoardFacts.NewBoardInv | Minesweeper/Minesweeper.Models/BoardModel.cs:28-36 | a new board satisfies the game invariant: positions match, flags are on hidden cells only, at most one reward cell, and the reward ledger |
| Counting.CountAround | Minesweeper/Minesweeper.BLL/BoardService.cs:76-86 | the nested offset scan counts exactly the in-bounds bomb neighbours of the cell (the reference set), and that count lies in 0..8 |
| Counting.CountBombsNearby | Minesweeper/Minesweeper.BLL/BoardService.cs:60-89 | only neighbour counts change; bombs get 9, and every other cell gets its number of bomb neighbours, between 0 and 8; the result is a fully counted board |
| Setup.Reset | Minesweeper/Minesweeper.BLL/BoardService.cs:17-33 | every cell keeps its position, is hidden, unflagged, reward-free and counts 0, and holds a bomb exactly when its draw says so; the round is playing, has no end time and holds no rewards |
| Setup.SafeCells | Minesweeper/Minesweeper.BLL/BoardService.cs:44-51 | the collected list holds exactly the in-bounds non-bomb cells, in strictly increasing row-major order (so without repeats) |
| Setup.SafeCellsExist | Minesweeper/Minesweeper.BLL/BoardService.cs:53 | the collected list is empty exactly when every square holds a bomb, so the early return fires only on an all-bomb board |
| Setup.TryPlaceSingleReward | Minesweeper/Minesweeper.BLL/BoardService.cs:42-57 | with no safe cell the board is unchanged; otherwise exactly the picked safe cell gets the reward and the reward count becomes 1; nothing but reward flags changes |
| Setup.PlacedRewardFacts | Minesweeper/Minesweeper.BLL/BoardService.cs:42-57 | on a cleared board the placement leaves at most one reward cell and keeps the reward ledger |
| Setup.SetupMakesFreshRound | Minesweeper/Minesweeper.BLL/BoardService.cs:15-39 | after reset, placement and counting, the round is fresh (bombs follow the layout, nothing revealed or flagged, state playing, not ended), and the invariant holds when positions did |
| Setup.SetupBombs | Minesweeper/Minesweeper.BLL/BoardService.cs:15-39 | setup yields a fresh round whose bombs are the layout, whose counts are correct everywhere, and which satisfies the invariant; when a safe cell exists, the reward sits on the safe cell the draw picked |
| Flood.Spread | Minesweeper/Minesweeper.BLL/BoardService.cs:125-150 | the flood only adds cells that are in bounds, hidden, unflagged and bomb-free; it always includes such a start cell and adds nothing otherwise |
| Flood.FloodFill | Minesweeper/Minesweeper.BLL/BoardService.cs:125-150 | the flood only sets visited flags; it opens an openable start cell, changes nothing from a closed one, and the opened cells are exactly the spread set |
| FloodReach.SpreadExact | Minesweeper/Minesweeper.BLL/BoardService.cs:125-150 | a cell is in the spread set if and only if a trail of openable cells, whose every cell but the last is a zero, joins the start to it |
| FloodReach.FloodFillExact | Minesweeper/Minesweeper.BLL/BoardService.cs:123-150 | the flood opens exactly the cells reachable from the start through hidden zeros, including their numbered border, and stops at numbers, bombs, flags and revealed cells |
| Service.Collect | Minesweeper/Minesweeper.BLL/BoardService.cs:101-105 | picking up a cell's reward clears that cell's reward flag, adds one to the count exactly when the flag was set, and changes no other cell |
| Service.RevealCell | Minesweeper/Minesweeper.BLL/BoardService.cs:91-121 | off-board, visited or flagged clicks change nothing; otherwise the cell is revealed and its reward moved into the count; bombs and numbers reveal only that cell; no other cell loses its state |
| Service.RevealOpensRegion | Minesweeper/Minesweeper.BLL/BoardService.cs:91-150 | clicking a hidden zero opens exactly the cells reachable from it through hidden zeros, the reward collected at the click notwithstanding |
| Service.VisitCell | Minesweeper/Minesweeper.BLL/BoardService.cs:154-171 | the result is true exactly when an accepted click hit a bomb; an accepted click reveals only that cell and collects its reward; otherwise nothing changes |
| Service.VisitAgreesWithReveal | Minesweeper/Minesweeper.BLL/BoardService.cs:91-171 | whenever the flood is not triggered (ignored click, bomb or number), visiting and revealing give the same board |
| Service.ToggleFlag | Minesweeper/Minesweeper.BLL/BoardService.cs:174-182 | on a hidden in-bounds cell the flag is inverted and nothing else changes; off-board or on a revealed cell, nothing changes |
| Service.ToggleFlagTwice | Minesweeper/Minesweeper.BLL/BoardService.cs:174-182 | toggling the same cell twice restores the board |
| Service.UseRewardPeek | Minesweeper/Minesweeper.BLL/BoardService.cs:185-196 | with no reward it refuses; off-board it refuses; either refusal changes nothing; otherwise one reward is spent and the answer says whether the cell is a bomb; the cells never change |
| Service.DetermineGameState | Minesweeper/Minesweeper.BLL/BoardService.cs:199-226 | lost if and only if a bomb is revealed; still playing if and only if none is and some safe cell is hidden; won otherwise; the state is stored, and the end is recorded on a win or a loss |
| Invariants.RevealCellKeepsInv | Minesweeper/Minesweeper.BLL/BoardService.cs:91-150 | revealing keeps positions, flags only on hidden cells, at most one reward cell and the reward ledger |
| Invariants.VisitCellKeepsInv | Minesweeper/Minesweeper.BLL/BoardService.cs:154-171 | visiting keeps the game invariant |
| Invariants.ToggleFlagKeepsInv | Minesweeper/Minesweeper.BLL/BoardService.cs:174-182 | flagging keeps the game invariant (it refuses revealed cells, so flags stay on hidden cells) |
| Invariants.UseRewardPeekKeepsInv | Minesweeper/Minesweeper.BLL/BoardService.cs:185-196 | peeking keeps the game invariant |
| Invariants.LostIsFinal | Minesweeper/Minesweeper.BLL/BoardService.cs:203-211 | once a bomb is revealed, every player operation leaves a bomb revealed, so the game stays lost |
| Invariants.WonIsNotFinal | Minesweeper/Minesweeper.BLL/BoardService.cs:213-225 | a board satisfying the invariant can be in the won condition; the engine does not treat it as terminal |
| Scenarios.CenterBombCounts | Minesweeper/Minesweeper.Tests/UnitTest1.cs:11-29 | a 3 by 3 board with one centre bomb counts 9 at the centre and 1 on each of the eight others |
| Scenarios.FloodStopsAtNumbers | Minesweeper/Minesweeper.Tests/FloodFillTest.cs:10-28 | on a 3 by 3 board with a corner bomb, clicking the far corner opens it, its numbered border and the other border cells, and leaves the bomb hidden |
| Scenarios.NumberRevealsAlone | Minesweeper/Minesweeper.Tests/FloodFillTest.cs:31-47 | on a 2 by 2 board with a corner bomb, clicking a numbered cell reveals only that cell |
| Scenarios.BombClickLoses | Minesweeper/Minesweeper.Tests/FloodFillTest.cs:50-67 | on a 1 by 1 bomb board, clicking reveals the bomb, which is the lost condition of the state decision |

## Left out

- The console front end, `Program.cs`, covers input parsing, rendering and
  the game loop. It is I/O and is not part of this model.
- `IBoardOperations.cs` is not part of this model; it only declares the
  service's signatures. The `GameState` enum's source file is not part of
  this model either; its three values are declared here as `GameState`.
- Random numbers are inputs, not generated. The same goes for the
  floating-point `DifficultyPercentage` comparison, whose outcome is the
  `layout` grid, and for `Random.Next(k)`, whose value is `pick`.
- `StartTime` and `EndTime` are wall-clock values, so only whether the game
  has ended is modelled, as `ended`.
- Service.UseRewardPeek: the messages are modelled as the `PeekOutcome`
  datatype, not as the exact English strings.
- Boards.NewBoard: a negative size, which makes the array allocation throw,
  is excluded by its precondition instead of being modelled as an exception.
- Service.RevealCell: the 32-bit wrap-around of `RewardsRemaining` is not
  modelled. The engine cannot reach it. Only setup places a reward, and it
  first sets the count to 0. Only collecting that one reward cell raises
  the count, so it stays at most 2 (`BoardFacts.RewardLedger`). Only a
  caller writing the public `RewardsRemaining` setter directly could
  overflow it.
- Service.RevealCell: the call-stack depth of the recursive flood is not
  modelled.
