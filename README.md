# Battleship core in Dafny

This project models the engine of a two-player Battleship game:

- the fleet configuration a `Game` accepts,
- the `BoardImpl` each player's ships sit on,
- the three computer players' strategies: `AwfulPlayer`, `MediocrePlayer` and `GoodPlayer`.

The model follows the C++ code. Where a detail of the code differs from what the source's
comments describe, the model keeps the code's behaviour (see "Quirks kept as written" below).

Modules, one per file:

- `Fleet` (`fleet.dfy`): points, directions, the fleet (`ShipSpec`) and the `Game` class.
  - `Game.AddShip` runs `Game::addShip`'s six checks in the source's order.
  - `VerdictOf` names the first check that fails, and accepts exactly the ships that pass all of them.
  - The accessors return what `addShip` stored, and in a valid game every length and symbol is one `addShip` accepts.
  - Accepting a ship keeps the fleet invariant `FleetOk`: distinct symbols, lengths that fit and a total length no larger than the grid.
- `BoardEngine` (`board.dfy`): the `Board` class, with a `rows x cols` character grid (`array2<char>`) and the ship records (`seq<ShipRecord>`).
  - Each method is proved against a function on the value `BoardState`: `PlaceSpec`, `UnplaceSpec` and `AttackSpec`.
- `BoardProperties` (`board_properties.dfy`) proves what those functions mean:
  - what a placement or removal paints and appends,
  - every refusal,
  - the place/unplace round trip,
  - an attacked cell rejecting a second shot,
  - the effect of a hit and of a miss,
  - `unblock`.
- `Placement` (`placement.dfy`): the backtracking placement shared by `MediocrePlayer` and `GoodPlayer`.
  - `recursive` and `placeShips` are identical in both players.
  - `placeShips` makes 50 rounds of block, search and unblock.
  - `Search` spells out the row-major backtracking of `recursive`, and `Recursive` is proved to end in `Search`'s state.
  - The search succeeds exactly when the remaining ships can be placed one after the other at all (`Extendable`), so a false result means no placement exists.
  - After a successful search every placed ship shows its symbol on a run of the grid (`ShipShown`). The final `unblock` keeps every ship on the grid except one whose symbol is `-` (see "## Findings").
- `Awful` (`awful.dfy`): `AwfulPlayer`.
  - It stacks its ships in column 0.
  - Its attack cursor walks the grid backwards in row-major order.
  - The first `rows*cols` calls return every cell of the grid exactly once, and then the cursor is back where it started (`Awful.CursorPeriodic`).
- `Mediocre` (`mediocre.dfy`): `MediocrePlayer`.
  - It shoots randomly until a hit.
  - Then it shoots the unattacked cells of the cross of radius 4 around that hit.
  - `crossPoints` starts as the number of those cells plus one when the centre is unattacked, because the counting loop meets the centre on both arms (`Mediocre.CrossCountCells`).
  - Each shot on the cross lowers `crossPoints` by one.
- `Good` (`good.dfy`): `GoodPlayer` and its belief grid (`m_board`).
  - Its three states are scan (1), search for the direction around a hit (2) and follow the ship's line (3).
  - `RecordSpec` and `RecommendSpec` give the player's memory after each call.
  - The methods of the class are proved to match them.
  - The lemmas prove what each shot aims at and that the player's invariant `MemoryOk` holds.

Randomness (`randInt`) is not part of the model. `MediocrePlayer` picks any cell that the source's loop could pick and then stop on (`:|`). `GoodPlayer.RecommendAttack` takes its draws as parameters:
- `draws` are the draws of the top-half scan;
- `wholeDraw` is the draw that ends the whole-board scan;
- `anyDraw` is the fallback draw.

`Board.Block` marks an empty cell chosen by the method itself.

Quirks kept as written:

- `attack` and `allShipsDestroyed` compare a record's hit count with `shipLength` of the record's position in the list, not of its id. `BoardProperties.InIdOrderPositionIsId` proves the two agree when the records are in id order. `Placement.SearchFromEmptyIsInIdOrder` proves the placement search leaves them in that order.
- In `GoodPlayer::recommendAttack`, the state-2 downward probe checks the validity of `(end2.r+i, end1.c)` but shoots `(end2.r+i, end2.c)`. `Good.ProbeOkIsOpen` proves that the combined test equals "the shot cell is on the grid and unknown", so the quirk never lets an invalid cell through.
- `placeShip` refuses only `shipId > nShips`, so the id `nShips` itself passes that test and then reaches `shipLength`, whose assert it fails. The model keeps the `>` test in `PlaceSpec`; `PlaceLookupSafe` is the requires that stands for the assert.
- When the top-half scan draws 50 times, `GoodPlayer` returns the 50th draw without looking at it and sets `numMoves` to 14.

## Model

| member | source | states |
|---|---|---|
| Fleet.GameConfig.ShipLength | Game.cpp:320-324 | in a valid game a ship's length is at least 1 and fits in a row or a column |
| Fleet.GameConfig.ShipSymbol | Game.cpp:326-330 | in a valid game a ship's symbol is printable and is none of `X`, `.`, `o` |
| Fleet.AddedShipReadsBack | Game.cpp:73-101 | after `addShip` stores a ship, the new id's length, symbol and name are the ones given, and every earlier id keeps its own |
| Fleet.ValidIsIndexInGrid | Game.cpp:62-66 | a point is valid exactly when its column is in range and its row-major index `r*cols+c` lies in `0..rows*cols-1` |
| Fleet.VerdictOf | Game.cpp:273-311 | the verdict is Accepted exactly when the length is 1 or more and fits a row or a column, the symbol is printable, unreserved and unused, and the total length stays within `rows*cols`; a duplicate-symbol verdict means the symbol is in use, a board-too-small verdict means the total would exceed the grid |
| Fleet.CheckShip | Game.cpp:273-311 | the verdict is the first of `addShip`'s checks that fails: length below 1, too long for both dimensions, unprintable symbol, symbol `X`/`.`/`o`, symbol already used, total length over `rows*cols`; otherwise accepted |
| Fleet.AcceptedKeepsFleetOk | Game.cpp:271-313 | adding an accepted ship to a valid fleet keeps it valid: all lengths fit, all symbols printable, unreserved and distinct, total length at most `rows*cols` |
| Fleet.Game.constructor | Game.cpp:231-244 | a game of `nRows x nCols` (each between 1 and the maximum) starts with an empty, valid fleet |
| Fleet.Game.AddShip | Game.cpp:271-313 | the ship is appended exactly when every check passes; otherwise the fleet is unchanged; the fleet stays valid either way |
| BoardEngine.LastIndexOf | Board.cpp:157-167 | `unplaceShip`'s search finds the last record with the id: that record has the id and none after it does |
| BoardEngine.MatchFrom | Board.cpp:263-273 | `attack`'s lookup gives the first record whose fleet symbol is the hit character, or 100 when there is none |
| BoardEngine.DistinctIdsBounded | Board.cpp:85-148 | records with distinct ids below `nShips` number at most `nShips`, so a record position is always a valid id for `shipLength` |
| BoardEngine.Board.constructor | Board.cpp:36-40 | a new board is all `.` with no ship records |
| BoardEngine.Board.Clear | Board.cpp:42-51 | every cell becomes `.`; the records are untouched |
| BoardEngine.Board.Block | Board.cpp:54-67 | exactly `rows*cols/2` cells change, each of them was empty and is now `-` |
| BoardEngine.Board.BlockOne | Board.cpp:58-65 | one more empty cell, not blocked before, becomes `-`; every other cell keeps its value |
| BoardEngine.Board.Unblock | Board.cpp:71-83 | every `-` becomes `.`, every other cell and the records are unchanged |
| BoardEngine.Board.RunHolds | Board.cpp:117-123 | true exactly when every cell of the run from the anchor holds the given character |
| BoardEngine.Board.PaintRun | Board.cpp:124-127 | the run's cells take the character and every other cell keeps its value |
| BoardEngine.Board.HasRecord | Board.cpp:95-101 | true exactly when some record carries the id |
| BoardEngine.Board.FindRecord | Board.cpp:155-167 | finds whether the id has a record and, if so, the position of its last record |
| BoardEngine.Board.PlaceShip | Board.cpp:85-148 | the board state after the call is `PlaceSpec`'s: refused with nothing changed for a too-large id, an invalid anchor, an id already placed, a run off the grid or over a non-`.` cell; otherwise the run painted with the symbol and a record with no hits appended |
| BoardEngine.Board.UnplaceShip | Board.cpp:151-215 | the board state after the call is `UnplaceSpec`'s: refused with nothing changed for an invalid anchor, an unplaced id, a run off the grid or one not entirely the ship's symbol; otherwise the run cleared to `.` and the id's last record erased |
| BoardEngine.Board.Attack | Board.cpp:252-289 | the report and new state are `AttackSpec`'s: rejected for an invalid or already attacked cell; on a ship cell the cell becomes `X`, the first matching record gains a hit, and sinking is reported with that record's id; on `.` the cell becomes `o` |
| BoardEngine.Board.AllShipsDestroyed | Board.cpp:291-301 | true exactly when every record's hit count equals `shipLength` of its position |
| BoardEngine.EmptyCellsHas | Board.cpp:54-67 | a cell is in `EmptyCells` exactly when it is on the grid and holds `.` |
| BoardEngine.ChangedIsMarked | Board.cpp:54-67 | the cells that differ between two grids are exactly the marked ones when only those were rewritten, each to a new value |
| BoardEngine.AppendKeepsRecordsOk | Board.cpp:146 | appending a fresh-id record with the id's symbol and no hits keeps the records consistent |
| BoardEngine.EraseKeepsRecordsOk | Board.cpp:191 | erasing a record keeps the records consistent |
| BoardProperties.RunSetHas | Board.cpp:110-127 | a cell is in the run's set exactly when it lies on the run |
| BoardProperties.RunSetSize | Board.cpp:110-127 | a run of length `len` covers `len` distinct cells |
| BoardProperties.PaintChangesRun | Board.cpp:124-127 | painting a run that held another character changes exactly the run's cells |
| BoardProperties.PlaceEffect | Board.cpp:85-148 | an accepted placement changes exactly `shipLength` cells, all on the run, each from `.` to the ship's symbol, and appends one record `(symbol, 0, id)` |
| BoardProperties.PlaceRefusals | Board.cpp:87-123 | each of `placeShip`'s refusal conditions leaves the board unchanged and returns false |
| BoardProperties.EraseShifts | Board.cpp:191 | erasing position `x` keeps the records before it and shifts the ones after it down by one |
| BoardProperties.EraseLastOf | Board.cpp:157-191 | erasing the id's last record removes one record, leaves no record with that id (ids are distinct) and keeps every other record |
| BoardProperties.UnplaceEffect | Board.cpp:151-215 | an accepted removal turns exactly the run from the ship's symbol back to `.`, and removes the id's record while keeping every other record |
| BoardProperties.PlaceUnplaceRoundTrip | Board.cpp:85-215 | removing a ship just placed, at the same anchor and direction, succeeds and restores the board exactly |
| BoardProperties.AttackTwiceRejected | Board.cpp:256-259 | a second attack on the same cell is rejected and changes nothing |
| BoardProperties.AttackHitEffect | Board.cpp:261-282 | a shot on a ship cell is accepted as a hit, changes only that cell to `X`, adds one hit to the first record with that symbol and nothing else, and reports sinking exactly when that record's hits reach the `shipLength` of the record's position in the list |
| BoardProperties.AttackMissEffect | Board.cpp:284-288 | a shot on `.` is an accepted miss that changes only that cell, to `o`, and no record |
| BoardProperties.InIdOrderPositionIsId | Board.cpp:291-301 | when record `i` has id `i`, the position-based sink test is the id-based one |
| BoardProperties.UnblockIdempotent | Board.cpp:71-83 | unblocking twice is unblocking once, and leaves no `-` |
| BoardProperties.UnblockChangesBlocked | Board.cpp:71-83 | unblocking changes exactly the cells that held `-` |
| Placement.AppendedStep | Player.cpp:242-276 | placing ship `id` and then ships `id+1..` in order is placing ships `id..` in order |
| Placement.PlaceKeepsOccupied | Board.cpp:85-148 | a placement never overwrites a cell that was not `.` |
| Placement.UnblockUndoesBlock | Board.cpp:54-83 | unblocking after a block restores the board it started from |
| Placement.RoundKeepsOccupied | Player.cpp:224-239 | a block, a search that only fills `.` cells and an unblock never lose an occupied cell |
| Placement.Search | Player.cpp:242-276 | the backtracking search's outcome: success at once when no ship is left; a failure leaves the board unchanged |
| Placement.SearchFrom | Player.cpp:249-275 | the search over the anchors from `(r,c)` on in row-major order; a failure leaves the board unchanged |
| Placement.AnchorSpec | Player.cpp:253-272 | one anchor, HORIZONTAL first and VERTICAL only when it fails; a failure leaves the board unchanged |
| Placement.Attempt | Player.cpp:253-263 | one candidate: place, search on for the next ship, and take the ship off again when either fails, so a failure leaves the board unchanged |
| Placement.SearchFromCell | Player.cpp:251-273 | the search at an anchor succeeds exactly when that anchor does or the search from the next anchor does |
| Placement.ScanFromFinds | Player.cpp:249-274 | a row-major scan from `(r,c)` finds exactly the cells at or after `(r,c)` that pass its test |
| Placement.SearchFromIsScan | Player.cpp:249-275 | the search from `(r,c)` succeeds exactly when the row-major scan for an anchor that succeeds does |
| Placement.SearchFromFinds | Player.cpp:249-275 | the search over the grid succeeds exactly when some anchor of the grid succeeds |
| Placement.AnchorSpecOk | Player.cpp:253-272 | an anchor succeeds exactly when one of its two directions does |
| Placement.AttemptIsExtendsAt | Player.cpp:253-263 | a candidate succeeds exactly when `placeShip` accepts it and the later ships can still be added |
| Placement.SearchOkIsExtendable | Player.cpp:242-276 | a successful search means the remaining ships can be added one after the other |
| Placement.ExtendableSearchOk | Player.cpp:242-276 | when the remaining ships can be added at all, the search succeeds |
| Placement.SearchIsExtendable | Player.cpp:242-276 | the search succeeds exactly when the remaining ships can be added one after the other at anchors `placeShip` accepts, so `false` means no placement exists |
| Placement.PlacedCandidate | Player.cpp:253-262 | after an accepted placement the board is consistent, the candidate's outcome is the search for the next ship, `unplaceShip` restores the board, and no occupied cell was overwritten |
| Placement.PlacedShipStays | Player.cpp:253-258 | once a ship is placed, every later board that keeps the occupied cells shows its symbol on each cell of its run |
| Placement.Recursive | Player.cpp:242-276 | the board afterwards is `Search`'s; true for no ship left, and true exactly when the remaining ships can be placed at all; on success ships `shipId..nShips-1` were appended in id order with no hits, each of them shows its symbol on a run of the grid, and no occupied cell was overwritten |
| Placement.TryCell | Player.cpp:253-272 | one anchor, HORIZONTAL then VERTICAL only if that fails: the board afterwards is `AnchorSpec`'s; on success the ships are appended in order, ships `shipId..` show on the grid and no occupied cell was overwritten |
| Placement.TryAnchor | Player.cpp:253-263 | one direction at one anchor: the board afterwards is `Attempt`'s; true exactly when `placeShip` accepts the ship there and the later ships can still be added; on success the run lies on the grid and shows the ship's symbol, ships `shipId..` show on the grid, the ships are appended in order and no occupied cell was overwritten |
| Placement.ExtendOrUndo | Player.cpp:255-262 | after an accepted placement: recurse, and unplace on failure; the board afterwards is `Attempt`'s, and on success the ship's run still shows its symbol and ships `shipId..` show on the grid |
| Placement.PlaceShips | Player.cpp:224-239 | afterwards no cell is blocked; on failure the board is as before; on success every ship got a record, in id order, earlier content is kept, and every ship whose symbol is not `-` shows its symbol on a run of the grid |
| Placement.BlockedRound | Player.cpp:230-235 | one round of block, search and unblock: no cell is left blocked; a failed round leaves the board as before; a successful one gave every ship a record in id order, kept earlier content, and left every ship whose symbol is not `-` showing on the grid |
| Placement.ShownStep | Player.cpp:253-262 | a run showing ship `id`, together with ships `id+1..` on the grid, puts ships `id..` on the grid |
| Placement.UnblockKeepsShown | Board.cpp:71-83 | `unblock` only rewrites `-` cells, so a ship whose symbol is not `-` stays on the grid |
| Placement.UnblockKeepsFleetShown | Player.cpp:230-233 | after a successful search and `unblock`, every ship whose symbol is not `-` is still on the grid |
| Placement.DashShipErased | Game.cpp:290-295 | `addShip` accepts a length-1 ship with symbol `-` on a 1x1 board; the search places it and gives it a record, and `unblock` then leaves no run showing it |
| Placement.DashShipPlaced | Player.cpp:242-276 | on that board the search places the `-` ship at `(0,0)` with one record |
| Placement.DashShipUnshown | Board.cpp:71-83 | `unblock` turns that ship's one cell back into `.`, so the ship is no longer on the grid |
| Placement.SearchFromEmptyIsInIdOrder | Player.cpp:242-276 | a successful search from no records leaves exactly `nShips` records, record `i` being ship `i` with no hits |
| Awful.PrevCellIsValid | Player.cpp:41-54 | the cursor's next cell is on the grid |
| Awful.PrevCellIndex | Player.cpp:41-54 | the next cell is one row-major position back, wrapping from the first cell to the last |
| Awful.RowMajorBound | Player.cpp:41-54 | a valid cell's row-major position lies in `0..rows*cols-1`, and is 0 only for `(0,0)` |
| Awful.IndexInjective | Player.cpp:41-54 | distinct valid cells have distinct row-major positions |
| Awful.CursorIndex | Player.cpp:41-54 | after `k` calls (`1 <= k <= rows*cols`) the cursor sits at position `rows*cols-k` |
| Awful.CursorNeverRepeats | Player.cpp:41-54 | the first `rows*cols` recommended cells are valid and pairwise distinct |
| Awful.CursorReaches | Player.cpp:41-54 | every cell of the grid is recommended within the first `rows*cols` calls |
| Awful.CursorPeriodic | Player.cpp:41-54 | after `rows*cols` more calls the cursor is back at the same cell |
| Awful.PlaceRows | Player.cpp:32-39 | the board after the column-0 placement stays consistent |
| Awful.PlaceRowsAppends | Player.cpp:32-39 | on success the ships were appended in id order; on failure fewer than all were placed |
| Awful.AwfulPlayer.constructor | Player.cpp:28-30 | the cursor starts at `(0,0)` |
| Awful.AwfulPlayer.PlaceShips | Player.cpp:32-39 | tries ship `k` at `(k,0)` horizontally for each `k` in order, stopping at the first refusal (the ships placed so far stay) |
| Awful.AwfulPlayer.RecommendAttack | Player.cpp:41-54 | the cursor moves one cell back in row-major order, wrapping, and that cell is returned |
| Mediocre.HitsUpToCount | Player.cpp:356-366 | a cell is counted once for each arm of the cross it lies on |
| Mediocre.CrossCountUpToAfterMove | Player.cpp:356-366 | shooting a fresh cell lowers the partial cross count by the number of arms it lies on |
| Mediocre.CrossCountAfterMove | Player.cpp:297-326 | shooting a fresh cell lowers the cross count by the number of arms it lies on (two for the centre, one elsewhere on the cross, zero off it) |
| Mediocre.CrossCountUpToPositive | Player.cpp:356-366 | the partial count is positive exactly when some arm cell so far is valid and not yet shot |
| Mediocre.CrossCountPositive | Player.cpp:356-366 | the cross count is positive exactly when some cross cell is valid and not yet shot |
| Mediocre.ArmCellsHas | Player.cpp:356-366 | a cell is among the fresh cells of the first `n` cells of each arm exactly when it is valid, unshot and on one of those arm segments |
| Mediocre.FreshCross | Player.cpp:356-366 | the set holds exactly the valid, unshot cells of the cross |
| Mediocre.CrossCountUpToCells | Player.cpp:356-366 | after `n` rounds the loop has counted the distinct fresh arm cells met so far, plus the centre a second time once round 4 is past |
| Mediocre.CrossCountCells | Player.cpp:356-366 | the cross count is the number of valid, unshot cross cells plus one when the centre is one of them |
| Mediocre.StateTwoHasCandidate | Player.cpp:297-326 | `crossPoints` above its surplus holds exactly when the cross still has a valid unshot cell, so the state-2 loop can stop |
| Mediocre.MediocrePlayer.constructor | Player.cpp:218-222 | starts in state 1 with no moves and no cross points |
| Mediocre.MediocrePlayer.NewPoint | Player.cpp:329-338 | true exactly when the point was never shot |
| Mediocre.MediocrePlayer.RecommendAttack | Player.cpp:278-327 | the shot is valid and new, and is recorded; in state 2 it lies on the cross and `crossPoints` drops by one; the state and centre stay the same |
| Mediocre.MediocrePlayer.RecordAttackResult | Player.cpp:340-375 | a sinking returns to state 1; a first hit in state 1 becomes the centre and `crossPoints` becomes the cross count; after any unsunk hit the state is 1 exactly when `crossPoints` is 0; a miss changes nothing |
| Good.Put | Player.cpp:702 | one cell takes the value and every other cell keeps its value |
| Good.Sink | Player.cpp:629-664 | the cells of the sunk run become SUNK and every other cell keeps its value |
| Good.RecordKeepsMemoryOk | Player.cpp:612-787 | recording any result keeps the player's invariant (marker values only, state 1..3, both ends on the grid) |
| Good.RecordMiss | Player.cpp:783-786 | a miss writes MISS on the shot cell only; an invalid shot changes nothing |
| Good.RecordSink | Player.cpp:618-699 | a sinking marks the ship's `shipLength` cells from the shot cell SUNK and no other cell, resets both end flags, and returns to state 2 exactly when an odd sinking leaves a hit unsunk, else to state 1 |
| Good.RecordHit | Player.cpp:700-781 | an unsunk hit writes HIT; from state 1 both ends become the shot; from state 2 state 3 follows with the direction the shot reveals, and when both ends sat on one cell in line with the shot, one end moves to the shot while the other stays; in state 3 the state falls back to 2 exactly when both ends are closed |
| Good.LastHitInRowIsLast | Player.cpp:574-584 | the row scan keeps the last HIT cell of the row, or none when the row has none |
| Good.LastHitIsLastUpTo | Player.cpp:572-585 | the scan of rows `0..r-1` keeps the last HIT cell in row-major order |
| Good.LastHitIsLast | Player.cpp:570-585 | the rescan finds the last HIT cell in row-major order, and finds none exactly when no unsunk hit is left |
| Good.TopHalfPickFirst | Player.cpp:490-508 | the scan returns the first unknown cell among the first 49 draws, or gives up with the 50th draw when none of them was unknown |
| Good.ProbeOkIsOpen | Player.cpp:587-605 | each probe test holds exactly when the cell it shoots is on the grid and unknown, the down probe included |
| Good.ProbesAt | Player.cpp:587-605 | the probe list visits radius 1..4 and, per radius, up, left, down, right |
| Good.ProbeAll | Player.cpp:587-605 | one radius of the probe list gives the same result as the source's if-chain of four tests |
| Good.FirstOpenNone | Player.cpp:587-607 | no probe is chosen exactly when no probe cell is on the grid and unknown |
| Good.FirstOpenSome | Player.cpp:587-605 | the chosen probe is on the grid and unknown, and no earlier probe was |
| Good.ScanStepAims | Player.cpp:486-523 | a scan shot is on the grid and unknown unless the top-half scan gave up; only `numMoves` changes, to one more or to 14 |
| Good.ExtendStepAims | Player.cpp:524-566 | following a line shoots an unknown cell just past `end1` or `end2` and stays in state 3; when both are closed it sets both flags and the odd-sinking mark and goes to state 2 |
| Good.HuntStepAims | Player.cpp:568-608 | a direction probe is an unknown cell on the probe list, or the fallback draw with the odd-sinking mark set; after an odd sinking with a hit left, both ends sit on a HIT cell |
| Good.RecommendKeepsMemoryOk | Player.cpp:481-610 | a recommendation keeps the invariant and the belief grid; the shot is on the grid and unknown, except for the top-half give-up and the random fallback |
| Good.SinkKeepsMarkers | Player.cpp:629-664 | marking a run SUNK keeps every cell one of the four markers |
| Good.GoodPlayer.constructor | Player.cpp:410-426 | state 1, no moves, horizontal, `end2Reached` and the odd-sinking mark off, every belief cell unknown |
| Good.GoodPlayer.SetBelief | Player.cpp:702 | writes one belief cell, the others keep their values |
| Good.GoodPlayer.MarkSunk | Player.cpp:629-664 | the sunk run becomes SUNK, the others keep their values |
| Good.GoodPlayer.HasOpenHit | Player.cpp:668-678 | true exactly when some grid cell is still HIT |
| Good.GoodPlayer.RecordAttackResult | Player.cpp:612-787 | the memory afterwards is `RecordSpec` of the memory before; the invariant holds |
| Good.GoodPlayer.SinkShip | Player.cpp:618-699 | the sinking branch of `RecordSpec` |
| Good.GoodPlayer.ResetAfterSinking | Player.cpp:686-697 | both end flags off; state 2 if the odd-sinking mark is still on, else 1 |
| Good.GoodPlayer.SettleOddSinking | Player.cpp:666-684 | the odd-sinking mark stays on only while some cell is still HIT |
| Good.GoodPlayer.MarkSunkRun | Player.cpp:620-664 | the direction is vertical exactly when the shot shares `end1`'s column, and the run marked SUNK starts at the shot and goes toward `end1` |
| Good.GoodPlayer.TrackHit | Player.cpp:703-779 | the unsunk-hit branch of `RecordSpec`, after HIT is written |
| Good.GoodPlayer.FollowLine | Player.cpp:738-779 | the state-3 hit branch of `RecordSpec`, which is `FollowSpec`: the end tests, then `end1` or else `end2` moves to the shot, and both ends closed gives state 2 |
| Good.GoodPlayer.CloseAndMove | Player.cpp:762-778 | end flags raised by the tests; `end1`, or `end2` once `end1` is closed, moves to the shot; both closed means state 2 with the odd-sinking mark |
| Good.GoodPlayer.EndTests | Player.cpp:740-761 | each end is closed exactly when it is at the grid edge or next to a MISS along the direction |
| Good.GoodPlayer.RecommendAttack | Player.cpp:481-610 | the shot and memory afterwards are `RecommendSpec` of the memory before and the draws; the invariant holds |
| Good.GoodPlayer.Scan | Player.cpp:486-523 | the state-1 scan: top half while fewer than 13 scan moves, else the whole-board draw |
| Good.GoodPlayer.TopHalfScan | Player.cpp:490-508 | the top-half loop's shot and whether it gave up |
| Good.GoodPlayer.Extend | Player.cpp:524-566 | the state-3 extension, or both ends closed and a fall to state 2 |
| Good.GoodPlayer.MoveToLastHit | Player.cpp:570-585 | after an odd sinking both ends move to the last HIT cell, if any |
| Good.GoodPlayer.LastHitScan | Player.cpp:572-585 | the last HIT cell in row-major order, or none |
| Good.GoodPlayer.Hunt | Player.cpp:568-608 | the state-2 step: the rescan after an odd sinking, then the probes, then the fallback |
| Good.GoodPlayer.Probe | Player.cpp:587-607 | the first probe that is on the grid and unknown, else the fallback draw with the odd-sinking mark set |
| Good.GoodPlayer.TestProbe | Player.cpp:589-601 | the source's test for probe `k` at radius `i`, including the down probe's column |
| Good.GoodPlayer.ProbeRadii | Player.cpp:587-605 | whether some probe is on the grid and unknown, and the first such |

## Findings

| source | as written | input that shows it | evidently intended | confidence | as-written member | corrected member |
|---|---|---|---|---|---|---|
| Game.cpp:290-295, Board.cpp:71-83, Player.cpp:230-233 | `addShip` reserves only `X`, `.` and `o`, yet `block` uses `-` as its temporary marker and `unblock` turns every `-` back into `.`; a ship whose symbol is `-` is wiped off the board by the `unblock` that ends a successful `placeShips`, while its record stays, so it can never be hit and `allShipsDestroyed` never holds | a 1x1 game with one ship of length 1 and symbol `-`, placed by `placeShips` | every ship placed by `placeShips` shows on the board afterwards | high, not executed | Placement.DashShipErased | Placement.PlaceShips |

## Left out

- `HumanPlayer`, `Board::display`, `waitForEnter`, `Game::play` and its turn loop, `createPlayer` and the `Player`/`Board`/`Game` handle wrappers are input/output or delegation around the modelled core, so they are not modelled.
- `randInt`, `randomPoint` and the distributions they draw from are not modelled.
  - `MediocrePlayer.RecommendAttack` picks a valid new cell with `:|`.
  - `Board.Block` chooses the cells it blocks itself.
  - `GoodPlayer.RecommendAttack` receives its draws as parameters.
- Mediocre.MediocrePlayer.RecommendAttack: requires that a shot the source's draw loop would stop on exists. Without one, the source loops forever.
- Good.GoodPlayer.RecommendAttack: requires that the whole-board draw is an unknown cell and that the top-half draws lie in the top half. This stands for the source's loop finishing.
  - The model does not capture a scan that never terminates on a full grid.
  - For a one-row grid, `randInt(rows/2)` is `randInt(0)`. `globals.h` is not part of this model, so the draw is taken to be any valid row.
- Placement.PlaceShips: promises a ship on the grid after success only when its symbol is not `-`; the source erases a `-` ship, as "## Findings" records, and the model keeps the source's `addShip` and `unblock` as written.
- Placement.PlaceShips: requires that at least half of the grid is empty and unblocked. Otherwise `block` never finishes. In the game, the board is freshly cleared before `placeShips`.
- `recordAttackByOpponent` of every player and `AwfulPlayer::recordAttackResult` do nothing, so they are not modelled.
- Fields the constructors leave uninitialised are constructor parameters in the model: `MediocrePlayer::center`, and `GoodPlayer`'s `end1`, `end2` and `end1Reached`.
- Fleet.Game.constructor: requires the bounds. Out-of-range dimensions make the source print a message and exit the process, which is not modelled.
- `MAXROWS` and `MAXCOLS` are taken as 10, because `globals.h` is not part of this model. `Board` holds exactly `rows x cols` cells rather than a `MAXROWS x MAXCOLS` array. `GoodPlayer`'s belief grid is the full `MAXROWS x MAXCOLS` array. The source zeroes only its `rows x cols` part, and the model's constructor sets every cell to UNKNOWN. The source never reads an off-grid cell, and only the sink loop can write one; the invariant `MemoryOk` relies on every cell holding a marker.
- `int` overflow is not modelled (all values are bounded by the grid size), and `shipName` is carried but never consulted.
- Good.GoodPlayer.RecordAttackResult: requires that a sunk ship's run, written without bounds checks from the shot toward `end1`, stays inside the belief array. The source writes out of bounds otherwise.
- `Game::shipLength` and the other fleet accessors assert a valid id. The model demands that as a precondition, and `BoardEngine.AttackSafe` and `BoardEngine.PlaceLookupSafe` state when `attack` and `placeShip` meet it.
