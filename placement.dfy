/** The fleet-placement search shared by MediocrePlayer and GoodPlayer (Player.cpp): a
    backtracking `recursive` that undoes every placement it cannot extend, and a placeShips
    wrapper that runs it under up to 50 random blockings. The two players' copies are identical
    in the source and are modelled once here. */
module Placement {
  import opened Fleet
  import opened BoardEngine
  import opened BoardProperties

  /** after is before followed by one unhit record for each ship from..nShips-1, in id order. */
  ghost predicate AppendedInOrder(game: GameConfig, before: seq<ShipRecord>, after: seq<ShipRecord>, from: int)
    requires 0 <= from <= game.NShips()
  {
    && |after| == |before| + (game.NShips() - from)
    && after[..|before|] == before
    && forall k :: |before| <= k < |after| ==>
         after[k] == ShipRecord(game.ShipSymbol(from + k - |before|), 0, from + k - |before|)
  }

  /** Every cell of a that is not '.' still holds the same marker in b. */
  ghost predicate KeepsOccupied(a: Grid, b: Grid)
  {
    && |a| == |b| && (forall i :: 0 <= i < |a| ==> |a[i]| == |b[i]|)
    && forall i, j :: 0 <= i < |a| && 0 <= j < |a[i]| && a[i][j] != '.' ==> b[i][j] == a[i][j]
  }

  /** Ship id is on the grid: some run inside the board shows its symbol on every cell. */
  ghost predicate ShipShown(game: GameConfig, g: Grid, id: int)
    requires 0 <= id < game.NShips()
  {
    && Shaped(g, game.rows, game.cols)
    && exists r, c, d :: 0 <= r < game.rows && 0 <= c < game.cols
         && RunFits(game, Point(r, c), d, game.ShipLength(id))
         && RunIs(game, g, Point(r, c), d, game.ShipLength(id), game.ShipSymbol(id))
  }

  /** Ships from..nShips-1 are all on the grid. */
  ghost predicate ShownFrom(game: GameConfig, g: Grid, from: int)
  {
    forall id :: from <= id < game.NShips() && 0 <= id ==> ShipShown(game, g, id)
  }

  /** After unblock, every ship of a fully shown fleet is still shown unless its symbol is '-'. */
  lemma UnblockKeepsFleetShown(game: GameConfig, g: Grid)
    requires ShownFrom(game, g, 0)
    ensures forall id :: 0 <= id < game.NShips() && game.ShipSymbol(id) != '-' ==> ShipShown(game, Unblocked(g), id)
  {
    forall id | 0 <= id < game.NShips() && game.ShipSymbol(id) != '-'
      ensures ShipShown(game, Unblocked(g), id)
    {
      UnblockKeepsShown(game, g, id);
    }
  }

  /** A run showing ship id, added to ships id+1.. on the grid, gives ships id.. on the grid. */
  lemma ShownStep(game: GameConfig, g: Grid, id: int, p: Point, dir: Direction)
    requires 0 <= id < game.NShips() && ShownFrom(game, g, id + 1) && Shaped(g, game.rows, game.cols)
    requires game.IsValid(p) && RunFits(game, p, dir, game.ShipLength(id))
    requires RunIs(game, g, p, dir, game.ShipLength(id), game.ShipSymbol(id))
    ensures ShownFrom(game, g, id)
  {
    assert Point(p.r, p.c) == p;
    assert ShipShown(game, g, id);
  }

  /** unblock only rewrites '-' cells, so every ship whose symbol is not '-' stays on the grid. */
  lemma {:induction false} UnblockKeepsShown(game: GameConfig, g: Grid, id: int)
    requires 0 <= id < game.NShips() && ShipShown(game, g, id) && game.ShipSymbol(id) != '-'
    ensures ShipShown(game, Unblocked(g), id)
  {
    var len, sym := game.ShipLength(id), game.ShipSymbol(id);
    var r, c, d :| 0 <= r < game.rows && 0 <= c < game.cols && RunFits(game, Point(r, c), d, len)
      && RunIs(game, g, Point(r, c), d, len, sym);
    forall i | 0 <= i < len
      ensures At(Unblocked(g), RunCell(Point(r, c), d, i)) == sym
    {
      assert At(g, RunCell(Point(r, c), d, i)) == sym;
    }
    assert RunIs(game, Unblocked(g), Point(r, c), d, len, sym);
  }

  /** Placing ship `from` and then ships from+1.. in order is placing ships from.. in order. */
  lemma AppendedStep(game: GameConfig, s0: seq<ShipRecord>, s2: seq<ShipRecord>, from: int)
    requires 0 <= from < game.NShips()
    requires AppendedInOrder(game, s0 + [ShipRecord(game.ShipSymbol(from), 0, from)], s2, from + 1)
    ensures AppendedInOrder(game, s0, s2, from)
  {
    var s1 := s0 + [ShipRecord(game.ShipSymbol(from), 0, from)];
    assert s2[..|s1|][..|s0|] == s2[..|s0|];
    assert s2[|s0|] == s2[..|s1|][|s0|];

  }

  /** A successful placement only writes over '.' cells. */
  lemma PlaceKeepsOccupied(game: GameConfig, s: BoardState, p: Point, id: int, dir: Direction)
    requires StateOk(game, s) && PlaceLookupSafe(game, s.ships, p, id)
    requires PlaceSpec(game, s, p, id, dir).ok
    ensures KeepsOccupied(s.cells, PlaceSpec(game, s, p, id, dir).state.cells)
  {
    PlaceEffect(game, s, p, id, dir);
    var t := PlaceSpec(game, s, p, id, dir).state;
    forall i, j | 0 <= i < |s.cells| && 0 <= j < |s.cells[i]| && s.cells[i][j] != '.'
      ensures t.cells[i][j] == s.cells[i][j]
    {
      assert Point(i, j) !in Changed(s.cells, t.cells);
    }
  }

  /** Keeping the occupied cells is transitive. */
  lemma KeepsOccupiedTrans(a: Grid, b: Grid, c: Grid)
    requires KeepsOccupied(a, b) && KeepsOccupied(b, c)
    ensures KeepsOccupied(a, c)
  {
  }

  /** Once placeShip has put ship id at p, any later board that keeps the occupied cells still
      shows the ship's symbol on every cell of that run. */
  lemma PlacedShipStays(game: GameConfig, s: BoardState, p: Point, id: int, dir: Direction, later: Grid)
    requires StateOk(game, s) && 0 <= id < game.NShips()
    requires PlaceSpec(game, s, p, id, dir).ok
    requires KeepsOccupied(PlaceSpec(game, s, p, id, dir).state.cells, later)
    ensures game.IsValid(p) && RunFits(game, p, dir, game.ShipLength(id)) && Shaped(later, game.rows, game.cols)
    ensures RunIs(game, later, p, dir, game.ShipLength(id), game.ShipSymbol(id))
  {
    var len := game.ShipLength(id);
    var sym := game.ShipSymbol(id);
    var placed := PlaceSpec(game, s, p, id, dir).state.cells;
    assert placed == Paint(s.cells, p, dir, len, sym);
    forall i | 0 <= i < len
      ensures At(later, RunCell(p, dir, i)) == sym
    {
      var q := RunCell(p, dir, i);
      assert InRun(q, p, dir, len);
      assert placed[q.r][q.c] == sym;
    }
  }

  /** Blocking only turned '.' cells into '-'; on a board that had no '-', unblock undoes it. */
  lemma UnblockUndoesBlock(c0: Grid, c1: Grid)
    requires |c0| == |c1| && forall i :: 0 <= i < |c0| ==> |c0[i]| == |c1[i]|
    requires NoBlocked(c0)
    requires Changed(c0, c1) <= EmptyCells(c0)
    requires forall q :: q in Changed(c0, c1) ==> At(c1, q) == '-'
    ensures Unblocked(c1) == c0
  {
    forall i, j | 0 <= i < |c0| && 0 <= j < |c0[i]|
      ensures Unblocked(c1)[i][j] == c0[i][j]
    {
      if c1[i][j] != c0[i][j] {
        assert Point(i, j) in Changed(c0, c1);
        EmptyCellsHas(c0, Point(i, j));
      }
    }
    GridExt(Unblocked(c1), c0);
  }

  /** Blocking, a successful search and unblocking never alter a cell that was neither '.' nor '-'. */
  lemma RoundKeepsOccupied(c0: Grid, c1: Grid, c2: Grid)
    requires |c0| == |c1| && forall i :: 0 <= i < |c0| ==> |c0[i]| == |c1[i]|
    requires NoBlocked(c0)
    requires Changed(c0, c1) <= EmptyCells(c0)
    requires KeepsOccupied(c1, c2)
    ensures KeepsOccupied(c0, Unblocked(c2))
  {
    forall i, j | 0 <= i < |c0| && 0 <= j < |c0[i]| && c0[i][j] != '.'
      ensures Unblocked(c2)[i][j] == c0[i][j]
    {
      if c1[i][j] != c0[i][j] {
        assert Point(i, j) in Changed(c0, c1);
        EmptyCellsHas(c0, Point(i, j));
      }
    }
  }

  /** Ships id..nShips-1 can still be added to s one after the other, each at some anchor and
      direction that placeShip accepts. */
  ghost predicate Extendable(game: GameConfig, s: BoardState, id: int)
    requires StateOk(game, s) && 0 <= id <= game.NShips()
    decreases game.NShips() - id, 1
  {
    || id == game.NShips()
    || exists r, c, d :: 0 <= r < game.rows && 0 <= c < game.cols && ExtendsAt(game, s, id, Point(r, c), d)
  }

  /** placeShip accepts ship id at p in direction dir, and the ships after it can still be added
      to the board that leaves. */
  ghost predicate ExtendsAt(game: GameConfig, s: BoardState, id: int, p: Point, dir: Direction)
    requires StateOk(game, s) && 0 <= id < game.NShips()
    decreases game.NShips() - id, 0
  {
    var placed := PlaceSpec(game, s, p, id, dir);
    placed.ok && Extendable(game, placed.state, id + 1)
  }

  /** What `recursive` leaves behind: success at once when no ship is left, otherwise the outcome
      of the first anchor, from (0, 0) in row-major order, whose placement extends. */
  ghost function Search(game: GameConfig, s: BoardState, id: int): (st: Step)
    requires StateOk(game, s) && 0 <= id <= game.NShips()
    decreases game.NShips() - id, 4
    ensures !st.ok ==> st.state == s
  {
    if id == game.NShips() then Step(true, s) else SearchFrom(game, s, id, 0, 0)
  }

  /** The search over the anchors from (r, c) on, in row-major order. */
  ghost function SearchFrom(game: GameConfig, s: BoardState, id: int, r: int, c: int): (st: Step)
    requires StateOk(game, s) && 0 <= id < game.NShips() && 0 <= r && 0 <= c <= game.cols
    decreases game.NShips() - id, 3, game.rows - r, game.cols - c
    ensures !st.ok ==> st.state == s
  {
    if r >= game.rows then Step(false, s)
    else if c == game.cols then SearchFrom(game, s, id, r + 1, 0)
    else
      var here := AnchorSpec(game, s, id, Point(r, c));
      if here.ok then here else SearchFrom(game, s, id, r, c + 1)
  }

  /** One anchor: HORIZONTAL first, VERTICAL only when HORIZONTAL fails. */
  ghost function AnchorSpec(game: GameConfig, s: BoardState, id: int, p: Point): (st: Step)
    requires StateOk(game, s) && 0 <= id < game.NShips()
    decreases game.NShips() - id, 2
    ensures !st.ok ==> st.state == s
  {
    var h := Attempt(game, s, id, p, Horizontal);
    if h.ok then h else Attempt(game, s, id, p, Vertical)
  }

  /** One candidate: place ship id at p in direction dir and search on for the next ship; when
      either fails, the ship is taken off again and the board is as before. */
  ghost function Attempt(game: GameConfig, s: BoardState, id: int, p: Point, dir: Direction): (st: Step)
    requires StateOk(game, s) && 0 <= id < game.NShips()
    decreases game.NShips() - id, 1
    ensures !st.ok ==> st.state == s
  {
    var placed := PlaceSpec(game, s, p, id, dir);
    if !placed.ok then Step(false, s)
    else
      var sub := Search(game, placed.state, id + 1);
      if sub.ok then sub else Step(false, s)
  }

  /** One step of the search at an anchor inside the grid. */
  lemma SearchFromCell(game: GameConfig, s: BoardState, id: int, r: int, c: int)
    requires StateOk(game, s) && 0 <= id < game.NShips() && 0 <= r < game.rows && 0 <= c < game.cols
    ensures SearchFrom(game, s, id, r, c).ok <==>
      AnchorSpec(game, s, id, Point(r, c)).ok || SearchFrom(game, s, id, r, c + 1).ok
  {
  }

  /** Whether some cell at or after (r, c) in row-major order of a rows x cols grid satisfies f. */
  ghost predicate ScanFrom(f: (int, int) -> bool, rows: int, cols: int, r: int, c: int)
    requires 0 <= r && 0 <= c <= cols
    decreases rows - r, cols - c
  {
    if r >= rows then false
    else if c == cols then ScanFrom(f, rows, cols, r + 1, 0)
    else f(r, c) || ScanFrom(f, rows, cols, r, c + 1)
  }

  /** A row-major scan finds exactly the cells at or after its start that satisfy f. */
  lemma {:induction false} ScanFromFinds(f: (int, int) -> bool, rows: int, cols: int, r: int, c: int)
    requires 0 <= r && 0 <= c <= cols
    decreases rows - r, cols - c
    ensures ScanFrom(f, rows, cols, r, c) <==>
      exists r', c' :: (r < r' || (r == r' && c <= c')) && r' < rows && 0 <= c' < cols && f(r', c')
  {
    if r >= rows {
    } else if c == cols {
      ScanFromFinds(f, rows, cols, r + 1, 0);
    } else {
      ScanFromFinds(f, rows, cols, r, c + 1);
      if f(r, c) {
        assert (r < r || (r == r && c <= c)) && r < rows && 0 <= c < cols;
      }
    }
  }

  /** Which anchors succeed for ship id on s. */
  ghost function AnchorOk(game: GameConfig, s: BoardState, id: int): (int, int) -> bool
    requires StateOk(game, s) && 0 <= id < game.NShips()
  {
    (r, c) => AnchorSpec(game, s, id, Point(r, c)).ok
  }

  /** The search from (r, c) is the row-major scan for an anchor that succeeds. */
  lemma {:induction false} SearchFromIsScan(game: GameConfig, s: BoardState, id: int, r: int, c: int)
    requires StateOk(game, s) && 0 <= id < game.NShips() && 0 <= r && 0 <= c <= game.cols
    decreases game.rows - r, game.cols - c
    ensures SearchFrom(game, s, id, r, c).ok == ScanFrom(AnchorOk(game, s, id), game.rows, game.cols, r, c)
  {
    if r >= game.rows {
    } else if c == game.cols {
      assert SearchFrom(game, s, id, r, c) == SearchFrom(game, s, id, r + 1, 0);
      SearchFromIsScan(game, s, id, r + 1, 0);
    } else {
      SearchFromCell(game, s, id, r, c);
      SearchFromIsScan(game, s, id, r, c + 1);
      assert AnchorOk(game, s, id)(r, c) == AnchorSpec(game, s, id, Point(r, c)).ok;
    }
  }

  /** The search succeeds exactly when some anchor of the grid succeeds. */
  lemma SearchFromFinds(game: GameConfig, s: BoardState, id: int)
    requires StateOk(game, s) && 0 <= id < game.NShips()
    ensures SearchFrom(game, s, id, 0, 0).ok <==>
      exists r, c :: 0 <= r < game.rows && 0 <= c < game.cols && AnchorSpec(game, s, id, Point(r, c)).ok
  {
    var f := AnchorOk(game, s, id);
    SearchFromIsScan(game, s, id, 0, 0);
    ScanFromFinds(f, game.rows, game.cols, 0, 0);
    if SearchFrom(game, s, id, 0, 0).ok {
      var r, c :| (0 < r || (0 == r && 0 <= c)) && r < game.rows && 0 <= c < game.cols && f(r, c);
      assert AnchorSpec(game, s, id, Point(r, c)).ok;
    }
    if r, c :| 0 <= r < game.rows && 0 <= c < game.cols && AnchorSpec(game, s, id, Point(r, c)).ok {
      assert f(r, c);
    }
  }

  /** An anchor succeeds exactly when one of its two directions does. */
  lemma AnchorSpecOk(game: GameConfig, s: BoardState, id: int, p: Point)
    requires StateOk(game, s) && 0 <= id < game.NShips()
    ensures AnchorSpec(game, s, id, p).ok <==> exists d :: Attempt(game, s, id, p, d).ok
  {
    var h := Attempt(game, s, id, p, Horizontal);
    var v := Attempt(game, s, id, p, Vertical);
    assert AnchorSpec(game, s, id, p) == if h.ok then h else v;
    if h.ok {
      assert Attempt(game, s, id, p, Horizontal).ok;
    } else if v.ok {
      assert Attempt(game, s, id, p, Vertical).ok;
    } else {
      forall d: Direction ensures !Attempt(game, s, id, p, d).ok {
        if d == Horizontal {
        } else {
        }
      }
    }
  }

  /** A candidate succeeds exactly when it extends: placeShip accepts it and the ships after it
      can still be added. */
  lemma {:induction false} AttemptIsExtendsAt(game: GameConfig, s: BoardState, id: int, p: Point, dir: Direction)
    requires StateOk(game, s) && 0 <= id < game.NShips()
    decreases game.NShips() - id, 0
    ensures Attempt(game, s, id, p, dir).ok <==> ExtendsAt(game, s, id, p, dir)
  {
    var placed := PlaceSpec(game, s, p, id, dir);
    if placed.ok {
      if Search(game, placed.state, id + 1).ok {
        SearchOkIsExtendable(game, placed.state, id + 1);
      }
      if Extendable(game, placed.state, id + 1) {
        ExtendableSearchOk(game, placed.state, id + 1);
      }
    }
  }

  /** A successful search found a way to add the remaining ships. */
  lemma {:induction false} SearchOkIsExtendable(game: GameConfig, s: BoardState, id: int)
    requires StateOk(game, s) && 0 <= id <= game.NShips() && Search(game, s, id).ok
    decreases game.NShips() - id, 1
    ensures Extendable(game, s, id)
  {
    if id < game.NShips() {
      SearchFromFinds(game, s, id);
      var r, c :| 0 <= r < game.rows && 0 <= c < game.cols && AnchorSpec(game, s, id, Point(r, c)).ok;
      AnchorSpecOk(game, s, id, Point(r, c));
      var d :| Attempt(game, s, id, Point(r, c), d).ok;
      AttemptIsExtendsAt(game, s, id, Point(r, c), d);
    }
  }

  /** When the remaining ships can be added at all, the search finds a way. */
  lemma {:induction false} ExtendableSearchOk(game: GameConfig, s: BoardState, id: int)
    requires StateOk(game, s) && 0 <= id <= game.NShips() && Extendable(game, s, id)
    decreases game.NShips() - id, 1
    ensures Search(game, s, id).ok
  {
    if id < game.NShips() {
      var r, c, d :| 0 <= r < game.rows && 0 <= c < game.cols && ExtendsAt(game, s, id, Point(r, c), d);
      AttemptIsExtendsAt(game, s, id, Point(r, c), d);
      AnchorSpecOk(game, s, id, Point(r, c));
      SearchFromFinds(game, s, id);
    }
  }

  /** The backtracking search succeeds exactly when the remaining ships can be added one by one at
      anchors placeShip accepts: a false result means no such placement exists. */
  lemma SearchIsExtendable(game: GameConfig, s: BoardState, id: int)
    requires StateOk(game, s) && 0 <= id <= game.NShips()
    ensures Search(game, s, id).ok <==> Extendable(game, s, id)
  {
    if Search(game, s, id).ok {
      SearchOkIsExtendable(game, s, id);
    }
    if Extendable(game, s, id) {
      ExtendableSearchOk(game, s, id);
    }
  }

  /** What TryAnchor relies on once placeShip has accepted ship id at p: the new board is well
      formed, the candidate's outcome is the search for the next ship on it, unplaceShip restores
      s, and no occupied cell was overwritten. */
  lemma PlacedCandidate(game: GameConfig, s: BoardState, p: Point, id: int, dir: Direction)
    requires StateOk(game, s) && 0 <= id < game.NShips() && PlaceSpec(game, s, p, id, dir).ok
    ensures var s1 := PlaceSpec(game, s, p, id, dir).state;
      && StateOk(game, s1)
      && Attempt(game, s, id, p, dir) == (if Search(game, s1, id + 1).ok then Search(game, s1, id + 1) else Step(false, s))
      && UnplaceSpec(game, s1, p, id, dir) == Step(true, s)
      && KeepsOccupied(s.cells, s1.cells)
  {
    PlaceUnplaceRoundTrip(game, s, p, id, dir);
    PlaceKeepsOccupied(game, s, p, id, dir);
  }

  /** The backtracking search `recursive` (Player.cpp:242-276, identical at 444-478): true at
      once when every ship is placed; otherwise every anchor in row-major order, HORIZONTAL before
      VERTICAL, until one placement of ship shipId can be extended to the remaining ships. */
  method Recursive(b: Board, shipId: int) returns (ok: bool)
    requires b.Valid() && 0 <= shipId <= b.game.NShips()
    modifies b, b.grid
    decreases b.game.NShips() - shipId, 3
    ensures b.Valid()
    ensures Step(ok, b.State()) == Search(b.game, old(b.State()), shipId)
    ensures shipId == b.game.NShips() ==> ok
    ensures ok <==> Extendable(b.game, old(b.State()), shipId)
    ensures ok ==> AppendedInOrder(b.game, old(b.ships), b.ships, shipId)
    ensures ok ==> KeepsOccupied(old(b.Cells()), b.Cells())
    ensures ok ==> ShownFrom(b.game, b.Cells(), shipId)
  {
    ghost var s0 := b.State();
    SearchIsExtendable(b.game, s0, shipId);
    if shipId == b.game.NShips() {
      assert b.ships[..|b.ships|] == b.ships;
      return true;
    }
    var r := 0;
    while r < b.game.rows
      invariant 0 <= r <= b.game.rows
      invariant b.Valid() && b.State() == s0
      invariant Search(b.game, s0, shipId) == SearchFrom(b.game, s0, shipId, r, 0)
    {
      var c := 0;
      while c < b.game.cols
        invariant 0 <= c <= b.game.cols
        invariant b.Valid() && b.State() == s0
        invariant Search(b.game, s0, shipId) == SearchFrom(b.game, s0, shipId, r, c)
      {
        ok := TryCell(b, Point(r, c), shipId);
        if ok {
          return true;
        }
        c := c + 1;
      }
      r := r + 1;
    }
    return false;
  }

  /** The body of `recursive`'s inner loop: try p HORIZONTAL, then VERTICAL. */
  method TryCell(b: Board, p: Point, shipId: int) returns (ok: bool)
    requires b.Valid() && 0 <= shipId < b.game.NShips()
    modifies b, b.grid
    decreases b.game.NShips() - shipId, 2
    ensures b.Valid()
    ensures Step(ok, b.State()) == AnchorSpec(b.game, old(b.State()), shipId, p)
    ensures ok ==> AppendedInOrder(b.game, old(b.ships), b.ships, shipId)
    ensures ok ==> KeepsOccupied(old(b.Cells()), b.Cells())
    ensures ok ==> ShownFrom(b.game, b.Cells(), shipId)
  {
    ok := TryAnchor(b, p, shipId, Horizontal);
    if !ok {
      ok := TryAnchor(b, p, shipId, Vertical);
    }
  }

  /** One candidate of `recursive`'s loop body: place ship shipId at p in direction dir, recurse
      on the next ship, and unplace it again when the recursion fails. */
  method TryAnchor(b: Board, p: Point, shipId: int, dir: Direction) returns (ok: bool)
    requires b.Valid() && 0 <= shipId < b.game.NShips()
    modifies b, b.grid
    decreases b.game.NShips() - shipId, 1
    ensures b.Valid()
    ensures Step(ok, b.State()) == Attempt(b.game, old(b.State()), shipId, p, dir)
    ensures ok <==> ExtendsAt(b.game, old(b.State()), shipId, p, dir)
    ensures ok ==> b.game.IsValid(p) && RunFits(b.game, p, dir, b.game.ShipLength(shipId))
                   && RunIs(b.game, b.Cells(), p, dir, b.game.ShipLength(shipId), b.game.ShipSymbol(shipId))
    ensures ok ==> AppendedInOrder(b.game, old(b.ships), b.ships, shipId)
    ensures ok ==> KeepsOccupied(old(b.Cells()), b.Cells())
    ensures ok ==> ShownFrom(b.game, b.Cells(), shipId)
  {
    ghost var s0 := b.State();
    AttemptIsExtendsAt(b.game, s0, shipId, p, dir);
    var placed := b.PlaceShip(p, shipId, dir);
    if !placed {
      return false;
    }
    ok := ExtendOrUndo(b, p, shipId, dir, s0);
  }

  /** The rest of a candidate once placeShip has accepted it: recurse on the next ship and, when
      that fails, unplace the ship again. */
  method ExtendOrUndo(b: Board, p: Point, shipId: int, dir: Direction, ghost s0: BoardState) returns (ok: bool)
    requires b.Valid() && 0 <= shipId < b.game.NShips() && StateOk(b.game, s0)
    requires PlaceSpec(b.game, s0, p, shipId, dir).ok && b.State() == PlaceSpec(b.game, s0, p, shipId, dir).state
    modifies b, b.grid
    decreases b.game.NShips() - shipId, 0
    ensures b.Valid()
    ensures Step(ok, b.State()) == Attempt(b.game, s0, shipId, p, dir)
    ensures ok ==> RunIs(b.game, b.Cells(), p, dir, b.game.ShipLength(shipId), b.game.ShipSymbol(shipId))
    ensures ok ==> AppendedInOrder(b.game, s0.ships, b.ships, shipId)
    ensures ok ==> KeepsOccupied(s0.cells, b.Cells())
    ensures ok ==> ShownFrom(b.game, b.Cells(), shipId)
  {
    ghost var s1 := b.State();
    PlacedCandidate(b.game, s0, p, shipId, dir);
    ok := Recursive(b, shipId + 1);
    if ok {
      AppendedStep(b.game, s0.ships, b.ships, shipId);
      KeepsOccupiedTrans(s0.cells, s1.cells, b.Cells());
      PlacedShipStays(b.game, s0, p, shipId, dir, b.Cells());
      ShownStep(b.game, b.Cells(), shipId, p, dir);
      return true;
    }
    var undone := b.UnplaceShip(p, shipId, dir);
  }


  /** placeShips of MediocrePlayer and GoodPlayer: up to 50 rounds of block, search, unblock.
      Whether it succeeds or not, no '-' is left on the board; a failure leaves it as it was. */
  method PlaceShips(b: Board) returns (ok: bool)
    requires b.Valid()
    requires NoBlocked(b.Cells()) && |EmptyCells(b.Cells())| >= (b.game.rows * b.game.cols) / 2
    modifies b, b.grid
    ensures b.Valid()
    ensures NoBlocked(b.Cells())
    ensures !ok ==> b.State() == old(b.State())
    ensures ok ==> AppendedInOrder(b.game, old(b.ships), b.ships, 0)
    ensures ok ==> KeepsOccupied(old(b.Cells()), b.Cells())
    ensures ok ==> forall id :: 0 <= id < b.game.NShips() && b.game.ShipSymbol(id) != '-' ==>
                     ShipShown(b.game, b.Cells(), id)
  {
    ghost var s0 := b.State();
    var i := 0;
    while i < 50
      invariant 0 <= i <= 50
      invariant b.Valid() && b.State() == s0
    {
      ok := BlockedRound(b);
      if ok {
        return true;
      }
      i := i + 1;
    }
    return false;
  }

  /** One round of placeShips' loop: block half the empty cells, search from ship 0, unblock. */
  method BlockedRound(b: Board) returns (ok: bool)
    requires b.Valid()
    requires NoBlocked(b.Cells()) && |EmptyCells(b.Cells())| >= (b.game.rows * b.game.cols) / 2
    modifies b, b.grid
    ensures b.Valid()
    ensures NoBlocked(b.Cells())
    ensures !ok ==> b.State() == old(b.State())
    ensures ok ==> AppendedInOrder(b.game, old(b.ships), b.ships, 0)
    ensures ok ==> KeepsOccupied(old(b.Cells()), b.Cells())
    ensures ok ==> forall id :: 0 <= id < b.game.NShips() && b.game.ShipSymbol(id) != '-' ==>
                     ShipShown(b.game, b.Cells(), id)
  {
    ghost var s0 := b.State();
    b.Block();
    ghost var blockedCells := b.Cells();
    ok := Recursive(b, 0);
    ghost var searched := b.Cells();
    b.Unblock();
    if ok {
      UnblockIdempotent(searched);
      RoundKeepsOccupied(s0.cells, blockedCells, searched);
      UnblockKeepsFleetShown(b.game, searched);
    } else {
      UnblockUndoesBlock(s0.cells, blockedCells);
    }
  }

  /** A 1x1 game whose one ship has length 1 and block's '-' marker as its symbol. */
  const DashGame := GameConfig(1, 1, [ShipSpec(1, '-', "dash")])

  /** addShip reserves only 'X', '.' and 'o', so a ship may carry block's '-' marker. On a 1x1
      board block marks no cell; the search then places such a ship, and unblock wipes it off the
      grid while its record stays: the ship can never be hit, so allShipsDestroyed never holds. */
  lemma DashShipErased()
    ensures VerdictOf(1, 1, [], 1, '-') == Accepted
    ensures var s := BoardState(Blank(1, 1), []);
      && StateOk(DashGame, s)
      && Search(DashGame, s, 0).ok
      && Search(DashGame, s, 0).state.ships == [ShipRecord('-', 0, 0)]
      && !ShipShown(DashGame, Unblocked(Search(DashGame, s, 0).state.cells), 0)
  {
    DashShipPlaced();
    DashShipUnshown(Search(DashGame, BoardState(Blank(1, 1), []), 0).state.cells);
  }

  /** The search places the '-' ship at (0,0). */
  lemma DashShipPlaced()
    ensures StateOk(DashGame, BoardState(Blank(1, 1), []))
    ensures var st := Search(DashGame, BoardState(Blank(1, 1), []), 0);
      && st.ok && st.state.ships == [ShipRecord('-', 0, 0)]
      && Shaped(st.state.cells, 1, 1) && st.state.cells[0][0] == '-'
  {
    var s := BoardState(Blank(1, 1), []);
    assert FleetOk(1, 1, DashGame.ships);
    assert StateOk(DashGame, s);
    assert RunIs(DashGame, s.cells, Point(0, 0), Horizontal, 1, '.');
    var placed := PlaceSpec(DashGame, s, Point(0, 0), 0, Horizontal);
    assert placed.ok && placed.state.ships == [ShipRecord('-', 0, 0)];
    assert InRun(Point(0, 0), Point(0, 0), Horizontal, 1);
    assert Search(DashGame, placed.state, 1) == Step(true, placed.state);
    assert SearchFrom(DashGame, s, 0, 0, 0) == Step(true, placed.state);
  }

  /** Unblock turns the '-' ship's one cell back into '.', so no run shows '-' any more. */
  lemma DashShipUnshown(g: Grid)
    requires Shaped(g, 1, 1) && g[0][0] == '-'
    ensures !ShipShown(DashGame, Unblocked(g), 0)
  {
    forall r, c, d | 0 <= r < 1 && 0 <= c < 1 && RunFits(DashGame, Point(r, c), d, 1)
      ensures !RunIs(DashGame, Unblocked(g), Point(r, c), d, 1, '-')
    {
      assert RunCell(Point(r, c), d, 0) == Point(0, 0);
    }
  }

  /** After a successful search from ship 0 on a board with no records, ships 0..nShips-1 are all
      placed, each record at the position equal to its id, none of them hit. */
  lemma SearchFromEmptyIsInIdOrder(game: GameConfig, ships: seq<ShipRecord>)
    requires AppendedInOrder(game, [], ships, 0)
    ensures |ships| == game.NShips()
    ensures forall i :: 0 <= i < |ships| ==> ships[i] == ShipRecord(game.ShipSymbol(i), 0, i)
  {
    var none: seq<ShipRecord> := [];
    forall i | 0 <= i < |ships|
      ensures ships[i] == ShipRecord(game.ShipSymbol(i), 0, i)
    {
      assert |none| <= i < |ships|;
    }
  }
}
