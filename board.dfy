/** One player's grid and placed-ship bookkeeping (Board.cpp, class BoardImpl). */
module BoardEngine {
  import opened Fleet

  /** BoardImpl's `ship_des` record: one entry per ship currently on the grid. */
  datatype ShipRecord = ShipRecord(symbol: char, timesHit: int, id: int)

  /** A rows x cols grid of cell markers: '.', '-', 'X', 'o' or a ship symbol. */
  type Grid = seq<seq<char>>

  /** The value of a board: its cells and its records, in push_back order. */
  datatype BoardState = BoardState(cells: Grid, ships: seq<ShipRecord>)

  /** What a guarded update returns, and the state it leaves behind. */
  datatype Step = Step(ok: bool, state: BoardState)

  /** The out-values of BoardImpl::attack; `shipId` keeps its incoming value unless a ship sank. */
  datatype AttackReport = AttackReport(accepted: bool, shotHit: bool, shipDestroyed: bool, shipId: int)

  predicate Shaped(g: Grid, rows: int, cols: int)
  {
    |g| == rows && forall i :: 0 <= i < |g| ==> |g[i]| == cols
  }

  function At(g: Grid, q: Point): char
    requires 0 <= q.r < |g| && 0 <= q.c < |g[q.r]|
  {
    g[q.r][q.c]
  }

  function SetCell(g: Grid, q: Point, ch: char): Grid
    requires 0 <= q.r < |g| && 0 <= q.c < |g[q.r]|
  {
    g[q.r := g[q.r][q.c := ch]]
  }

  /** The i-th cell of the run that starts at anchor p and extends in direction dir. */
  function RunCell(p: Point, dir: Direction, i: int): Point
  {
    if dir == Horizontal then Point(p.r, p.c + i) else Point(p.r + i, p.c)
  }

  /** q is one of the len cells of the run anchored at p. */
  predicate InRun(q: Point, p: Point, dir: Direction, len: int)
  {
    if dir == Horizontal then q.r == p.r && p.c <= q.c < p.c + len
    else q.c == p.c && p.r <= q.r < p.r + len
  }

  /** The run ends inside the grid (the source refuses `anchor + length > cols` or `> rows`). */
  predicate RunFits(game: GameConfig, p: Point, dir: Direction, len: int)
  {
    if dir == Horizontal then p.c + len <= game.cols else p.r + len <= game.rows
  }

  /** Every cell of the run holds ch. */
  predicate RunIs(game: GameConfig, g: Grid, p: Point, dir: Direction, len: int, ch: char)
    requires Shaped(g, game.rows, game.cols) && game.IsValid(p) && RunFits(game, p, dir, len)
  {
    forall i :: 0 <= i < len ==> At(g, RunCell(p, dir, i)) == ch
  }

  /** The set of cells of a run. */
  function RunSet(p: Point, dir: Direction, len: nat): set<Point>
  {
    set i | 0 <= i < len :: RunCell(p, dir, i)
  }

  /** g with every cell of the run rewritten to ch. */
  function Paint(g: Grid, p: Point, dir: Direction, len: int, ch: char): (r: Grid)
    ensures |r| == |g| && forall i :: 0 <= i < |g| ==> |r[i]| == |g[i]|
    ensures forall i, j :: 0 <= i < |g| && 0 <= j < |g[i]| ==>
      r[i][j] == if InRun(Point(i, j), p, dir, len) then ch else g[i][j]
  {
    seq(|g|, i requires 0 <= i < |g| =>
      seq(|g[i]|, j requires 0 <= j < |g[i]| => if InRun(Point(i, j), p, dir, len) then ch else g[i][j]))
  }

  /** g with every '-' turned back into '.'. */
  function Unblocked(g: Grid): (r: Grid)
    ensures |r| == |g| && forall i :: 0 <= i < |g| ==> |r[i]| == |g[i]|
    ensures forall i, j :: 0 <= i < |g| && 0 <= j < |g[i]| ==>
      r[i][j] == if g[i][j] == '-' then '.' else g[i][j]
  {
    seq(|g|, i requires 0 <= i < |g| =>
      seq(|g[i]|, j requires 0 <= j < |g[i]| => if g[i][j] == '-' then '.' else g[i][j]))
  }

  predicate NoBlocked(g: Grid)
  {
    forall i, j :: 0 <= i < |g| && 0 <= j < |g[i]| ==> g[i][j] != '-'
  }

  /** The cells holding '.'. */
  function EmptyCells(g: Grid): set<Point>
  {
    set i, j | 0 <= i < |g| && 0 <= j < |g[i]| && g[i][j] == '.' :: Point(i, j)
  }

  /** The cells at which two grids of the same shape differ. */
  function Changed(a: Grid, b: Grid): set<Point>
  {
    set i, j | 0 <= i < |a| && i < |b| && 0 <= j < |a[i]| && j < |b[i]| && a[i][j] != b[i][j] :: Point(i, j)
  }

  /** Two grids with the same shape and the same cells are equal. */
  lemma GridExt(a: Grid, b: Grid)
    requires |a| == |b| && forall i :: 0 <= i < |a| ==> |a[i]| == |b[i]|
    requires forall i, j :: 0 <= i < |a| && 0 <= j < |a[i]| ==> a[i][j] == b[i][j]
    ensures a == b
  {
    forall i | 0 <= i < |a|
      ensures a[i] == b[i]
    {
      assert |a[i]| == |b[i]|;
    }
  }

  predicate HasId(ships: seq<ShipRecord>, id: int)
  {
    exists k :: 0 <= k < |ships| && ships[k].id == id
  }

  /** The record list is consistent with the fleet: ids in range and distinct, symbols from the fleet. */
  predicate RecordsOk(game: GameConfig, ships: seq<ShipRecord>)
  {
    && |ships| <= game.NShips()
    && (forall k :: 0 <= k < |ships| ==>
          0 <= ships[k].id < game.NShips() && ships[k].symbol == game.ShipSymbol(ships[k].id)
          && 0 <= ships[k].timesHit)
    && (forall k, m :: 0 <= k < m < |ships| ==> ships[k].id != ships[m].id)
  }

  predicate StateOk(game: GameConfig, s: BoardState)
  {
    game.Valid() && Shaped(s.cells, game.rows, game.cols) && RecordsOk(game, s.ships)
  }

  /** At most one record per ship id: the list can never outgrow the fleet. Induction on n: drop
      the last record and renumber the ids above its id down by one. */
  lemma {:induction false} DistinctIdsBounded(ships: seq<ShipRecord>, n: nat)
    requires forall k :: 0 <= k < |ships| ==> 0 <= ships[k].id < n
    requires forall k, m :: 0 <= k < m < |ships| ==> ships[k].id != ships[m].id
    ensures |ships| <= n
    decreases |ships|
  {
    if |ships| > 0 {
      var x := ships[|ships| - 1].id;
      var rest := seq(|ships| - 1, k requires 0 <= k < |ships| - 1 =>
        ships[k].(id := if ships[k].id > x then ships[k].id - 1 else ships[k].id));
      forall k | 0 <= k < |rest|
        ensures 0 <= rest[k].id < n - 1
      {
        assert ships[k].id != x;
      }
      assert |rest| == |ships| - 1;
      forall k, m | 0 <= k < m < |rest|
        ensures rest[k].id != rest[m].id
      {
        assert ships[k].id != ships[m].id && ships[k].id != x && ships[m].id != x;
      }
      DistinctIdsBounded(rest, n - 1);
    }
  }

  /** placeShip consults the fleet (whose accessors assert a valid id) only once the id passed
      the `> nShips` test, the anchor is valid and the id has no record. */
  predicate PlaceLookupSafe(game: GameConfig, ships: seq<ShipRecord>, p: Point, id: int)
  {
    id <= game.NShips() && game.IsValid(p) && !HasId(ships, id) ==> 0 <= id < game.NShips()
  }

  /** BoardImpl::placeShip on a board value. */
  function PlaceSpec(game: GameConfig, s: BoardState, p: Point, id: int, dir: Direction): (st: Step)
    requires StateOk(game, s) && PlaceLookupSafe(game, s.ships, p, id)
    ensures StateOk(game, st.state)
    ensures !st.ok ==> st.state == s
  {
    if id > game.NShips() || !game.IsValid(p) || HasId(s.ships, id) then Step(false, s)
    else
      var len := game.ShipLength(id);
      var sym := game.ShipSymbol(id);
      if !RunFits(game, p, dir, len) || !RunIs(game, s.cells, p, dir, len, '.') then Step(false, s)
      else
        AppendKeepsRecordsOk(game, s.ships, ShipRecord(sym, 0, id));
        Step(true, BoardState(Paint(s.cells, p, dir, len, sym), s.ships + [ShipRecord(sym, 0, id)]))
  }

  /** The position of the last record with this id (unplaceShip's search does not stop early). */
  function LastIndexOf(ships: seq<ShipRecord>, id: int): (k: int)
    requires HasId(ships, id)
    ensures 0 <= k < |ships| && ships[k].id == id
    ensures forall j :: k < j < |ships| ==> ships[j].id != id
  {
    if ships[|ships| - 1].id == id then |ships| - 1
    else
      assert HasId(ships[..|ships| - 1], id) by {
        var k :| 0 <= k < |ships| && ships[k].id == id;
        assert ships[..|ships| - 1][k] == ships[k];
      }
      LastIndexOf(ships[..|ships| - 1], id)
  }

  /** vector::erase at position k. */
  function Erase(ships: seq<ShipRecord>, k: int): seq<ShipRecord>
    requires 0 <= k < |ships|
  {
    ships[..k] + ships[k + 1..]
  }

  /** BoardImpl::unplaceShip on a board value. */
  function UnplaceSpec(game: GameConfig, s: BoardState, p: Point, id: int, dir: Direction): Step
    requires StateOk(game, s)
  {
    if !game.IsValid(p) || !HasId(s.ships, id) then Step(false, s)
    else
      var len := game.ShipLength(id);
      var sym := game.ShipSymbol(id);
      if !RunFits(game, p, dir, len) || !RunIs(game, s.cells, p, dir, len, sym) then Step(false, s)
      else Step(true, BoardState(Paint(s.cells, p, dir, len, '.'), Erase(s.ships, LastIndexOf(s.ships, id))))
  }

  /** The first record position at or after i whose fleet symbol is ch, or 100 if there is none. */
  function MatchFrom(game: GameConfig, ships: seq<ShipRecord>, ch: char, i: int): (k: int)
    requires RecordsOk(game, ships) && 0 <= i <= |ships|
    ensures (forall j :: i <= j < |ships| ==> game.ShipSymbol(ships[j].id) != ch) ==> k == 100
    ensures (exists j :: i <= j < |ships| && game.ShipSymbol(ships[j].id) == ch) ==>
      i <= k < |ships| && game.ShipSymbol(ships[k].id) == ch
      && forall j :: i <= j < k ==> game.ShipSymbol(ships[j].id) != ch
    decreases |ships| - i
  {
    if i == |ships| then 100
    else if game.ShipSymbol(ships[i].id) == ch then i
    else MatchFrom(game, ships, ch, i + 1)
  }

  /** attack looks up the record of the symbol it hit; with no match it would index position 100,
      past the end of the record list. */
  predicate AttackSafe(game: GameConfig, s: BoardState, p: Point)
    requires StateOk(game, s)
  {
    game.IsValid(p) && At(s.cells, p) != 'X' && At(s.cells, p) != 'o' && At(s.cells, p) != '.'
    ==> exists j :: 0 <= j < |s.ships| && game.ShipSymbol(s.ships[j].id) == At(s.cells, p)
  }

  /** BoardImpl::attack on a board value; note that the sinking test compares against the fleet
      length at the record's POSITION k, not at its id. */
  function AttackSpec(game: GameConfig, s: BoardState, p: Point, shipIdIn: int): (AttackReport, BoardState)
    requires StateOk(game, s) && AttackSafe(game, s, p)
  {
    if !game.IsValid(p) || At(s.cells, p) == 'X' || At(s.cells, p) == 'o' then
      (AttackReport(false, false, false, shipIdIn), s)
    else if At(s.cells, p) != '.' then
      var k := MatchFrom(game, s.ships, At(s.cells, p), 0);
      var rec := s.ships[k].(timesHit := s.ships[k].timesHit + 1);
      var destroyed := rec.timesHit == game.ShipLength(k);
      (AttackReport(true, true, destroyed, if destroyed then rec.id else shipIdIn),
       BoardState(SetCell(s.cells, p, 'X'), s.ships[k := rec]))
    else
      (AttackReport(true, false, false, shipIdIn), BoardState(SetCell(s.cells, p, 'o'), s.ships))
  }

  /** allShipsDestroyed's test, again by record position. */
  predicate AllSunk(game: GameConfig, ships: seq<ShipRecord>)
    requires RecordsOk(game, ships)
  {
    forall i :: 0 <= i < |ships| ==> ships[i].timesHit == game.ShipLength(i)
  }

  /** The grid of a freshly cleared board. */
  function Blank(rows: nat, cols: nat): Grid
  {
    seq(rows, _ => seq(cols, _ => '.'))
  }

  class Board {
    const game: GameConfig
    const grid: array2<char>
    var ships: seq<ShipRecord>

    ghost predicate Valid()
      reads this
    {
      game.Valid() && grid.Length0 == game.rows && grid.Length1 == game.cols && RecordsOk(game, ships)
    }

    ghost function Cells(): (g: Grid)
      reads grid
      ensures Shaped(g, grid.Length0, grid.Length1)
      ensures forall i, j :: 0 <= i < grid.Length0 && 0 <= j < grid.Length1 ==> g[i][j] == grid[i, j]
    {
      seq(grid.Length0, i requires 0 <= i < grid.Length0 reads grid =>
        seq(grid.Length1, j requires 0 <= j < grid.Length1 reads grid => grid[i, j]))
    }

    ghost function State(): BoardState
      reads this, grid
    {
      BoardState(Cells(), ships)
    }

    /** BoardImpl::BoardImpl: an empty board for a frozen fleet. */
    constructor (g: GameConfig)
      requires g.Valid()
      ensures Valid() && fresh(grid)
      ensures game == g && State() == BoardState(Blank(g.rows, g.cols), [])
    {
      game := g;
      grid := new char[g.rows, g.cols];
      ships := [];
      new;
      Clear();
    }

    /** BoardImpl::clear: every cell becomes '.', the records stay. */
    method Clear()
      requires grid.Length0 == game.rows && grid.Length1 == game.cols && game.Valid()
      modifies grid
      ensures State() == BoardState(Blank(game.rows, game.cols), ships)
    {
      var i := 0;
      while i < game.rows
        invariant 0 <= i <= game.rows
        invariant forall a, b :: 0 <= a < i && 0 <= b < game.cols ==> grid[a, b] == '.'
      {
        var j := 0;
        while j < game.cols
          invariant 0 <= j <= game.cols
          invariant forall a, b :: 0 <= a < i && 0 <= b < game.cols ==> grid[a, b] == '.'
          invariant forall b :: 0 <= b < j ==> grid[i, b] == '.'
        {
          grid[i, j] := '.';
          j := j + 1;
        }
        i := i + 1;
      }
      GridExt(Cells(), Blank(game.rows, game.cols));
    }

    /** BoardImpl::block: exactly (rows*cols)/2 empty cells become '-'. Each round the source draws
        a random cell and keeps it only if it is '.'; the model picks one of the '.' cells directly. */
    method Block()
      requires Valid()
      requires |EmptyCells(Cells())| >= (game.rows * game.cols) / 2
      modifies grid
      ensures Changed(old(Cells()), Cells()) <= EmptyCells(old(Cells()))
      ensures |Changed(old(Cells()), Cells())| == (game.rows * game.cols) / 2
      ensures forall q :: q in Changed(old(Cells()), Cells()) ==> At(Cells(), q) == '-'
    {
      ghost var before := Cells();
      ghost var empties := EmptyCells(before);
      ghost var blocked: set<Point> := {};
      var counter := 0;
      while counter != (game.rows * game.cols) / 2
        invariant 0 <= counter <= (game.rows * game.cols) / 2
        invariant |blocked| == counter && blocked <= empties
        invariant forall a, b :: 0 <= a < game.rows && 0 <= b < game.cols ==>
          grid[a, b] == if Point(a, b) in blocked then '-' else before[a][b]
        decreases (game.rows * game.cols) / 2 - counter
      {
        ghost var q := BlockOne(before, blocked);
        blocked := blocked + {q};
        counter := counter + 1;
      }
      ghost var after := Cells();
      assert forall a, b :: 0 <= a < game.rows && 0 <= b < game.cols ==>
        after[a][b] == if Point(a, b) in blocked then '-' else before[a][b];
      BlockedCells(before, after, blocked, game.rows, game.cols);
    }

    /** One round of block's loop: a '.' cell, drawn at random in the source, becomes '-'. There
        is one as long as fewer cells than the board had empty ones have been blocked. */
    method BlockOne(ghost before: Grid, ghost blocked: set<Point>) returns (ghost q: Point)
      requires Valid() && Shaped(before, game.rows, game.cols)
      requires blocked <= EmptyCells(before) && |blocked| < |EmptyCells(before)|
      requires forall a, b :: 0 <= a < game.rows && 0 <= b < game.cols ==>
        grid[a, b] == if Point(a, b) in blocked then '-' else before[a][b]
      modifies grid
      ensures q in EmptyCells(before) - blocked
      ensures forall a, b :: 0 <= a < game.rows && 0 <= b < game.cols ==>
        grid[a, b] == if Point(a, b) in blocked + {q} then '-' else before[a][b]
    {
      DiffCard(EmptyCells(before), blocked);
      ghost var e :| e in EmptyCells(before) - blocked;
      EmptyCellsHas(before, e);
      assert grid[e.r, e.c] == '.';
      var rowpos, colpos :| 0 <= rowpos < game.rows && 0 <= colpos < game.cols && grid[rowpos, colpos] == '.';
      q := Point(rowpos, colpos);
      EmptyCellsHas(before, q);
      grid[rowpos, colpos] := '-';
    }

    /** BoardImpl::unblock: every '-' becomes '.', nothing else changes. */
    method Unblock()
      requires Valid()
      modifies grid
      ensures State() == BoardState(Unblocked(old(Cells())), ships)
    {
      ghost var before := Cells();
      var i := 0;
      while i < game.rows
        invariant 0 <= i <= game.rows
        invariant forall a, b :: 0 <= a < game.rows && 0 <= b < game.cols ==>
          grid[a, b] == if a < i && before[a][b] == '-' then '.' else before[a][b]
      {
        var j := 0;
        while j < game.cols
          invariant 0 <= j <= game.cols
          invariant forall a, b :: 0 <= a < game.rows && 0 <= b < game.cols ==>
            grid[a, b] == if (a < i || (a == i && b < j)) && before[a][b] == '-' then '.' else before[a][b]
        {
          if grid[i, j] == '-' {
            grid[i, j] := '.';
          }
          j := j + 1;
        }
        i := i + 1;
      }
      GridExt(Cells(), Unblocked(before));
    }

    /** The read-only scan placeShip and unplaceShip make before writing: does every cell of the
        run hold ch? */
    method RunHolds(p: Point, dir: Direction, len: int, ch: char) returns (b: bool)
      requires Valid() && game.IsValid(p) && RunFits(game, p, dir, len)
      ensures b == RunIs(game, Cells(), p, dir, len, ch)
    {
      var i := 0;
      while i < len
        invariant 0 <= i
        invariant forall k :: 0 <= k < i && k < len ==> grid[RunCell(p, dir, k).r, RunCell(p, dir, k).c] == ch
      {
        var q := RunCell(p, dir, i);
        if grid[q.r, q.c] != ch {
          return false;
        }
        i := i + 1;
      }
      return true;
    }

    /** The writing loop of placeShip and unplaceShip: every cell of the run becomes ch. */
    method PaintRun(p: Point, dir: Direction, len: int, ch: char)
      requires Valid() && game.IsValid(p) && RunFits(game, p, dir, len) && 0 <= len
      modifies grid
      ensures Cells() == Paint(old(Cells()), p, dir, len, ch)
    {
      ghost var before := Cells();
      var i := 0;
      while i < len
        invariant 0 <= i <= len
        invariant forall a, b :: 0 <= a < game.rows && 0 <= b < game.cols ==>
          grid[a, b] == if InRun(Point(a, b), p, dir, i) then ch else before[a][b]
      {
        var q := RunCell(p, dir, i);
        grid[q.r, q.c] := ch;
        i := i + 1;
      }
      GridExt(Cells(), Paint(before, p, dir, len, ch));
    }

    /** placeShip's scan of the record list for the id. */
    method HasRecord(shipId: int) returns (b: bool)
      ensures b == HasId(ships, shipId)
    {
      var i := 0;
      while i < |ships|
        invariant 0 <= i <= |ships|
        invariant forall k :: 0 <= k < i ==> ships[k].id != shipId
      {
        if ships[i].id == shipId {
          return true;
        }
        i := i + 1;
      }
      return false;
    }

    /** unplaceShip's scan: it remembers the LAST position whose record has the id. */
    method FindRecord(shipId: int) returns (found: bool, index: int)
      ensures found == HasId(ships, shipId)
      ensures found ==> index == LastIndexOf(ships, shipId)
    {
      found := false;
      index := 0;
      var i := 0;
      while i < |ships|
        invariant 0 <= i <= |ships|
        invariant found <==> exists k :: 0 <= k < i && ships[k].id == shipId
        invariant found ==> 0 <= index < i && ships[index].id == shipId
        invariant found ==> forall j :: index < j < i ==> ships[j].id != shipId
      {
        if ships[i].id == shipId {
          found := true;
          index := i;
        }
        i := i + 1;
      }
    }

    /** BoardImpl::placeShip. Every check precedes the first write. */
    method PlaceShip(topOrLeft: Point, shipId: int, dir: Direction) returns (ok: bool)
      requires Valid() && PlaceLookupSafe(game, ships, topOrLeft, shipId)
      modifies this, grid
      ensures Valid()
      ensures Step(ok, State()) == PlaceSpec(game, old(State()), topOrLeft, shipId, dir)
    {
      if shipId > game.NShips() {
        return false;
      }
      if !game.IsValid(topOrLeft) {
        return false;
      }
      var taken := HasRecord(shipId);
      if taken {
        return false;
      }
      var temp := ShipRecord(game.ShipSymbol(shipId), 0, shipId);
      var len := game.ShipLength(shipId);
      if dir == Horizontal {
        if topOrLeft.c + len > game.cols {
          return false;
        }
      } else {
        if topOrLeft.r + len > game.rows {
          return false;
        }
      }
      var free := RunHolds(topOrLeft, dir, len, '.');
      if !free {
        return false;
      }
      PaintRun(topOrLeft, dir, len, temp.symbol);
      AppendKeepsRecordsOk(game, ships, temp);
      ships := ships + [temp];
      ok := true;
    }

    /** BoardImpl::unplaceShip. */
    method UnplaceShip(topOrLeft: Point, shipId: int, dir: Direction) returns (ok: bool)
      requires Valid()
      modifies this, grid
      ensures Valid()
      ensures Step(ok, State()) == UnplaceSpec(game, old(State()), topOrLeft, shipId, dir)
    {
      if !game.IsValid(topOrLeft) {
        return false;
      }
      var found, index := FindRecord(shipId);
      if !found {
        return false;
      }
      var len := game.ShipLength(shipId);
      var sym := game.ShipSymbol(shipId);
      if dir == Horizontal {
        if topOrLeft.c + len > game.cols {
          return false;
        }
      } else {
        if topOrLeft.r + len > game.rows {
          return false;
        }
      }
      var intact := RunHolds(topOrLeft, dir, len, sym);
      if !intact {
        return false;
      }
      PaintRun(topOrLeft, dir, len, '.');
      EraseKeepsRecordsOk(game, ships, index);
      ships := Erase(ships, index);
      ok := true;
    }

    /** BoardImpl::attack. */
    method Attack(p: Point, shipIdIn: int) returns (accepted: bool, shotHit: bool, shipDestroyed: bool, shipId: int)
      requires Valid() && AttackSafe(game, State(), p)
      modifies this, grid
      ensures Valid()
      ensures (AttackReport(accepted, shotHit, shipDestroyed, shipId), State())
           == AttackSpec(game, old(State()), p, shipIdIn)
    {
      ghost var before := State();
      shotHit := false;
      shipDestroyed := false;
      shipId := shipIdIn;
      if !game.IsValid(p) || grid[p.r, p.c] == 'X' || grid[p.r, p.c] == 'o' {
        return false, shotHit, shipDestroyed, shipId;
      } else if grid[p.r, p.c] != '.' {
        var idIndex := 100;
        shotHit := true;
        var i := 0;
        while i < |ships|
          invariant 0 <= i <= |ships|
          invariant idIndex == 100
          invariant forall j :: 0 <= j < i ==> game.ShipSymbol(ships[j].id) != grid[p.r, p.c]
        {
          if game.ShipSymbol(ships[i].id) == grid[p.r, p.c] {
            idIndex := i;
            break;
          }
          i := i + 1;
        }
        assert idIndex == MatchFrom(game, ships, grid[p.r, p.c], 0);
        grid[p.r, p.c] := 'X';
        ships := ships[idIndex := ships[idIndex].(timesHit := ships[idIndex].timesHit + 1)];
        if ships[idIndex].timesHit == game.ShipLength(idIndex) {
          shipDestroyed := true;
          shipId := ships[idIndex].id;
        }
        GridExt(Cells(), SetCell(before.cells, p, 'X'));
      } else {
        grid[p.r, p.c] := 'o';
        GridExt(Cells(), SetCell(before.cells, p, 'o'));
      }
      accepted := true;
    }

    /** BoardImpl::allShipsDestroyed: every record, taken by position, is hit as often as the
        fleet entry at that position is long. */
    method AllShipsDestroyed() returns (r: bool)
      requires Valid()
      ensures r <==> AllSunk(game, ships)
      ensures r <==> forall i :: 0 <= i < |ships| ==> ships[i].timesHit == game.ShipLength(i)
    {
      var i := 0;
      while i < |ships|
        invariant 0 <= i <= |ships|
        invariant forall k :: 0 <= k < i ==> ships[k].timesHit == game.ShipLength(k)
      {
        if ships[i].timesHit != game.ShipLength(i) {
          return false;
        }
        i := i + 1;
      }
      return true;
    }
  }

  lemma EmptyCellsHas(g: Grid, q: Point)
    ensures q in EmptyCells(g) <==> 0 <= q.r < |g| && 0 <= q.c < |g[q.r]| && g[q.r][q.c] == '.'
  {
    if 0 <= q.r < |g| && 0 <= q.c < |g[q.r]| && g[q.r][q.c] == '.' {
      assert Point(q.r, q.c) == q;
    }
  }

  /** When after differs from before exactly on the marked cells, those are the changed cells. */
  lemma ChangedIsMarked(before: Grid, after: Grid, marked: set<Point>)
    requires |before| == |after| && forall i :: 0 <= i < |before| ==> |before[i]| == |after[i]|
    requires forall q :: q in marked ==> 0 <= q.r < |before| && 0 <= q.c < |before[q.r]| && before[q.r][q.c] != after[q.r][q.c]
    requires forall i, j :: 0 <= i < |before| && 0 <= j < |before[i]| && Point(i, j) !in marked ==> after[i][j] == before[i][j]
    ensures Changed(before, after) == marked
  {
    forall q | q in marked
      ensures q in Changed(before, after)
    {
      assert Point(q.r, q.c) == q;
    }
  }

  /** A grid that marks a set of empty cells with '-' and keeps the rest changes exactly those cells. */
  lemma BlockedCells(before: Grid, after: Grid, blocked: set<Point>, rows: int, cols: int)
    requires Shaped(before, rows, cols) && Shaped(after, rows, cols)
    requires blocked <= EmptyCells(before)
    requires forall a, b :: 0 <= a < rows && 0 <= b < cols ==>
      after[a][b] == if Point(a, b) in blocked then '-' else before[a][b]
    ensures Changed(before, after) == blocked
    ensures forall q :: q in blocked ==> 0 <= q.r < rows && 0 <= q.c < cols && after[q.r][q.c] == '-'
  {
    ChangedIsMarked(before, after, blocked);
  }

  lemma DiffCard(A: set<Point>, B: set<Point>)
    requires B <= A
    ensures |A - B| == |A| - |B|
  {
    assert A == (A - B) + B;
  }

  /** A record for a fresh, in-range id keeps the record list consistent. */
  lemma AppendKeepsRecordsOk(game: GameConfig, ships: seq<ShipRecord>, rec: ShipRecord)
    requires RecordsOk(game, ships) && !HasId(ships, rec.id)
    requires 0 <= rec.id < game.NShips() && rec.symbol == game.ShipSymbol(rec.id) && rec.timesHit == 0
    ensures RecordsOk(game, ships + [rec])
  {
    var s := ships + [rec];
    forall k, m | 0 <= k < m < |s|
      ensures s[k].id != s[m].id
    {
      if m == |ships| {
        assert s[k] == ships[k];
      }
    }
    DistinctIdsBounded(s, game.NShips());
  }

  lemma EraseKeepsRecordsOk(game: GameConfig, ships: seq<ShipRecord>, k: int)
    requires RecordsOk(game, ships) && 0 <= k < |ships|
    ensures RecordsOk(game, Erase(ships, k))
  {
    var s := Erase(ships, k);
    assert forall j :: 0 <= j < |s| ==> s[j] == if j < k then ships[j] else ships[j + 1];
  }
}
