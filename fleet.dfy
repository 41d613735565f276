/** The fleet configuration and the grid dimensions of one match (Game.cpp). */
module Fleet {

  /** Upper bounds on the grid dimensions (globals.h is not part of this model; 10 is assumed). */
  const MAXROWS: int := 10
  const MAXCOLS: int := 10

  /** A zero-based (row, column) coordinate; validity is relative to a grid. */
  datatype Point = Point(r: int, c: int)

  /** Whether a ship extends along its row (HORIZONTAL) or its column (VERTICAL) from its anchor. */
  datatype Direction = Horizontal | Vertical

  /** One entry of the fleet: GameImpl's `ship` struct. */
  datatype ShipSpec = ShipSpec(length: int, symbol: char, name: string)

  /** The read-only view of a Game that boards and players consult once the fleet is frozen. */
  datatype GameConfig = GameConfig(rows: int, cols: int, ships: seq<ShipSpec>)
  {
    function NShips(): nat { |ships| }

    /** GameImpl::isValid: the point lies inside the rows x cols grid. */
    predicate IsValid(p: Point) { 0 <= p.r < rows && 0 <= p.c < cols }

    /** Game::shipLength asserts that the id is in range before delegating. In a valid game the
        length is one that addShip accepted: at least 1, and no longer than a row or a column. */
    function ShipLength(id: int): (len: int)
      requires 0 <= id < NShips()
      ensures Valid() ==> 1 <= len && (len <= rows || len <= cols)
    {
      ships[id].length
    }

    /** Game::shipSymbol: in a valid game a printable character the board never writes itself. */
    function ShipSymbol(id: int): (sym: char)
      requires 0 <= id < NShips()
      ensures Valid() ==> Printable(sym) && !Reserved(sym)
    {
      ships[id].symbol
    }

    /** Game::shipName: the name the ship was added under (see AddedShipReadsBack). */
    function ShipName(id: int): string
      requires 0 <= id < NShips()
    {
      ships[id].name
    }

    predicate Valid() { FleetOk(rows, cols, ships) }
  }

  /** isascii && isprint: the printable ASCII range from space to tilde. */
  predicate Printable(ch: char) { ' ' <= ch <= '~' }

  /** Markers the board itself writes, which no ship may use as its symbol. */
  predicate Reserved(ch: char) { ch == 'X' || ch == '.' || ch == 'o' }

  /** Sum of the lengths of a fleet. */
  function TotalLength(fleet: seq<ShipSpec>): int
  {
    if |fleet| == 0 then 0 else TotalLength(fleet[..|fleet| - 1]) + fleet[|fleet| - 1].length
  }

  predicate SymbolInUse(fleet: seq<ShipSpec>, symbol: char)
  {
    exists s :: 0 <= s < |fleet| && fleet[s].symbol == symbol
  }

  /** A single ship Game::addShip would let through on a rows x cols grid. */
  predicate ShipOk(rows: int, cols: int, s: ShipSpec)
  {
    1 <= s.length && (s.length <= rows || s.length <= cols)
    && Printable(s.symbol) && !Reserved(s.symbol)
  }

  /** The fleet invariant every sequence of addShip calls keeps. */
  predicate FleetOk(rows: int, cols: int, fleet: seq<ShipSpec>)
  {
    && 1 <= rows <= MAXROWS && 1 <= cols <= MAXCOLS
    && (forall i :: 0 <= i < |fleet| ==> ShipOk(rows, cols, fleet[i]))
    && (forall i, j :: 0 <= i < j < |fleet| ==> fleet[i].symbol != fleet[j].symbol)
    && TotalLength(fleet) <= rows * cols
  }

  /** Why Game::addShip refused a ship, or that it accepted it. */
  datatype AddShipVerdict =
    | Accepted
    | LengthBelowOne
    | LengthTooLong
    | Unprintable
    | ReservedSymbol
    | DuplicateSymbol
    | BoardTooSmall

  /** The checks of Game::addShip, in the order the source makes them: the first failing one decides. */
  function VerdictOf(rows: int, cols: int, fleet: seq<ShipSpec>, length: int, symbol: char): (v: AddShipVerdict)
    ensures v == Accepted <==>
      ShipOk(rows, cols, ShipSpec(length, symbol, [])) && !SymbolInUse(fleet, symbol)
      && TotalLength(fleet) + length <= rows * cols
    ensures v == DuplicateSymbol ==> SymbolInUse(fleet, symbol)
    ensures v == BoardTooSmall ==> TotalLength(fleet) + length > rows * cols
  {
    if length < 1 then LengthBelowOne
    else if length > rows && length > cols then LengthTooLong
    else if !Printable(symbol) then Unprintable
    else if Reserved(symbol) then ReservedSymbol
    else if SymbolInUse(fleet, symbol) then DuplicateSymbol
    else if TotalLength(fleet) + length > rows * cols then BoardTooSmall
    else Accepted
  }

  /** GameImpl::isValid: a point is inside the grid exactly when its column is in range and its
      row-major index r * cols + c lies in 0 .. rows * cols - 1. */
  lemma ValidIsIndexInGrid(game: GameConfig, p: Point)
    ensures game.IsValid(p) <==>
      0 <= p.r && 0 <= p.c < game.cols && p.r * game.cols + p.c < game.rows * game.cols
  {
    if 0 <= p.r && 0 <= p.c < game.cols {
      if p.r < game.rows {
        MulMonotone(p.r + 1, game.rows, game.cols);
        assert (p.r + 1) * game.cols == p.r * game.cols + game.cols;
      } else {
        MulMonotone(game.rows, p.r, game.cols);
      }
    }
  }

  lemma MulMonotone(a: int, b: int, k: int)
    requires a <= b && 0 <= k
    ensures a * k <= b * k
  {
    assert b * k - a * k == (b - a) * k;
  }

  /** What addShip stored is what the accessors return: the new ship gets the next id and its
      length, symbol and name; the ships before it keep theirs. */
  lemma AddedShipReadsBack(rows: int, cols: int, fleet: seq<ShipSpec>, length: int, symbol: char, name: string)
    ensures var g := GameConfig(rows, cols, fleet + [ShipSpec(length, symbol, name)]);
      && g.NShips() == |fleet| + 1
      && g.ShipLength(|fleet|) == length && g.ShipSymbol(|fleet|) == symbol && g.ShipName(|fleet|) == name
      && forall id :: 0 <= id < |fleet| ==>
           g.ShipLength(id) == fleet[id].length && g.ShipSymbol(id) == fleet[id].symbol
           && g.ShipName(id) == fleet[id].name
  {
  }

  /** The validation half of Game::addShip: the single checks, then one pass over the
      fleet that accumulates the total length and stops at a repeated symbol. */
  method CheckShip(rows: int, cols: int, fleet: seq<ShipSpec>, length: int, symbol: char)
    returns (v: AddShipVerdict)
    ensures v == VerdictOf(rows, cols, fleet, length, symbol)
  {
    if length < 1 {
      return LengthBelowOne;
    }
    if length > rows && length > cols {
      return LengthTooLong;
    }
    if !Printable(symbol) {
      return Unprintable;
    }
    if symbol == 'X' || symbol == '.' || symbol == 'o' {
      return ReservedSymbol;
    }
    var totalOfLengths := 0;
    var s := 0;
    while s < |fleet|
      invariant 0 <= s <= |fleet|
      invariant totalOfLengths == TotalLength(fleet[..s])
      invariant forall k :: 0 <= k < s ==> fleet[k].symbol != symbol
    {
      assert fleet[..s + 1][..s] == fleet[..s];
      totalOfLengths := totalOfLengths + fleet[s].length;
      if fleet[s].symbol == symbol {
        return DuplicateSymbol;
      }
      s := s + 1;
    }
    assert fleet[..s] == fleet;
    if totalOfLengths + length > rows * cols {
      return BoardTooSmall;
    }
    return Accepted;
  }

  /** An accepted ship keeps the fleet invariant: distinct symbols, good lengths, room on the grid. */
  lemma {:induction false} AcceptedKeepsFleetOk(rows: int, cols: int, fleet: seq<ShipSpec>, s: ShipSpec)
    requires FleetOk(rows, cols, fleet)
    requires VerdictOf(rows, cols, fleet, s.length, s.symbol) == Accepted
    ensures FleetOk(rows, cols, fleet + [s])
  {
    var f := fleet + [s];
    assert f[..|f| - 1] == fleet;
    assert TotalLength(f) == TotalLength(fleet) + s.length;
    forall i, j | 0 <= i < j < |f|
      ensures f[i].symbol != f[j].symbol
    {
      if j == |fleet| {
        assert f[i] == fleet[i];
      }
    }
  }

  /** The Game object: fixed dimensions and a fleet that only grows. */
  class Game {
    const rows: int
    const cols: int
    var ships: seq<ShipSpec>

    ghost predicate Valid()
      reads this
    {
      FleetOk(rows, cols, ships)
    }

    /** Game::Game exits the process unless 1 <= rows <= MAXROWS and 1 <= cols <= MAXCOLS. */
    constructor (nRows: int, nCols: int)
      requires 1 <= nRows <= MAXROWS && 1 <= nCols <= MAXCOLS
      ensures Valid()
      ensures rows == nRows && cols == nCols && ships == []
    {
      rows := nRows;
      cols := nCols;
      ships := [];
    }

    function Config(): GameConfig
      reads this
    {
      GameConfig(rows, cols, ships)
    }

    /** Game::addShip followed by GameImpl::addShip's push_back. */
    method AddShip(length: int, symbol: char, name: string) returns (ok: bool)
      requires Valid()
      modifies this
      ensures Valid()
      ensures ok <==> VerdictOf(rows, cols, old(ships), length, symbol) == Accepted
      ensures ships == if ok then old(ships) + [ShipSpec(length, symbol, name)] else old(ships)
    {
      var v := CheckShip(rows, cols, ships, length, symbol);
      ok := v == Accepted;
      if ok {
        AcceptedKeepsFleetOk(rows, cols, ships, ShipSpec(length, symbol, name));
        ships := ships + [ShipSpec(length, symbol, name)];
      }
    }
  }
}
