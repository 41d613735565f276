/** AwfulPlayer (Player.cpp:15-66): it stacks its ships in column 0 and walks an attack cursor
    backwards through the grid in row-major order. */
module Awful {
  import opened Fleet
  import opened BoardEngine
  import opened BoardProperties
  import opened Placement

  /** The cell before q in row-major order, wrapping from (0, 0) to (rows-1, cols-1). */
  function PrevCell(game: GameConfig, q: Point): Point
  {
    if q.c > 0 then Point(q.r, q.c - 1)
    else if q.r > 0 then Point(q.r - 1, game.cols - 1)
    else Point(game.rows - 1, game.cols - 1)
  }

  /** The row-major position of a cell. */
  function Index(game: GameConfig, q: Point): int
  {
    q.r * game.cols + q.c
  }

  /** The cursor after k calls of recommendAttack, starting from (0, 0). */
  function Cursor(game: GameConfig, k: nat): Point
  {
    if k == 0 then Point(0, 0) else PrevCell(game, Cursor(game, k - 1))
  }

  /** Ships k, k+1, .. placed at (k, 0), (k+1, 0), .. horizontally, stopping at the first refusal;
      the ships placed before a refusal stay on the board. */
  ghost function PlaceRows(game: GameConfig, s: BoardState, k: int): (st: Step)
    requires StateOk(game, s) && 0 <= k <= game.NShips()
    decreases game.NShips() - k
    ensures StateOk(game, st.state)
  {
    if k == game.NShips() then Step(true, s)
    else
      var st := PlaceSpec(game, s, Point(k, 0), k, Horizontal);
      if !st.ok then Step(false, st.state)
      else
        PlaceEffect(game, s, Point(k, 0), k, Horizontal);
        PlaceRows(game, st.state, k + 1)
  }

  /** The cursor never leaves a grid that has at least one cell. */
  lemma PrevCellIsValid(game: GameConfig, q: Point)
    requires 1 <= game.rows && 1 <= game.cols && game.IsValid(q)
    ensures game.IsValid(PrevCell(game, q))
  {
  }

  /** One step back is one position back in row-major order, wrapping from 0 to rows*cols-1. */
  lemma PrevCellIndex(game: GameConfig, q: Point)
    requires 1 <= game.rows && 1 <= game.cols && game.IsValid(q)
    ensures Index(game, PrevCell(game, q)) ==
      if Index(game, q) == 0 then game.rows * game.cols - 1 else Index(game, q) - 1
  {
    RowMajorBound(game, q);
    if q.c == 0 && q.r > 0 {
      MulSucc(q.r - 1, game.cols);
    } else if q.c == 0 {
      MulSucc(game.rows - 1, game.cols);
    }
  }

  /** (a + 1) * b unfolds to a * b + b. */
  lemma MulSucc(a: int, b: int)
    ensures (a + 1) * b == a * b + b
  {
  }

  /** Multiplying by a non-negative factor keeps a strict order between rows once widened by it. */
  lemma MulBelow(a: int, b: int, c: int)
    requires a < b && 0 <= c
    ensures a * c + c <= b * c
  {
    MulSucc(a, c);
    MulMonotone(a + 1, b, c);
  }

  /** A valid cell has a row-major position in [0, rows*cols), and position 0 is (0, 0). */
  lemma RowMajorBound(game: GameConfig, q: Point)
    requires game.IsValid(q)
    ensures 0 <= Index(game, q) < game.rows * game.cols
    ensures Index(game, q) == 0 <==> q == Point(0, 0)
  {
    MulMonotone(0, q.r, game.cols);
    MulBelow(q.r, game.rows, game.cols);
    if q.r > 0 {
      MulBelow(0, q.r, game.cols);
    }
  }

  /** Distinct valid cells have distinct row-major positions. */
  lemma IndexInjective(game: GameConfig, a: Point, b: Point)
    requires game.IsValid(a) && game.IsValid(b) && Index(game, a) == Index(game, b)
    ensures a == b
  {
    if a.r < b.r {
      MulBelow(a.r, b.r, game.cols);
    } else if b.r < a.r {
      MulBelow(b.r, a.r, game.cols);
    }
  }

  /** The k-th returned cell, for 1 <= k <= rows*cols, is the cell at position rows*cols - k. */
  lemma {:induction false} CursorIndex(game: GameConfig, k: nat)
    requires 1 <= game.rows && 1 <= game.cols && k <= game.rows * game.cols
    ensures game.IsValid(Cursor(game, k))
    ensures Index(game, Cursor(game, k)) == if k == 0 then 0 else game.rows * game.cols - k
  {
    if k > 0 {
      CursorIndex(game, k - 1);
      PrevCellIsValid(game, Cursor(game, k - 1));
      PrevCellIndex(game, Cursor(game, k - 1));
    }
  }

  /** Starting from (0, 0), the first rows*cols recommendations are valid and pairwise distinct
      (CursorReaches shows that together they cover the grid). */
  lemma CursorNeverRepeats(game: GameConfig)
    requires 1 <= game.rows && 1 <= game.cols
    ensures forall i :: 1 <= i <= game.rows * game.cols ==> game.IsValid(Cursor(game, i))
    ensures forall i, j :: 1 <= i < j <= game.rows * game.cols ==> Cursor(game, i) != Cursor(game, j)
  {
    forall i | 1 <= i <= game.rows * game.cols
      ensures game.IsValid(Cursor(game, i))
    {
      CursorIndex(game, i);
    }
    forall i, j | 1 <= i < j <= game.rows * game.cols
      ensures Cursor(game, i) != Cursor(game, j)
    {
      CursorIndex(game, i);
      CursorIndex(game, j);
    }
  }

  /** Every valid cell q is returned by call number rows*cols - Index(q). */
  lemma CursorReaches(game: GameConfig, q: Point)
    requires 1 <= game.rows && 1 <= game.cols && game.IsValid(q)
    ensures 1 <= game.rows * game.cols - Index(game, q) <= game.rows * game.cols
    ensures Cursor(game, game.rows * game.cols - Index(game, q)) == q
  {
    RowMajorBound(game, q);
    var k: nat := game.rows * game.cols - Index(game, q);
    CursorIndex(game, k);
    IndexInjective(game, Cursor(game, k), q);
  }

  /** The cursor is periodic: every rows*cols calls it is back where it was, so the walk
      revisits each cell once per rows*cols calls. */
  lemma {:induction false} CursorPeriodic(game: GameConfig, k: nat)
    requires 1 <= game.rows && 1 <= game.cols
    ensures Cursor(game, k + game.rows * game.cols) == Cursor(game, k)
  {
    if k == 0 {
      CursorIndex(game, game.rows * game.cols);
      RowMajorBound(game, Cursor(game, game.rows * game.cols));
    } else {
      CursorPeriodic(game, k - 1);
      assert Cursor(game, k + game.rows * game.cols) == PrevCell(game, Cursor(game, k - 1 + game.rows * game.cols));
    }
  }

  /** A complete column-0 placement lays the ships down in id order, unhit. */
  lemma {:induction false} PlaceRowsAppends(game: GameConfig, s: BoardState, k: int)
    requires StateOk(game, s) && 0 <= k <= game.NShips()
    decreases game.NShips() - k
    ensures PlaceRows(game, s, k).ok ==> AppendedInOrder(game, s.ships, PlaceRows(game, s, k).state.ships, k)
    ensures !PlaceRows(game, s, k).ok ==> |PlaceRows(game, s, k).state.ships| < |s.ships| + (game.NShips() - k)
  {
    if k < game.NShips() {
      var st := PlaceSpec(game, s, Point(k, 0), k, Horizontal);
      if st.ok {
        assert PlaceRows(game, s, k) == PlaceRows(game, st.state, k + 1);
        assert st.state.ships == s.ships + [ShipRecord(game.ShipSymbol(k), 0, k)];
        PlaceRowsAppends(game, st.state, k + 1);
        if PlaceRows(game, s, k).ok {
          AppendedStep(game, s.ships, PlaceRows(game, s, k).state.ships, k);
        }
      } else {
        assert PlaceRows(game, s, k) == Step(false, s);
      }
    } else {
      assert PlaceRows(game, s, k) == Step(true, s);
      assert s.ships[..|s.ships|] == s.ships;
    }
  }

  class AwfulPlayer {
    const game: GameConfig
    var last: Point

    /** AwfulPlayer::AwfulPlayer: the cursor starts at (0, 0). */
    constructor (g: GameConfig)
      ensures game == g && last == Point(0, 0)
    {
      game := g;
      last := Point(0, 0);
    }

    /** AwfulPlayer::placeShips: ship k at (k, 0), horizontally, in id order; false at the first
        refusal, leaving the ships placed so far on the board. */
    method PlaceShips(b: Board) returns (ok: bool)
      requires b.Valid()
      modifies b, b.grid
      ensures b.Valid()
      ensures Step(ok, b.State()) == PlaceRows(b.game, old(b.State()), 0)
    {
      ghost var s0 := b.State();
      var k := 0;
      while k < b.game.NShips()
        invariant 0 <= k <= b.game.NShips()
        invariant b.Valid()
        invariant PlaceRows(b.game, s0, 0) == PlaceRows(b.game, b.State(), k)
      {
        ghost var before := b.State();
        var placed := b.PlaceShip(Point(k, 0), k, Horizontal);
        if !placed {
          return false;
        }
        PlaceEffect(b.game, before, Point(k, 0), k, Horizontal);
        k := k + 1;
      }
      return true;
    }

    /** AwfulPlayer::recommendAttack: step the cursor one cell back and return it. */
    method RecommendAttack() returns (p: Point)
      modifies this
      ensures last == PrevCell(game, old(last)) && p == last
    {
      if last.c > 0 {
        last := last.(c := last.c - 1);
      } else {
        last := last.(c := game.cols - 1);
        if last.r > 0 {
          last := last.(r := last.r - 1);
        } else {
          last := last.(r := game.rows - 1);
        }
      }
      p := last;
    }
  }
}
