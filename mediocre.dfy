/** MediocrePlayer (Player.cpp:197-380): random fresh shots until a hit, then random shots along
    the radius-4 cross around the first hit until the ship sinks or the cross runs out. */
module Mediocre {
  import opened Fleet

  /** The i-th cell (0 <= i < 9) of the cross's row arm: same row as ctr, column ctr.c - 4 + i. */
  function RowArm(ctr: Point, i: int): Point { Point(ctr.r, ctr.c - 4 + i) }

  /** The i-th cell (0 <= i < 9) of the cross's column arm: same column as ctr, row ctr.r - 4 + i. */
  function ColArm(ctr: Point, i: int): Point { Point(ctr.r - 4 + i, ctr.c) }

  /** q lies in ctr's row or column, at most 4 cells away from ctr. */
  predicate InCross(ctr: Point, q: Point)
  {
    (q.r == ctr.r && -4 <= q.c - ctr.c <= 4) || (q.c == ctr.c && -4 <= q.r - ctr.r <= 4)
  }

  /** A cell worth attacking: on the grid and not attacked before. */
  predicate Fresh(game: GameConfig, prev: seq<Point>, q: Point)
  {
    game.IsValid(q) && q !in prev
  }

  /** The cell recommendAttack tries in state 2 for a draw of direction (0 or 1) and displacement. */
  function CrossTry(ctr: Point, direction: int, displacement: int): Point
  {
    if direction == 0 then Point(ctr.r + displacement, ctr.c) else Point(ctr.r, ctr.c + displacement)
  }

  function Tally(game: GameConfig, prev: seq<Point>, q: Point): nat
  {
    if Fresh(game, prev, q) then 1 else 0
  }

  /** What the counting loop of recordAttackResult has added after its first n rounds: one for
      each fresh cell among the first n cells of each arm (the centre is on both arms). */
  function CrossCountUpTo(game: GameConfig, ctr: Point, prev: seq<Point>, n: nat): nat
  {
    if n == 0 then 0
    else
      CrossCountUpTo(game, ctr, prev, n - 1)
      + Tally(game, prev, RowArm(ctr, n - 1)) + Tally(game, prev, ColArm(ctr, n - 1))
  }

  /** The crossPoints value recordAttackResult computes around ctr. */
  function CrossCount(game: GameConfig, ctr: Point, prev: seq<Point>): nat
  {
    CrossCountUpTo(game, ctr, prev, 9)
  }

  /** How many of the 18 enumerated cross cells are q: two for the centre, one for another cross cell. */
  function Occurrences(ctr: Point, q: Point): nat
  {
    if q == ctr then 2 else if InCross(ctr, q) then 1 else 0
  }

  /** How many of the first n cells of each arm are q. */
  function HitsUpTo(ctr: Point, q: Point, n: nat): nat
  {
    if n == 0 then 0
    else
      HitsUpTo(ctr, q, n - 1) + (if RowArm(ctr, n - 1) == q then 1 else 0)
      + (if ColArm(ctr, n - 1) == q then 1 else 0)
  }

  lemma {:induction false} HitsUpToCount(ctr: Point, q: Point, n: nat)
    ensures HitsUpTo(ctr, q, n) ==
      (if q.r == ctr.r && 0 <= q.c - ctr.c + 4 < n then 1 else 0)
      + (if q.c == ctr.c && 0 <= q.r - ctr.r + 4 < n then 1 else 0)
  {
    if n > 0 {
      HitsUpToCount(ctr, q, n - 1);
    }
  }

  /** Attacking a fresh cell q lowers each partial count by the number of times q was counted. */
  lemma {:induction false} CrossCountUpToAfterMove(game: GameConfig, ctr: Point, prev: seq<Point>, q: Point, n: nat)
    requires Fresh(game, prev, q)
    ensures CrossCountUpTo(game, ctr, prev + [q], n) + HitsUpTo(ctr, q, n) == CrossCountUpTo(game, ctr, prev, n)
  {
    if n > 0 {
      CrossCountUpToAfterMove(game, ctr, prev, q, n - 1);
    }
  }

  /** Attacking a fresh cell lowers the cross count by one for a cross cell other than the centre,
      by two for the centre, and leaves it alone for a cell off the cross. */
  lemma CrossCountAfterMove(game: GameConfig, ctr: Point, prev: seq<Point>, q: Point)
    requires Fresh(game, prev, q)
    ensures CrossCount(game, ctr, prev + [q]) + Occurrences(ctr, q) == CrossCount(game, ctr, prev)
  {
    CrossCountUpToAfterMove(game, ctr, prev, q, 9);
    HitsUpToCount(ctr, q, 9);
  }

  /** The partial count is positive exactly when one of the first n cells of an arm is fresh. */
  lemma {:induction false} CrossCountUpToPositive(game: GameConfig, ctr: Point, prev: seq<Point>, n: nat)
    ensures CrossCountUpTo(game, ctr, prev, n) > 0 <==>
      exists i :: 0 <= i < n && (Fresh(game, prev, RowArm(ctr, i)) || Fresh(game, prev, ColArm(ctr, i)))
  {
    if n > 0 {
      CrossCountUpToPositive(game, ctr, prev, n - 1);
      if Fresh(game, prev, RowArm(ctr, n - 1)) || Fresh(game, prev, ColArm(ctr, n - 1)) {
        assert 0 <= n - 1 < n;
      }
    }
  }

  /** The cross count is positive exactly when a fresh cell remains on the cross; with a count of
      zero the state-2 search of recommendAttack has nothing left to find. */
  lemma CrossCountPositive(game: GameConfig, ctr: Point, prev: seq<Point>)
    ensures CrossCount(game, ctr, prev) > 0 <==> exists q :: InCross(ctr, q) && Fresh(game, prev, q)
  {
    CrossCountUpToPositive(game, ctr, prev, 9);
    if CrossCount(game, ctr, prev) > 0 {
      var i :| 0 <= i < 9 && (Fresh(game, prev, RowArm(ctr, i)) || Fresh(game, prev, ColArm(ctr, i)));
      assert InCross(ctr, RowArm(ctr, i)) && InCross(ctr, ColArm(ctr, i));
    }
    if q :| InCross(ctr, q) && Fresh(game, prev, q) {
      if q.r == ctr.r && -4 <= q.c - ctr.c <= 4 {
        assert q == RowArm(ctr, q.c - ctr.c + 4);
      } else {
        assert q == ColArm(ctr, q.r - ctr.r + 4);
      }
    }
  }

  /** The fresh cells among the first n cells of each arm, as a set (the centre once). */
  ghost function ArmCells(game: GameConfig, ctr: Point, prev: seq<Point>, n: nat): set<Point>
  {
    if n == 0 then {}
    else
      ArmCells(game, ctr, prev, n - 1)
      + (if Fresh(game, prev, RowArm(ctr, n - 1)) then {RowArm(ctr, n - 1)} else {})
      + (if Fresh(game, prev, ColArm(ctr, n - 1)) then {ColArm(ctr, n - 1)} else {})
  }

  lemma {:induction false} ArmCellsHas(game: GameConfig, ctr: Point, prev: seq<Point>, n: nat, q: Point)
    ensures q in ArmCells(game, ctr, prev, n) <==>
      (Fresh(game, prev, q) && ((q.r == ctr.r && 0 <= q.c - ctr.c + 4 < n) || (q.c == ctr.c && 0 <= q.r - ctr.r + 4 < n)))
  {
    if n > 0 {
      ArmCellsHas(game, ctr, prev, n - 1, q);
    }
  }

  /** The fresh cells of the cross of radius 4 around ctr. */
  ghost function FreshCross(game: GameConfig, ctr: Point, prev: seq<Point>): (cells: set<Point>)
    ensures forall q :: q in cells <==> InCross(ctr, q) && Fresh(game, prev, q)
  {
    forall q ensures q in ArmCells(game, ctr, prev, 9) <==> InCross(ctr, q) && Fresh(game, prev, q) {
      ArmCellsHas(game, ctr, prev, 9, q);
    }
    ArmCells(game, ctr, prev, 9)
  }

  /** Each round of the counting loop adds the fresh cells it meets; the centre is met on both
      arms, in round 4, and counted twice. */
  lemma {:induction false} CrossCountUpToCells(game: GameConfig, ctr: Point, prev: seq<Point>, n: nat)
    requires n <= 9
    ensures CrossCountUpTo(game, ctr, prev, n) ==
      |ArmCells(game, ctr, prev, n)| + (if n > 4 then Tally(game, prev, ctr) else 0)
  {
    if n > 0 {
      var m := n - 1;
      CrossCountUpToCells(game, ctr, prev, m);
      var before := ArmCells(game, ctr, prev, m);
      var row := RowArm(ctr, m);
      var col := ColArm(ctr, m);
      ArmCellsHas(game, ctr, prev, m, row);
      ArmCellsHas(game, ctr, prev, m, col);
      var rowPart: set<Point> := if Fresh(game, prev, row) then {row} else {};
      var colPart: set<Point> := if Fresh(game, prev, col) then {col} else {};
      assert ArmCells(game, ctr, prev, n) == before + rowPart + colPart;
      assert |before + rowPart| == |before| + Tally(game, prev, row);
      if m == 4 {
        assert row == ctr && col == ctr;
        assert before + rowPart + colPart == before + rowPart;
      } else {
        assert row != col && col !in before + rowPart;
        assert |before + rowPart + colPart| == |before + rowPart| + Tally(game, prev, col);
      }
    }
  }

  /** The count recordAttackResult computes is the number of fresh cells of the cross, with the
      centre counted a second time when it is fresh. */
  lemma CrossCountCells(game: GameConfig, ctr: Point, prev: seq<Point>)
    ensures CrossCount(game, ctr, prev) == |FreshCross(game, ctr, prev)| + Tally(game, prev, ctr)
  {
    CrossCountUpToCells(game, ctr, prev, 9);
  }

  class MediocrePlayer {
    const game: GameConfig
    var prevMoves: seq<Point>
    var playerState: int
    var crossPoints: int
    var center: Point
    /** Whether center had not been attacked when the cross was counted; it is then counted twice
        but only one decrement follows when it is attacked. */
    ghost var centerFresh: bool

    /** crossPoints in state 2 is the cross count, plus one once a centre counted twice is attacked. */
    ghost predicate Valid()
      reads this
    {
      && game.Valid()
      && (playerState == 1 || playerState == 2)
      && (playerState == 2 ==>
            && (!centerFresh ==> center in prevMoves)
            && crossPoints == CrossCount(game, center, prevMoves) + Surplus())
    }

    ghost function Surplus(): nat
      reads this
    {
      if centerFresh && center in prevMoves then 1 else 0
    }

    /** MediocrePlayer::MediocrePlayer: state 1, no cross. The source leaves center unset; here it
        is a parameter. */
    constructor (g: GameConfig, initialCenter: Point)
      requires g.Valid()
      ensures Valid()
      ensures game == g && prevMoves == [] && playerState == 1 && crossPoints == 0 && center == initialCenter
    {
      game := g;
      prevMoves := [];
      playerState := 1;
      crossPoints := 0;
      center := initialCenter;
      centerFresh := false;
    }

    /** MediocrePlayer::newPoint: a scan of prevMoves. */
    method NewPoint(p: Point) returns (b: bool)
      ensures b <==> p !in prevMoves
    {
      var i := 0;
      while i < |prevMoves|
        invariant 0 <= i <= |prevMoves|
        invariant forall k :: 0 <= k < i ==> prevMoves[k] != p
      {
        if p.r == prevMoves[i].r && p.c == prevMoves[i].c {
          return false;
        }
        i := i + 1;
      }
      return true;
    }

    /** MediocrePlayer::recommendAttack. The source redraws until it finds an acceptable cell and
        never stops otherwise, so a fresh acceptable cell must exist; the draw that ends the loop is
        chosen nondeterministically. */
    method RecommendAttack() returns (p: Point)
      requires Valid()
      requires playerState == 1 ==> exists q :: Fresh(game, prevMoves, q)
      requires playerState == 2 ==> exists q :: InCross(center, q) && Fresh(game, prevMoves, q)
      modifies this
      ensures Valid()
      ensures Fresh(game, old(prevMoves), p) && prevMoves == old(prevMoves) + [p]
      ensures playerState == old(playerState) && center == old(center)
      ensures old(playerState) == 1 ==> crossPoints == old(crossPoints)
      ensures old(playerState) == 2 ==> InCross(center, p) && crossPoints == old(crossPoints) - 1
    {
      if playerState == 1 {
        ghost var q :| Fresh(game, prevMoves, q);
        assert Point(q.r, q.c) == q;
        var r, c :| Fresh(game, prevMoves, Point(r, c));
        p := Point(r, c);
      } else {
        ghost var q :| InCross(center, q) && Fresh(game, prevMoves, q);
        if q.c == center.c && -4 <= q.r - center.r <= 4 {
          assert CrossTry(center, 0, q.r - center.r) == q;
        } else {
          assert CrossTry(center, 1, q.c - center.c) == q;
        }
        var direction, displacement :| 0 <= direction < 2 && -4 <= displacement <= 4
          && Fresh(game, prevMoves, CrossTry(center, direction, displacement));
        p := CrossTry(center, direction, displacement);
        CrossCountAfterMove(game, center, prevMoves, p);
        crossPoints := crossPoints - 1;
      }
      prevMoves := prevMoves + [p];
    }

    /** MediocrePlayer::recordAttackResult: validShot and shipId are not consulted. A miss
        changes nothing, even when the cross has run dry. */
    method RecordAttackResult(p: Point, validShot: bool, shotHit: bool, shipDestroyed: bool, shipId: int)
      requires Valid()
      modifies this
      ensures Valid()
      ensures prevMoves == old(prevMoves)
      ensures !shotHit ==>
        playerState == old(playerState) && crossPoints == old(crossPoints) && center == old(center)
      ensures shotHit && shipDestroyed ==>
        playerState == 1 && crossPoints == old(crossPoints) && center == old(center)
      ensures shotHit && !shipDestroyed && old(playerState) == 1 ==>
        center == p && crossPoints == CrossCount(game, p, prevMoves)
      ensures shotHit && !shipDestroyed && old(playerState) == 2 ==>
        center == old(center) && crossPoints == old(crossPoints)
      ensures shotHit && !shipDestroyed ==> playerState == if crossPoints == 0 then 1 else 2
    {
      if shotHit {
        if shipDestroyed {
          playerState := 1;
          return;
        }
        if playerState == 1 {
          center := p;
          centerFresh := p !in prevMoves;
          crossPoints := 0;
          var i := 0;
          while i < 9
            invariant 0 <= i <= 9
            invariant center == p && prevMoves == old(prevMoves) && playerState == old(playerState)
            invariant centerFresh == (p !in prevMoves)
            invariant crossPoints == CrossCountUpTo(game, center, prevMoves, i)
          {
            var rowFresh := NewPoint(Point(center.r, center.c - 4 + i));
            if game.IsValid(Point(center.r, center.c - 4 + i)) && rowFresh {
              crossPoints := crossPoints + 1;
            }
            var colFresh := NewPoint(Point(center.r - 4 + i, center.c));
            if game.IsValid(Point(center.r - 4 + i, center.c)) && colFresh {
              crossPoints := crossPoints + 1;
            }
            i := i + 1;
          }
          playerState := 2;
        }
        if crossPoints == 0 {
          playerState := 1;
        }
      }
    }
  }

  /** In state 2 the search of recommendAttack can succeed exactly when crossPoints exceeds the
      surplus left by a twice-counted centre; with crossPoints == 0 it can never succeed, which a
      miss leaves in place (the reset to state 1 sits only in the hit branch). */
  lemma StateTwoHasCandidate(game: GameConfig, center: Point, prev: seq<Point>, crossPoints: int, surplus: nat)
    requires crossPoints == CrossCount(game, center, prev) + surplus
    ensures crossPoints > surplus <==> exists q :: InCross(center, q) && Fresh(game, prev, q)
  {
    CrossCountPositive(game, center, prev);
  }
}
