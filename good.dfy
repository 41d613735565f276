/** GoodPlayer (Player.cpp:386-789): a belief grid of what each of its shots revealed, and a
    three-state hunt: scan (1), find the direction around a hit (2), follow the ship's line (3). */
module Good {
  import opened Fleet

  /** The belief grid m_board: MAXROWS x MAXCOLS cells holding one of the four markers below. */
  type Beliefs = seq<seq<int>>

  const UNKNOWN: int := 0
  const MISS: int := 1
  const HIT: int := 2
  const SUNK: int := 3

  /** The cell lies inside the MAXROWS x MAXCOLS array. */
  predicate InBox(q: Point)
  {
    0 <= q.r < MAXROWS && 0 <= q.c < MAXCOLS
  }

  predicate Boxed(g: Beliefs)
  {
    |g| == MAXROWS && forall i :: 0 <= i < |g| ==> |g[i]| == MAXCOLS
  }

  /** Every cell of the array holds one of the four markers. */
  predicate Markers(g: Beliefs)
    requires Boxed(g)
  {
    forall r, c :: 0 <= r < MAXROWS && 0 <= c < MAXCOLS ==> UNKNOWN <= g[r][c] <= SUNK
  }

  function Put(g: Beliefs, q: Point, v: int): (h: Beliefs)
    requires Boxed(g) && InBox(q)
    ensures Boxed(h)
    ensures forall r, c :: 0 <= r < MAXROWS && 0 <= c < MAXCOLS ==>
      h[r][c] == if r == q.r && c == q.c then v else g[r][c]
  {
    g[q.r := g[q.r][q.c := v]]
  }

  /** Two belief grids with the same cells are the same grid. */
  lemma BeliefsExt(a: Beliefs, b: Beliefs)
    requires Boxed(a) && Boxed(b)
    requires forall r, c :: 0 <= r < MAXROWS && 0 <= c < MAXCOLS ==> a[r][c] == b[r][c]
    ensures a == b
  {
    forall r | 0 <= r < MAXROWS
      ensures a[r] == b[r]
    {
    }
  }

  /** The direction recordAttackResult infers for a sunk ship: VERTICAL when the sinking shot is
      in end1's column. */
  function SinkDir(end1: Point, p: Point): Direction
  {
    if end1.c == p.c then Vertical else Horizontal
  }

  /** Whether the sunk run extends from p towards larger indices (p before end1) or smaller ones. */
  function SinkForward(d: Direction, end1: Point, p: Point): bool
  {
    if d == Vertical then p.r < end1.r else p.c < end1.c
  }

  /** The i-th cell recordAttackResult marks as sunk. */
  function SinkCell(p: Point, d: Direction, forward: bool, i: int): Point
  {
    match d
    case Vertical => if forward then Point(p.r + i, p.c) else Point(p.r - i, p.c)
    case Horizontal => if forward then Point(p.r, p.c + i) else Point(p.r, p.c - i)
  }

  /** q is one of the first len cells of the sunk run from p. */
  predicate InSink(q: Point, p: Point, d: Direction, forward: bool, len: int)
  {
    match d
    case Vertical => q.c == p.c && (if forward then p.r <= q.r < p.r + len else p.r - len < q.r <= p.r)
    case Horizontal => q.r == p.r && (if forward then p.c <= q.c < p.c + len else p.c - len < q.c <= p.c)
  }

  /** Every cell the marking loop writes lies inside the array. */
  predicate SinkFits(p: Point, d: Direction, forward: bool, len: int)
  {
    forall i :: 0 <= i < len ==> InBox(SinkCell(p, d, forward, i))
  }

  /** g with the first len cells of the sunk run marked SUNK. */
  function Sink(g: Beliefs, p: Point, d: Direction, forward: bool, len: int): (h: Beliefs)
    requires Boxed(g)
    ensures Boxed(h)
    ensures forall r, c :: 0 <= r < MAXROWS && 0 <= c < MAXCOLS ==>
      h[r][c] == if InSink(Point(r, c), p, d, forward, len) then SUNK else g[r][c]
  {
    seq(MAXROWS, r requires 0 <= r < MAXROWS =>
      seq(MAXCOLS, c requires 0 <= c < MAXCOLS =>
        if InSink(Point(r, c), p, d, forward, len) then SUNK else g[r][c]))
  }

  /** Some cell of the rows x cols grid is still believed hit but not sunk. */
  predicate OpenHit(game: GameConfig, g: Beliefs)
    requires Boxed(g) && game.rows <= MAXROWS && game.cols <= MAXCOLS
  {
    exists r, c :: 0 <= r < game.rows && 0 <= c < game.cols && g[r][c] == HIT
  }

  /** Everything GoodPlayer remembers between calls. */
  datatype Memory = Memory(
    belief: Beliefs,
    playerState: int,
    numMoves: int,
    dir: Direction,
    end1: Point,
    end2: Point,
    end1Reached: bool,
    end2Reached: bool,
    falseDestruction: bool)

  /** The invariant GoodPlayer keeps: markers only, a known state, both endpoints on the grid, and
      no pending "odd" sinking while scanning. */
  predicate MemoryOk(game: GameConfig, m: Memory)
  {
    && game.Valid()
    && Boxed(m.belief) && Markers(m.belief)
    && 1 <= m.playerState <= 3
    && game.IsValid(m.end1) && game.IsValid(m.end2)
    && (m.playerState == 1 ==> !m.falseDestruction)
  }

  /** What recordAttackResult relies on: a valid shot is on the grid, and a sinking shot names a
      ship whose marked run stays inside the array (the source writes it without checks). */
  predicate RecordPre(game: GameConfig, m: Memory, p: Point, validShot: bool, shotHit: bool,
                      shipDestroyed: bool, shipId: int)
  {
    && (validShot ==> game.IsValid(p))
    && (validShot && shotHit && shipDestroyed ==>
          && 0 <= shipId < game.NShips()
          && SinkFits(p, SinkDir(m.end1, p), SinkForward(SinkDir(m.end1, p), m.end1, p), game.ShipLength(shipId)))
  }

  /** In state 3, whether each end of the line is now closed: at the grid edge or next to a miss. */
  function EndsClosed(game: GameConfig, g: Beliefs, d: Direction, e1: Point, e2: Point): (bool, bool)
    requires MemoryOk(game, Memory(g, 3, 0, d, e1, e2, false, false, false))
  {
    match d
    case Horizontal =>
      (e1.c == 0 || g[e1.r][e1.c - 1] == MISS, e2.c == game.cols - 1 || g[e2.r][e2.c + 1] == MISS)
    case Vertical =>
      (e1.r == 0 || g[e1.r - 1][e1.c] == MISS, e2.r == game.rows - 1 || g[e2.r + 1][e2.c] == MISS)
  }

  /** GoodPlayer::recordAttackResult on the player's memory. */
  function RecordSpec(game: GameConfig, m: Memory, p: Point, validShot: bool, shotHit: bool,
                      shipDestroyed: bool, shipId: int): Memory
    requires MemoryOk(game, m) && RecordPre(game, m, p, validShot, shotHit, shipDestroyed, shipId)
  {
    if !validShot then m
    else if !shotHit then m.(belief := Put(m.belief, p, MISS))
    else if shipDestroyed then
      var d := SinkDir(m.end1, p);
      var g := Sink(m.belief, p, d, SinkForward(d, m.end1, p), game.ShipLength(shipId));
      var fd := m.falseDestruction && OpenHit(game, g);
      m.(belief := g, dir := d, falseDestruction := fd, end1Reached := false, end2Reached := false,
         playerState := if fd then 2 else 1)
    else
      var g := Put(m.belief, p, HIT);
      if m.playerState == 1 then
        m.(belief := g, playerState := 2, end1 := p, end2 := p)
      else if m.playerState == 2 then
        if p.r < m.end1.r then m.(belief := g, end1 := m.end1.(r := p.r), dir := Vertical, playerState := 3)
        else if p.r > m.end1.r then m.(belief := g, end2 := m.end2.(r := p.r), dir := Vertical, playerState := 3)
        else if p.c < m.end1.c then m.(belief := g, end1 := m.end1.(c := p.c), dir := Horizontal, playerState := 3)
        else m.(belief := g, end2 := m.end2.(c := p.c), dir := Horizontal, playerState := 3)
      else FollowSpec(game, m, p)
  }

  /** A non-sinking hit in state 3: record HIT, close each end that reached the edge or a miss,
      move end1 to p while it is open and end2 otherwise, and fall back to state 2 once both ends
      are closed. */
  function FollowSpec(game: GameConfig, m: Memory, p: Point): Memory
    requires MemoryOk(game, m) && m.playerState == 3 && game.IsValid(p)
  {
    var g := Put(m.belief, p, HIT);
    var closed := EndsClosed(game, g, m.dir, m.end1, m.end2);
    var r1 := m.end1Reached || closed.0;
    var r2 := m.end2Reached || closed.1;
    var m2 := if !r1 then m.(belief := g, end1 := p, end1Reached := r1, end2Reached := r2)
              else m.(belief := g, end2 := p, end1Reached := r1, end2Reached := r2);
    if r1 && r2 then m2.(falseDestruction := true, playerState := 2) else m2
  }

  /** recordAttackResult keeps the player's invariant. */
  lemma RecordKeepsMemoryOk(game: GameConfig, m: Memory, p: Point, validShot: bool, shotHit: bool,
                            shipDestroyed: bool, shipId: int)
    requires MemoryOk(game, m) && RecordPre(game, m, p, validShot, shotHit, shipDestroyed, shipId)
    ensures MemoryOk(game, RecordSpec(game, m, p, validShot, shotHit, shipDestroyed, shipId))
  {
  }

  /** An invalid shot is ignored; a miss records MISS at p and changes nothing else. */
  lemma RecordMiss(game: GameConfig, m: Memory, p: Point, validShot: bool, shipDestroyed: bool, shipId: int)
    requires MemoryOk(game, m) && RecordPre(game, m, p, validShot, false, shipDestroyed, shipId)
    ensures var m2 := RecordSpec(game, m, p, validShot, false, shipDestroyed, shipId);
      && m2.(belief := m.belief) == m
      && (validShot ==> m2.belief[p.r][p.c] == MISS)
      && forall r, c :: 0 <= r < MAXROWS && 0 <= c < MAXCOLS && (!validShot || Point(r, c) != p) ==>
           m2.belief[r][c] == m.belief[r][c]
  {
  }

  /** A sinking hit marks exactly the shipLength(shipId) cells of the run from p as SUNK, clears
      both reached-flags, and goes back to scanning unless an "odd" sinking leaves a HIT cell. */
  lemma RecordSink(game: GameConfig, m: Memory, p: Point, shipId: int)
    requires MemoryOk(game, m) && RecordPre(game, m, p, true, true, true, shipId)
    ensures var m2 := RecordSpec(game, m, p, true, true, true, shipId);
      var d := SinkDir(m.end1, p);
      var fwd := SinkForward(d, m.end1, p);
      var len := game.ShipLength(shipId);
      && (forall i :: 0 <= i < len ==> m2.belief[SinkCell(p, d, fwd, i).r][SinkCell(p, d, fwd, i).c] == SUNK)
      && (forall r, c :: 0 <= r < MAXROWS && 0 <= c < MAXCOLS && m2.belief[r][c] != m.belief[r][c] ==>
            exists i :: 0 <= i < len && SinkCell(p, d, fwd, i) == Point(r, c))
      && !m2.end1Reached && !m2.end2Reached
      && m2.playerState == (if m.falseDestruction && OpenHit(game, m2.belief) then 2 else 1)
      && m2.end1 == m.end1 && m2.end2 == m.end2 && m2.numMoves == m.numMoves
  {
    var d := SinkDir(m.end1, p);
    var fwd := SinkForward(d, m.end1, p);
    var len := game.ShipLength(shipId);
    var m2 := RecordSpec(game, m, p, true, true, true, shipId);
    forall i | 0 <= i < len
      ensures InSink(SinkCell(p, d, fwd, i), p, d, fwd, len)
    {
    }
    forall r, c | 0 <= r < MAXROWS && 0 <= c < MAXCOLS && m2.belief[r][c] != m.belief[r][c]
      ensures exists i :: 0 <= i < len && SinkCell(p, d, fwd, i) == Point(r, c)
    {
      var i := match d
        case Vertical => if fwd then r - p.r else p.r - r
        case Horizontal => if fwd then c - p.c else p.c - c;
      assert SinkCell(p, d, fwd, i) == Point(r, c);
    }
  }

  /** A non-sinking hit records HIT at p; from scanning it starts hunting around p, and from
      state 2 it fixes the direction from p's position relative to end1 and moves to state 3. */
  lemma RecordHit(game: GameConfig, m: Memory, p: Point, shipId: int)
    requires MemoryOk(game, m) && RecordPre(game, m, p, true, true, false, shipId)
    ensures var m2 := RecordSpec(game, m, p, true, true, false, shipId);
      && m2.belief == Put(m.belief, p, HIT)
      && (m.playerState == 1 ==> m2.playerState == 2 && m2.end1 == p && m2.end2 == p && m2.dir == m.dir)
      && (m.playerState == 2 ==>
            && m2.playerState == 3
            && m2.dir == (if p.r != m.end1.r then Vertical else Horizontal)
            && (m2.end1 == m.end1 || m2.end2 == m.end2)
            && (m.end1 == m.end2 && (p.r == m.end1.r || p.c == m.end1.c) ==>
                  (m2.end1 == p && m2.end2 == m.end2) || (m2.end2 == p && m2.end1 == m.end1)))
      && (m.playerState == 3 ==>
            && m2.dir == m.dir
            && (m2.playerState == 2 <==> m2.end1Reached && m2.end2Reached)
            && (m2.playerState == 2 ==> m2.falseDestruction))
  {
  }

  datatype Option<T> = None | Some(value: T)

  /** A cell worth aiming at: on the grid and never shot at. */
  predicate Open(game: GameConfig, g: Beliefs, q: Point)
    requires Boxed(g) && game.Valid()
  {
    game.IsValid(q) && g[q.r][q.c] == UNKNOWN
  }

  /** The random cells the scanning state may draw: up to 50 cells for the top-half scan (rows
      below rows/2 when there are at least two rows), and the whole-board cell that ends the
      unbounded scan, which is by then a cell never shot at. */
  predicate ScanPre(game: GameConfig, m: Memory, draws: seq<Point>, wholeDraw: Point)
    requires MemoryOk(game, m)
  {
    && (m.numMoves + 1 < 13 ==>
          |draws| >= 50
          && forall k :: 0 <= k < |draws| ==>
               game.IsValid(draws[k]) && (game.rows >= 2 ==> draws[k].r < game.rows / 2))
    && (m.numMoves + 1 >= 13 ==> Open(game, m.belief, wholeDraw))
  }

  /** The random cells a recommendAttack call may draw: those of the scanning state, and the
      last-resort cell of state 2. */
  predicate RecommendPre(game: GameConfig, m: Memory, draws: seq<Point>, wholeDraw: Point, anyDraw: Point)
    requires MemoryOk(game, m)
  {
    && (m.playerState == 1 ==> ScanPre(game, m, draws, wholeDraw))
    && game.IsValid(anyDraw)
  }

  /** The top-half scan from draw k on: the first draw at an UNKNOWN cell, except that the 50th
      draw is taken whatever it holds, with true for "the scan gave up". */
  function TopHalfPick(game: GameConfig, g: Beliefs, draws: seq<Point>, k: int): (Point, bool)
    requires Boxed(g) && game.Valid() && 0 <= k < 50 <= |draws|
    requires forall j :: 0 <= j < |draws| ==> game.IsValid(draws[j])
    decreases 50 - k
  {
    assert game.IsValid(draws[k]);
    if k == 49 then (draws[49], true)
    else if g[draws[k].r][draws[k].c] == UNKNOWN then (draws[k], false)
    else TopHalfPick(game, g, draws, k + 1)
  }

  /** The two cells just beyond the ends of the line in state 3: left/right or up/down. */
  function Beyond(d: Direction, e1: Point, e2: Point): (Point, Point)
  {
    match d
    case Horizontal => (Point(e1.r, e1.c - 1), Point(e2.r, e2.c + 1))
    case Vertical => (Point(e1.r - 1, e1.c), Point(e2.r + 1, e2.c))
  }

  /** State 3 of recommendAttack: the cell beyond end1, else beyond end2, while not reached and
      open; otherwise both ends count as reached and the player falls back to state 2. */
  function ExtendStep(game: GameConfig, m: Memory): (Option<Point>, Memory)
    requires MemoryOk(game, m)
  {
    var (a1, a2) := Beyond(m.dir, m.end1, m.end2);
    if !m.end1Reached && Open(game, m.belief, a1) then (Some(a1), m)
    else if !m.end2Reached && Open(game, m.belief, a2) then (Some(a2), m.(end1Reached := true))
    else (None, m.(end1Reached := true, end2Reached := true, playerState := 2, falseDestruction := true))
  }

  /** The last HIT cell among the first c cells of row r. */
  function LastHitInRow(g: Beliefs, r: int, c: int): Option<Point>
    requires Boxed(g) && 0 <= r < MAXROWS && 0 <= c <= MAXCOLS
  {
    if c == 0 then None
    else if g[r][c - 1] == HIT then Some(Point(r, c - 1))
    else LastHitInRow(g, r, c - 1)
  }

  /** The last HIT cell, in row-major order, among the first r rows of the grid. */
  function LastHit(game: GameConfig, g: Beliefs, r: int): Option<Point>
    requires Boxed(g) && game.Valid() && 0 <= r <= game.rows
  {
    if r == 0 then None
    else
      match LastHitInRow(g, r - 1, game.cols)
      case Some(q) => Some(q)
      case None => LastHit(game, g, r - 1)
  }

  /** The probe of radius i (1..4) in direction k: 0 up from end1, 1 left of end1, 2 down from end2,
      3 right of end2. */
  function ProbeCell(e1: Point, e2: Point, i: int, k: int): Point
  {
    if k == 0 then Point(e1.r - i, e1.c)
    else if k == 1 then Point(e1.r, e1.c - i)
    else if k == 2 then Point(e2.r + i, e2.c)
    else Point(e2.r, e2.c + i)
  }

  /** The cell whose validity the probe checks: the probe itself, except that the down probe
      checks end1's column. */
  function ProbeCheck(e1: Point, e2: Point, i: int, k: int): Point
  {
    if k == 2 then Point(e2.r + i, e1.c) else ProbeCell(e1, e2, i, k)
  }

  predicate ProbeOk(game: GameConfig, g: Beliefs, e1: Point, e2: Point, i: int, k: int)
    requires Boxed(g) && game.Valid() && game.IsValid(e1) && game.IsValid(e2)
  {
    game.IsValid(ProbeCheck(e1, e2, i, k))
    && g[ProbeCell(e1, e2, i, k).r][ProbeCell(e1, e2, i, k).c] == UNKNOWN
  }

  /** The sixteen probes in the order they are tried: radius 1..4, and within a radius up, left,
      down, right. */
  function Probes(e1: Point, e2: Point): (ps: seq<Point>)
    ensures |ps| == 16
  {
    seq(16, j => ProbeCell(e1, e2, j / 4 + 1, j % 4))
  }

  /** The first open cell of cells[j..], if any. */
  function FirstOpen(game: GameConfig, g: Beliefs, cells: seq<Point>, j: int): Option<Point>
    requires Boxed(g) && game.Valid() && 0 <= j <= |cells|
    decreases |cells| - j
  {
    if j == |cells| then None
    else if Open(game, g, cells[j]) then Some(cells[j])
    else FirstOpen(game, g, cells, j + 1)
  }

  /** Both ends moved to the found cell, if any. */
  function MoveEnds(m: Memory, found: Option<Point>): Memory
  {
    match found
    case Some(q) => m.(end1 := q, end2 := q)
    case None => m
  }

  /** State 2 of recommendAttack: after an "odd" sinking both ends move to the last HIT cell;
      then the first acceptable probe, or the last-resort cell with falseDestruction set. */
  function HuntStep(game: GameConfig, m: Memory, anyDraw: Point): (Point, Memory)
    requires MemoryOk(game, m)
  {
    var m1 := if m.falseDestruction then MoveEnds(m, LastHit(game, m.belief, game.rows)) else m;
    LastHitIsLast(game, m.belief);
    match FirstOpen(game, m1.belief, Probes(m1.end1, m1.end2), 0)
    case Some(q) => (q, m1)
    case None => (anyDraw, m1.(falseDestruction := true))
  }

  /** State 1 of recommendAttack: count the move; during the first 12 moves scan the top half,
      afterwards the whole board. */
  function ScanStep(game: GameConfig, m: Memory, draws: seq<Point>, wholeDraw: Point): (Point, Memory)
    requires MemoryOk(game, m) && ScanPre(game, m, draws, wholeDraw)
  {
    var n := m.numMoves + 1;
    if n < 13 then
      var pick := TopHalfPick(game, m.belief, draws, 0);
      (pick.0, m.(numMoves := if pick.1 then 14 else n))
    else (wholeDraw, m.(numMoves := n))
  }

  /** GoodPlayer::recommendAttack on the player's memory, given the random draws. */
  function RecommendSpec(game: GameConfig, m: Memory, draws: seq<Point>, wholeDraw: Point, anyDraw: Point): (Point, Memory)
    requires MemoryOk(game, m) && RecommendPre(game, m, draws, wholeDraw, anyDraw)
  {
    if m.playerState == 1 then ScanStep(game, m, draws, wholeDraw)
    else if m.playerState == 3 then
      var ext := ExtendStep(game, m);
      match ext.0
      case Some(q) => (q, ext.1)
      case None => HuntStep(game, ext.1, anyDraw)
    else HuntStep(game, m, anyDraw)
  }

  /** The row scan finds the last HIT among the first c cells of row r, and nothing when none is. */
  lemma {:induction false} LastHitInRowIsLast(g: Beliefs, r: int, c: int)
    requires Boxed(g) && 0 <= r < MAXROWS && 0 <= c <= MAXCOLS
    ensures match LastHitInRow(g, r, c)
      case None => forall j :: 0 <= j < c ==> g[r][j] != HIT
      case Some(q) =>
        (q.r == r && 0 <= q.c < c && g[r][q.c] == HIT
         && forall j :: q.c < j < c ==> g[r][j] != HIT)
  {
    if c > 0 {
      LastHitInRowIsLast(g, r, c - 1);
    }
  }

  /** The rescan of state 2 finds the last HIT cell of the grid in row-major order: a valid HIT
      cell with no HIT cell after it, and nothing when the grid holds no HIT. */
  lemma {:induction false} LastHitIsLastUpTo(game: GameConfig, g: Beliefs, r: int)
    requires Boxed(g) && game.Valid() && 0 <= r <= game.rows
    ensures match LastHit(game, g, r)
      case None => forall i, j :: 0 <= i < r && 0 <= j < game.cols ==> g[i][j] != HIT
      case Some(q) =>
        (0 <= q.r < r && game.IsValid(q) && g[q.r][q.c] == HIT
         && (forall j :: q.c < j < game.cols ==> g[q.r][j] != HIT)
         && (forall i, j :: q.r < i < r && 0 <= j < game.cols ==> g[i][j] != HIT))
  {
    if r > 0 {
      LastHitInRowIsLast(g, r - 1, game.cols);
      LastHitIsLastUpTo(game, g, r - 1);
    }
  }

  lemma LastHitIsLast(game: GameConfig, g: Beliefs)
    requires Boxed(g) && game.Valid()
    ensures match LastHit(game, g, game.rows)
      case None => !OpenHit(game, g)
      case Some(q) =>
        (game.IsValid(q) && g[q.r][q.c] == HIT
         && (forall j :: q.c < j < game.cols ==> g[q.r][j] != HIT)
         && (forall i, j :: q.r < i < game.rows && 0 <= j < game.cols ==> g[i][j] != HIT))
  {
    LastHitIsLastUpTo(game, g, game.rows);
  }

  /** The top-half scan takes the first draw at an UNKNOWN cell; it gives up only at the 50th
      draw, and then every earlier draw hit a cell already shot at. */
  lemma {:induction false} TopHalfPickFirst(game: GameConfig, g: Beliefs, draws: seq<Point>, k: int)
    requires Boxed(g) && game.Valid() && 0 <= k < 50 <= |draws|
    requires forall j :: 0 <= j < |draws| ==> game.IsValid(draws[j])
    decreases 50 - k
    ensures var (q, gaveUp) := TopHalfPick(game, g, draws, k);
      && (gaveUp ==> q == draws[49] && forall j :: k <= j < 49 ==> !Open(game, g, draws[j]))
      && (!gaveUp ==>
            Open(game, g, q)
            && exists j :: k <= j < 49 && q == draws[j] && forall i :: k <= i < j ==> !Open(game, g, draws[i]))
  {
    if k < 49 && g[draws[k].r][draws[k].c] != UNKNOWN {
      TopHalfPickFirst(game, g, draws, k + 1);
      var (q, gaveUp) := TopHalfPick(game, g, draws, k + 1);
      if !gaveUp {
        var j :| k + 1 <= j < 49 && q == draws[j] && forall i :: k + 1 <= i < j ==> !Open(game, g, draws[i]);
        assert forall i :: k <= i < j ==> !Open(game, g, draws[i]);
      }
    }
  }

  /** The down probe checks end1's column but aims at end2's; with both ends on the grid the two
      checks agree, so every probe accepts exactly the UNKNOWN cells on the grid. */
  lemma ProbeOkIsOpen(game: GameConfig, g: Beliefs, e1: Point, e2: Point, i: int, k: int)
    requires Boxed(g) && game.Valid() && game.IsValid(e1) && game.IsValid(e2)
    ensures ProbeOk(game, g, e1, e2, i, k) <==> Open(game, g, ProbeCell(e1, e2, i, k))
  {
  }

  /** Probe (i, k) is the (4(i-1)+k)-th entry of the probe order. */
  lemma ProbesAt(e1: Point, e2: Point, i: int, k: int)
    requires 1 <= i <= 4 && 0 <= k <= 3
    ensures Probes(e1, e2)[4 * (i - 1) + k] == ProbeCell(e1, e2, i, k)
  {
    var j := 4 * (i - 1) + k;
    assert j / 4 + 1 == i && j % 4 == k;
  }

  /** One radius of probes, as the hunting loop tests them: the first of the four source checks
      that passes picks the same cell as FirstOpen from that radius on, and when none passes
      FirstOpen moves on to the next radius. */
  lemma ProbeAll(game: GameConfig, g: Beliefs, e1: Point, e2: Point, i: int)
    requires Boxed(g) && game.Valid() && game.IsValid(e1) && game.IsValid(e2) && 1 <= i <= 4
    ensures var ps, j := Probes(e1, e2), 4 * (i - 1);
      FirstOpen(game, g, ps, j) ==
        if ProbeOk(game, g, e1, e2, i, 0) then Some(ProbeCell(e1, e2, i, 0))
        else if ProbeOk(game, g, e1, e2, i, 1) then Some(ProbeCell(e1, e2, i, 1))
        else if ProbeOk(game, g, e1, e2, i, 2) then Some(ProbeCell(e1, e2, i, 2))
        else if ProbeOk(game, g, e1, e2, i, 3) then Some(ProbeCell(e1, e2, i, 3))
        else FirstOpen(game, g, ps, j + 4)
  {
    var ps, j := Probes(e1, e2), 4 * (i - 1);
    for k := 0 to 4
      invariant forall k' :: 0 <= k' < k ==> ps[j + k'] == ProbeCell(e1, e2, i, k')
    {
      ProbesAt(e1, e2, i, k);
    }
    ProbeOkIsOpen(game, g, e1, e2, i, 0);
    ProbeOkIsOpen(game, g, e1, e2, i, 1);
    ProbeOkIsOpen(game, g, e1, e2, i, 2);
    ProbeOkIsOpen(game, g, e1, e2, i, 3);
    assert FirstOpen(game, g, ps, j + 2) == if Open(game, g, ps[j + 2]) then Some(ps[j + 2]) else
      if Open(game, g, ps[j + 3]) then Some(ps[j + 3]) else FirstOpen(game, g, ps, j + 4);
  }

  /** FirstOpen returns nothing exactly when no cell of cells[j..] is open. */
  lemma {:induction false} FirstOpenNone(game: GameConfig, g: Beliefs, cells: seq<Point>, j: int)
    requires Boxed(g) && game.Valid() && 0 <= j <= |cells|
    decreases |cells| - j
    ensures FirstOpen(game, g, cells, j).None? <==> forall i :: j <= i < |cells| ==> !Open(game, g, cells[i])
  {
    if j < |cells| {
      FirstOpenNone(game, g, cells, j + 1);
    }
  }

  /** A cell FirstOpen returns is open, and it is the first open one of cells[j..]. */
  lemma {:induction false} FirstOpenSome(game: GameConfig, g: Beliefs, cells: seq<Point>, j: int)
    requires Boxed(g) && game.Valid() && 0 <= j <= |cells|
    requires FirstOpen(game, g, cells, j).Some?
    decreases |cells| - j
    ensures Open(game, g, FirstOpen(game, g, cells, j).value)
    ensures exists n ::
      && j <= n < |cells| && FirstOpen(game, g, cells, j).value == cells[n]
      && forall i :: j <= i < n ==> !Open(game, g, cells[i])
  {
    if !Open(game, g, cells[j]) {
      FirstOpenSome(game, g, cells, j + 1);
      var n :| j + 1 <= n < |cells| && FirstOpen(game, g, cells, j + 1).value == cells[n]
        && forall i :: j + 1 <= i < n ==> !Open(game, g, cells[i]);
      assert forall i :: j <= i < n ==> !Open(game, g, cells[i]);
    }
  }

  /** Scanning counts the move and aims at a cell never shot at, unless the top-half scan gave
      up, which it records by setting the move count to 14; nothing else changes. */
  lemma ScanStepAims(game: GameConfig, m: Memory, draws: seq<Point>, wholeDraw: Point)
    requires MemoryOk(game, m) && m.playerState == 1 && ScanPre(game, m, draws, wholeDraw)
    ensures var (p, m') := ScanStep(game, m, draws, wholeDraw);
      && m' == m.(numMoves := m'.numMoves)
      && game.IsValid(p)
      && (Open(game, m.belief, p) || (m.numMoves + 1 < 13 && m'.numMoves == 14))
      && (m'.numMoves == m.numMoves + 1 || m'.numMoves == 14)
  {
    if m.numMoves + 1 < 13 {
      TopHalfPickFirst(game, m.belief, draws, 0);
    }
  }

  /** Extending the line aims at an open cell just beyond one of the ends and stays in state 3;
      when neither end can be extended the player drops to state 2 flagging an odd sinking. */
  lemma ExtendStepAims(game: GameConfig, m: Memory)
    requires MemoryOk(game, m) && m.playerState == 3
    ensures var (q, m') := ExtendStep(game, m);
      && MemoryOk(game, m') && m'.belief == m.belief && m'.end1 == m.end1 && m'.end2 == m.end2
      && (q.Some? ==>
            && Open(game, m.belief, q.value) && m'.playerState == 3
            && (q.value == Beyond(m.dir, m.end1, m.end2).0 || q.value == Beyond(m.dir, m.end1, m.end2).1))
      && (q.None? ==> m'.playerState == 2 && m'.falseDestruction && m'.end1Reached && m'.end2Reached)
  {
  }

  /** Hunting aims at an open probe cell around the ends, moved first to the last HIT cell after
      an odd sinking; only when no probe is open does it fall back to the random cell, flagging
      falseDestruction. It stays in state 2 and never changes the beliefs. */
  lemma HuntStepAims(game: GameConfig, m: Memory, anyDraw: Point)
    requires MemoryOk(game, m) && m.playerState == 2 && game.IsValid(anyDraw)
    ensures var (p, m') := HuntStep(game, m, anyDraw);
      && MemoryOk(game, m') && m'.belief == m.belief && m'.playerState == 2
      && game.IsValid(p)
      && ((Open(game, m.belief, p) && p in Probes(m'.end1, m'.end2)) || (m'.falseDestruction && p == anyDraw))
      && (m.falseDestruction && OpenHit(game, m.belief) ==>
            m'.end1 == m'.end2 && m.belief[m'.end1.r][m'.end1.c] == HIT)
  {
    LastHitIsLast(game, m.belief);
    var m1 := if m.falseDestruction then MoveEnds(m, LastHit(game, m.belief, game.rows)) else m;
    if FirstOpen(game, m1.belief, Probes(m1.end1, m1.end2), 0).Some? {
      FirstOpenSome(game, m1.belief, Probes(m1.end1, m1.end2), 0);
    }
  }

  /** recommendAttack keeps the invariant, never changes the beliefs, and always aims on the grid;
      it aims at a cell never shot at except when the top-half scan gave up or the probes ran
      out. */
  lemma RecommendKeepsMemoryOk(game: GameConfig, m: Memory, draws: seq<Point>, wholeDraw: Point, anyDraw: Point)
    requires MemoryOk(game, m) && RecommendPre(game, m, draws, wholeDraw, anyDraw)
    ensures var (p, m') := RecommendSpec(game, m, draws, wholeDraw, anyDraw);
      && MemoryOk(game, m') && m'.belief == m.belief && game.IsValid(p)
      && (Open(game, m.belief, p)
          || (m.playerState == 1 && m.numMoves + 1 < 13 && m'.numMoves == 14)
          || (m.playerState != 1 && m'.falseDestruction && p == anyDraw))
  {
    if m.playerState == 1 {
      ScanStepAims(game, m, draws, wholeDraw);
    } else if m.playerState == 3 {
      ExtendStepAims(game, m);
      if ExtendStep(game, m).0.None? {
        HuntStepAims(game, ExtendStep(game, m).1, anyDraw);
      }
    } else {
      HuntStepAims(game, m, anyDraw);
    }
  }

  /** The sinking branch of RecordSpec, unfolded for SinkShip. */
  lemma RecordSpecSinks(game: GameConfig, m: Memory, p: Point, shipId: int)
    requires MemoryOk(game, m) && RecordPre(game, m, p, true, true, true, shipId)
    ensures var d := SinkDir(m.end1, p);
      var g := Sink(m.belief, p, d, SinkForward(d, m.end1, p), game.ShipLength(shipId));
      var fd := m.falseDestruction && OpenHit(game, g);
      RecordSpec(game, m, p, true, true, true, shipId) ==
        m.(belief := g, dir := d, falseDestruction := fd, end1Reached := false, end2Reached := false,
           playerState := if fd then 2 else 1)
  {
  }

  /** Marking a run SUNK keeps every cell a marker. */
  lemma SinkKeepsMarkers(g: Beliefs, p: Point, d: Direction, forward: bool, len: int)
    requires Boxed(g) && Markers(g)
    ensures Markers(Sink(g, p, d, forward, len))
  {
  }

  class GoodPlayer {
    const game: GameConfig
    const belief: array2<int>
    var playerState: int
    var numMoves: int
    var dir: Direction
    var end1: Point
    var end2: Point
    var end1Reached: bool
    var end2Reached: bool
    var falseDestruction: bool

    ghost function Beliefs(): (g: Beliefs)
      reads belief
      requires belief.Length0 == MAXROWS && belief.Length1 == MAXCOLS
      ensures Boxed(g)
      ensures forall r, c :: 0 <= r < MAXROWS && 0 <= c < MAXCOLS ==> g[r][c] == belief[r, c]
    {
      seq(MAXROWS, r requires 0 <= r < MAXROWS reads belief =>
        seq(MAXCOLS, c requires 0 <= c < MAXCOLS reads belief => belief[r, c]))
    }

    ghost function Snapshot(): Memory
      reads this, belief
      requires belief.Length0 == MAXROWS && belief.Length1 == MAXCOLS
    {
      Memory(Beliefs(), playerState, numMoves, dir, end1, end2, end1Reached, end2Reached, falseDestruction)
    }

    ghost predicate Valid()
      reads this, belief
    {
      belief.Length0 == MAXROWS && belief.Length1 == MAXCOLS && MemoryOk(game, Snapshot())
    }

    /** GoodPlayer::GoodPlayer: scanning, no moves, every cell UNKNOWN. The source never sets
        end1Reached, end1 or end2 here; the model takes their first values as parameters. */
    constructor (g: GameConfig, initialEnd1Reached: bool, initialEnd1: Point, initialEnd2: Point)
      requires g.Valid() && g.IsValid(initialEnd1) && g.IsValid(initialEnd2)
      ensures Valid() && fresh(belief)
      ensures game == g && playerState == 1 && numMoves == 0 && dir == Horizontal
      ensures !end2Reached && !falseDestruction && end1Reached == initialEnd1Reached
      ensures end1 == initialEnd1 && end2 == initialEnd2
      ensures forall r, c :: 0 <= r < MAXROWS && 0 <= c < MAXCOLS ==> belief[r, c] == UNKNOWN
    {
      game := g;
      playerState := 1;
      numMoves := 0;
      dir := Horizontal;
      end2Reached := false;
      falseDestruction := false;
      end1Reached := initialEnd1Reached;
      end1 := initialEnd1;
      end2 := initialEnd2;
      belief := new int[MAXROWS, MAXCOLS]((r, c) => UNKNOWN);
    }

    /** One assignment to the belief array. */
    method SetBelief(q: Point, v: int)
      requires belief.Length0 == MAXROWS && belief.Length1 == MAXCOLS && InBox(q)
      modifies belief
      ensures Beliefs() == Put(old(Beliefs()), q, v)
    {
      belief[q.r, q.c] := v;
      BeliefsExt(Beliefs(), Put(old(Beliefs()), q, v));
    }

    /** The marking loop of recordAttackResult for a sunk ship. */
    method MarkSunk(p: Point, d: Direction, forward: bool, len: int)
      requires belief.Length0 == MAXROWS && belief.Length1 == MAXCOLS && SinkFits(p, d, forward, len)
      modifies belief
      ensures Beliefs() == Sink(old(Beliefs()), p, d, forward, len)
    {
      var i := 0;
      while i < len
        invariant 0 <= i <= len || (len < 0 && i == 0)
        invariant forall r, c :: 0 <= r < MAXROWS && 0 <= c < MAXCOLS ==>
          belief[r, c] == if InSink(Point(r, c), p, d, forward, i) then SUNK else old(belief[r, c])
      {
        var q := SinkCell(p, d, forward, i);
        belief[q.r, q.c] := SUNK;
        i := i + 1;
      }
      BeliefsExt(Beliefs(), Sink(old(Beliefs()), p, d, forward, len));
    }

    /** The scan of recordAttackResult for a HIT cell that is not yet sunk. */
    method HasOpenHit() returns (b: bool)
      requires Valid()
      ensures b == OpenHit(game, Beliefs())
    {
      b := false;
      var r := 0;
      while r < game.rows
        invariant 0 <= r <= game.rows
        invariant b <==> exists i, j :: 0 <= i < r && 0 <= j < game.cols && belief[i, j] == HIT
      {
        var c := 0;
        while c < game.cols
          invariant 0 <= c <= game.cols
          invariant b <==> (exists i, j :: 0 <= i < r && 0 <= j < game.cols && belief[i, j] == HIT)
                           || (exists j :: 0 <= j < c && belief[r, j] == HIT)
        {
          if belief[r, c] == HIT {
            b := true;
          }
          c := c + 1;
        }
        r := r + 1;
      }
    }

    /** GoodPlayer::recordAttackResult. */
    method RecordAttackResult(p: Point, validShot: bool, shotHit: bool, shipDestroyed: bool, shipId: int)
      requires Valid() && RecordPre(game, Snapshot(), p, validShot, shotHit, shipDestroyed, shipId)
      modifies this, belief
      ensures Valid()
      ensures Snapshot() == RecordSpec(game, old(Snapshot()), p, validShot, shotHit, shipDestroyed, shipId)
    {
      RecordKeepsMemoryOk(game, Snapshot(), p, validShot, shotHit, shipDestroyed, shipId);
      if !validShot {
        return;
      }
      if shotHit {
        if shipDestroyed {
          SinkShip(p, shipId);
          return;
        } else {
          SetBelief(p, HIT);
          TrackHit(p, old(Snapshot()));
        }
      } else {
        SetBelief(p, MISS);
      }
    }

    /** The sinking branch of recordAttackResult: infer the direction, mark the run, settle
        falseDestruction, clear both reached-flags and pick the next state. */
    method SinkShip(p: Point, shipId: int)
      requires Valid() && RecordPre(game, Snapshot(), p, true, true, true, shipId)
      modifies this, belief
      ensures Snapshot() == RecordSpec(game, old(Snapshot()), p, true, true, true, shipId)
    {
      ghost var m := Snapshot();
      MarkSunkRun(p, shipId);
      ghost var g := Beliefs();
      assert g == Sink(m.belief, p, SinkDir(m.end1, p), SinkForward(SinkDir(m.end1, p), m.end1, p), game.ShipLength(shipId));
      SettleOddSinking();
      ResetAfterSinking();
      RecordSpecSinks(game, m, p, shipId);
    }

    /** The end of the sinking branch: both ends open again, and scanning resumes unless an odd
        sinking is still pending. */
    method ResetAfterSinking()
      modifies this
      ensures !end1Reached && !end2Reached && playerState == (if falseDestruction then 2 else 1)
      ensures falseDestruction == old(falseDestruction) && numMoves == old(numMoves) && dir == old(dir)
      ensures end1 == old(end1) && end2 == old(end2)
    {
      end1Reached := false;
      end2Reached := false;
      if falseDestruction {
        playerState := 2;
      } else {
        playerState := 1;
      }
    }

    /** After marking a sunk run, an "odd" sinking is over once no HIT cell is left. */
    method SettleOddSinking()
      requires Valid()
      modifies this
      ensures falseDestruction == (old(falseDestruction) && OpenHit(game, Beliefs()))
      ensures playerState == old(playerState) && numMoves == old(numMoves) && dir == old(dir)
      ensures end1 == old(end1) && end2 == old(end2)
      ensures end1Reached == old(end1Reached) && end2Reached == old(end2Reached)
    {
      if falseDestruction {
        var open := HasOpenHit();
        if !open {
          falseDestruction := false;
        }
      }
    }

    /** The direction inference and marking loops of the sinking branch. */
    method MarkSunkRun(p: Point, shipId: int)
      requires Valid() && RecordPre(game, Snapshot(), p, true, true, true, shipId)
      modifies this, belief
      ensures dir == SinkDir(old(end1), p)
      ensures Beliefs() == Sink(old(Beliefs()), p, dir, SinkForward(dir, old(end1), p), game.ShipLength(shipId))
      ensures Valid() && playerState == old(playerState) && numMoves == old(numMoves)
      ensures end1 == old(end1) && end2 == old(end2) && falseDestruction == old(falseDestruction)
      ensures end1Reached == old(end1Reached) && end2Reached == old(end2Reached)
    {
      if end1.c == p.c {
        dir := Vertical;
      } else {
        dir := Horizontal;
      }
      if dir == Vertical {
        if p.r < end1.r {
          MarkSunk(p, Vertical, true, game.ShipLength(shipId));
        } else {
          MarkSunk(p, Vertical, false, game.ShipLength(shipId));
        }
      } else {
        if p.c < end1.c {
          MarkSunk(p, Horizontal, true, game.ShipLength(shipId));
        } else {
          MarkSunk(p, Horizontal, false, game.ShipLength(shipId));
        }
      }
      SinkKeepsMarkers(old(Beliefs()), p, dir, SinkForward(dir, end1, p), game.ShipLength(shipId));
    }

    /** The non-sinking branch of recordAttackResult once p is recorded as HIT: start the hunt,
        fix the direction, or extend the line and close its ends. */
    method TrackHit(p: Point, ghost m: Memory)
      requires belief.Length0 == MAXROWS && belief.Length1 == MAXCOLS
      requires MemoryOk(game, m) && RecordPre(game, m, p, true, true, false, 0)
      requires Snapshot() == m.(belief := Put(m.belief, p, HIT))
      modifies this
      ensures Snapshot() == RecordSpec(game, m, p, true, true, false, 0)
    {
      if playerState == 1 {
        playerState := 2;
        end1 := end1.(r := p.r);
        end1 := end1.(c := p.c);
        end2 := end2.(r := p.r);
        end2 := end2.(c := p.c);
      } else if playerState == 2 {
        if p.r < end1.r {
          end1 := end1.(r := p.r);
          dir := Vertical;
        } else if p.r > end1.r {
          end2 := end2.(r := p.r);
          dir := Vertical;
        } else if p.c < end1.c {
          end1 := end1.(c := p.c);
          dir := Horizontal;
        } else {
          end2 := end2.(c := p.c);
          dir := Horizontal;
        }
        playerState := 3;
        return;
      }
      if playerState == 3 {
        FollowLine(p, m);
      }
    }

    /** State 3 of the non-sinking branch: close each end that reached the edge or a miss, move
        the open end to p, and go back to state 2 once both ends are closed. */
    method FollowLine(p: Point, ghost m: Memory)
      requires belief.Length0 == MAXROWS && belief.Length1 == MAXCOLS
      requires MemoryOk(game, m) && m.playerState == 3 && RecordPre(game, m, p, true, true, false, 0)
      requires Snapshot() == m.(belief := Put(m.belief, p, HIT))
      modifies this
      ensures Snapshot() == FollowSpec(game, m, p)
    {
      var closed1, closed2 := EndTests(m);
      CloseAndMove(p, closed1, closed2);
    }

    /** The updates of FollowLine once the end tests are known. */
    method CloseAndMove(p: Point, closed1: bool, closed2: bool)
      modifies this
      ensures end1Reached == (old(end1Reached) || closed1) && end2Reached == (old(end2Reached) || closed2)
      ensures end1 == (if !end1Reached then p else old(end1))
      ensures end2 == (if !end1Reached then old(end2) else p)
      ensures falseDestruction == (if end1Reached && end2Reached then true else old(falseDestruction))
      ensures playerState == (if end1Reached && end2Reached then 2 else old(playerState))
      ensures numMoves == old(numMoves) && dir == old(dir)
    {
      if closed1 {
        end1Reached := true;
      }
      if closed2 {
        end2Reached := true;
      }
      if !end1Reached {
        end1 := end1.(r := p.r);
        end1 := end1.(c := p.c);
      } else {
        end2 := end2.(r := p.r);
        end2 := end2.(c := p.c);
      }
      if end1Reached && end2Reached {
        falseDestruction := true;
        playerState := 2;
        return;
      }
    }

    /** The two end tests of state 3, read from the belief array along dir. */
    method EndTests(ghost m: Memory) returns (closed1: bool, closed2: bool)
      requires belief.Length0 == MAXROWS && belief.Length1 == MAXCOLS
      requires playerState == 3 && MemoryOk(game, Snapshot())
      ensures (closed1, closed2) == EndsClosed(game, Beliefs(), dir, end1, end2)
    {
      closed1, closed2 := false, false;
      if dir == Horizontal {
        if end1.c == 0 || belief[end1.r, end1.c - 1] == MISS {
          closed1 := true;
        }
        if end2.c == game.cols - 1 || belief[end2.r, end2.c + 1] == MISS {
          closed2 := true;
        }
      }
      if dir == Vertical {
        if end1.r == 0 || belief[end1.r - 1, end1.c] == MISS {
          closed1 := true;
        }
        if end2.r == game.rows - 1 || belief[end2.r + 1, end2.c] == MISS {
          closed2 := true;
        }
      }
    }

    /** GoodPlayer::recommendAttack, with the random cells it would draw passed in. */
    method RecommendAttack(draws: seq<Point>, wholeDraw: Point, anyDraw: Point) returns (p: Point)
      requires Valid() && RecommendPre(game, Snapshot(), draws, wholeDraw, anyDraw)
      modifies this
      ensures Valid()
      ensures (p, Snapshot()) == RecommendSpec(game, old(Snapshot()), draws, wholeDraw, anyDraw)
    {
      RecommendKeepsMemoryOk(game, Snapshot(), draws, wholeDraw, anyDraw);
      if playerState == 1 {
        p := Scan(draws, wholeDraw);
        return;
      }
      if playerState == 3 {
        var found;
        found, p := Extend();
        if found {
          return;
        }
      }
      p := Hunt(anyDraw);
    }

    /** The scanning state of recommendAttack. */
    method Scan(draws: seq<Point>, wholeDraw: Point) returns (p: Point)
      requires Valid() && playerState == 1 && ScanPre(game, Snapshot(), draws, wholeDraw)
      modifies this
      ensures (p, Snapshot()) == ScanStep(game, old(Snapshot()), draws, wholeDraw)
    {
      ghost var m0 := Snapshot();
      numMoves := numMoves + 1;
      if numMoves < 13 {
        var gaveUp;
        p, gaveUp := TopHalfScan(draws);
        if gaveUp {
          numMoves := 14;
        }
      } else {
        p := wholeDraw;
      }
      assert Snapshot() == m0.(numMoves := numMoves);
    }

    /** The top-half loop of the scanning state: gaveUp when the 50th draw was reached. */
    method TopHalfScan(draws: seq<Point>) returns (p: Point, gaveUp: bool)
      requires Valid() && |draws| >= 50 && forall k :: 0 <= k < |draws| ==> game.IsValid(draws[k])
      ensures (p, gaveUp) == TopHalfPick(game, Beliefs(), draws, 0)
    {
      var k := 0;
      while true
        invariant 0 <= k < 50
        invariant TopHalfPick(game, Beliefs(), draws, 0) == TopHalfPick(game, Beliefs(), draws, k)
        decreases 50 - k
      {
        p := draws[k];
        if k + 1 == 50 {
          return p, true;
        }
        if belief[p.r, p.c] == UNKNOWN {
          return p, false;
        }
        k := k + 1;
      }
    }

    /** State 3 of recommendAttack: found is false when it fell through to state 2. */
    method Extend() returns (found: bool, p: Point)
      requires Valid() && playerState == 3
      modifies this
      ensures var (q, m') := ExtendStep(game, old(Snapshot()));
        Snapshot() == m' && (found <==> q.Some?) && (found ==> p == q.value)
    {
      var (a1, a2) := Beyond(dir, end1, end2);
      p := a1;
      if !end1Reached && game.IsValid(a1) && belief[a1.r, a1.c] == UNKNOWN {
        return true, a1;
      }
      end1Reached := true;
      if !end2Reached && game.IsValid(a2) && belief[a2.r, a2.c] == UNKNOWN {
        return true, a2;
      }
      end2Reached := true;
      playerState := 2;
      falseDestruction := true;
      found := false;
    }

    /** The rescan of state 2 after an "odd" sinking: both ends move to every HIT cell in turn,
        so they end on the last one. */
    method MoveToLastHit()
      requires Valid()
      modifies this
      ensures Snapshot() == MoveEnds(old(Snapshot()), LastHit(game, Beliefs(), game.rows))
    {
      var last := LastHitScan();
      if last.Some? {
        end1 := last.value;
        end2 := last.value;
      }
    }

    /** The row-major scan of the rescan; each HIT cell replaces the previous one. */
    method LastHitScan() returns (last: Option<Point>)
      requires Valid()
      ensures last == LastHit(game, Beliefs(), game.rows)
    {
      last := None;
      var r := 0;
      while r < game.rows
        invariant 0 <= r <= game.rows
        invariant last == LastHit(game, Beliefs(), r)
      {
        var c := 0;
        while c < game.cols
          invariant 0 <= c <= game.cols
          invariant last ==
            match LastHitInRow(Beliefs(), r, c)
            case Some(q) => Some(q)
            case None => LastHit(game, Beliefs(), r)
        {
          if belief[r, c] == HIT {
            last := Some(Point(r, c));
          }
          c := c + 1;
        }
        r := r + 1;
      }
    }

    /** State 2 of recommendAttack. */
    method Hunt(anyDraw: Point) returns (p: Point)
      requires Valid() && playerState == 2 && game.IsValid(anyDraw)
      modifies this
      ensures (p, Snapshot()) == HuntStep(game, old(Snapshot()), anyDraw)
    {
      LastHitIsLast(game, Beliefs());
      if falseDestruction {
        MoveToLastHit();
      }
      p := Probe(anyDraw);
    }

    /** The probing loop of state 2, then the last-resort cell. */
    method Probe(anyDraw: Point) returns (p: Point)
      requires Valid() && game.IsValid(anyDraw)
      modifies this
      ensures (p, Snapshot()) ==
        match FirstOpen(game, Beliefs(), Probes(end1, end2), 0)
        case Some(q) => (q, old(Snapshot()))
        case None => (anyDraw, old(Snapshot()).(falseDestruction := true))
    {
      var found;
      found, p := ProbeRadii();
      if !found {
        falseDestruction := true;
        p := anyDraw;
      }
    }

    /** One test of the probing loop, exactly as the source writes it for each direction. */
    method TestProbe(i: int, k: int) returns (ok: bool)
      requires Valid() && 0 <= k <= 3
      ensures ok == ProbeOk(game, Beliefs(), end1, end2, i, k)
    {
      if k == 0 {
        ok := game.IsValid(Point(end1.r - i, end1.c)) && belief[end1.r - i, end1.c] == UNKNOWN;
      } else if k == 1 {
        ok := game.IsValid(Point(end1.r, end1.c - i)) && belief[end1.r, end1.c - i] == UNKNOWN;
      } else if k == 2 {
        ok := game.IsValid(Point(end2.r + i, end1.c)) && belief[end2.r + i, end2.c] == UNKNOWN;
      } else {
        ok := game.IsValid(Point(end2.r, end2.c + i)) && belief[end2.r, end2.c + i] == UNKNOWN;
      }
    }

    /** Radius 1..4 around the ends, up, left, down, right within a radius; found is false when
        no probe passed. */
    method ProbeRadii() returns (found: bool, p: Point)
      requires Valid()
      ensures found <==> FirstOpen(game, Beliefs(), Probes(end1, end2), 0).Some?
      ensures found ==> p == FirstOpen(game, Beliefs(), Probes(end1, end2), 0).value
    {
      ghost var g, ps := Beliefs(), Probes(end1, end2);
      var i := 1;
      while i < 5
        invariant 1 <= i <= 5
        invariant FirstOpen(game, g, ps, 0) == FirstOpen(game, g, ps, 4 * (i - 1))
      {
        ProbeAll(game, g, end1, end2, i);
        var up := TestProbe(i, 0);
        if up {
          return true, Point(end1.r - i, end1.c);
        }
        var left := TestProbe(i, 1);
        if left {
          return true, Point(end1.r, end1.c - i);
        }
        var down := TestProbe(i, 2);
        if down {
          return true, Point(end2.r + i, end2.c);
        }
        var right := TestProbe(i, 3);
        if right {
          return true, Point(end2.r, end2.c + i);
        }
        i := i + 1;
      }
      return false, end1;
    }
  }
}
