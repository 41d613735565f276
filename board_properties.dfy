/** What the board operations promise, proved about their value-level definitions. */
module BoardProperties {
  import opened Fleet
  import opened BoardEngine

  /** q belongs to the run's cell set exactly when it lies on the run. */
  lemma RunSetHas(p: Point, dir: Direction, len: nat, q: Point)
    ensures q in RunSet(p, dir, len) <==> InRun(q, p, dir, len)
  {
    if InRun(q, p, dir, len) {
      var k := if dir == Horizontal then q.c - p.c else q.r - p.r;
      assert RunCell(p, dir, k) == q;
    }
  }

  /** A run of length len covers exactly len distinct cells. */
  lemma {:induction false} RunSetSize(p: Point, dir: Direction, len: nat)
    ensures |RunSet(p, dir, len)| == len
  {
    if len > 0 {
      RunSetSize(p, dir, len - 1);
      RunSetHas(p, dir, len - 1, RunCell(p, dir, len - 1));
      assert RunSet(p, dir, len) == RunSet(p, dir, len - 1) + {RunCell(p, dir, len - 1)};
    }
  }

  /** Painting a run whose cells all differ from ch changes exactly the run's cells. */
  lemma PaintChangesRun(game: GameConfig, g: Grid, p: Point, dir: Direction, len: nat, old_ch: char, ch: char)
    requires Shaped(g, game.rows, game.cols) && game.IsValid(p) && RunFits(game, p, dir, len)
    requires RunIs(game, g, p, dir, len, old_ch) && old_ch != ch
    ensures Changed(g, Paint(g, p, dir, len, ch)) == RunSet(p, dir, len)
  {
    var h := Paint(g, p, dir, len, ch);
    forall q | q in RunSet(p, dir, len)
      ensures 0 <= q.r < |g| && 0 <= q.c < |g[q.r]| && g[q.r][q.c] != h[q.r][q.c]
    {
      var k :| 0 <= k < len && q == RunCell(p, dir, k);
      RunSetHas(p, dir, len, q);
    }
    forall i, j | 0 <= i < |g| && 0 <= j < |g[i]| && Point(i, j) !in RunSet(p, dir, len)
      ensures h[i][j] == g[i][j]
    {
      RunSetHas(p, dir, len, Point(i, j));
    }
    ChangedIsMarked(g, h, RunSet(p, dir, len));
  }

  /** A successful placeShip writes the ship's symbol into exactly shipLength(id) cells, all of
      which were '.', and appends exactly one record, with no hits, at the end of the list. */
  lemma PlaceEffect(game: GameConfig, s: BoardState, p: Point, id: int, dir: Direction)
    requires StateOk(game, s) && PlaceLookupSafe(game, s.ships, p, id)
    requires PlaceSpec(game, s, p, id, dir).ok
    ensures 0 <= id < game.NShips()
    ensures var t := PlaceSpec(game, s, p, id, dir).state;
      && Changed(s.cells, t.cells) == RunSet(p, dir, game.ShipLength(id))
      && |Changed(s.cells, t.cells)| == game.ShipLength(id)
      && (forall q :: q in Changed(s.cells, t.cells) ==> At(s.cells, q) == '.' && At(t.cells, q) == game.ShipSymbol(id))
      && t.ships == s.ships + [ShipRecord(game.ShipSymbol(id), 0, id)]
      && StateOk(game, t)
  {
    var len := game.ShipLength(id);
    var sym := game.ShipSymbol(id);
    assert ShipOk(game.rows, game.cols, game.ships[id]);
    PaintChangesRun(game, s.cells, p, dir, len, '.', sym);
    RunSetSize(p, dir, len);
    forall q | q in RunSet(p, dir, len)
      ensures At(s.cells, q) == '.'
    {
      var k :| 0 <= k < len && q == RunCell(p, dir, k);
    }
    AppendKeepsRecordsOk(game, s.ships, ShipRecord(sym, 0, id));
  }

  /** placeShip refuses, leaving the board as it was, when the anchor is off the grid, the id
      already has a record, the run leaves the grid, or a run cell is not '.'. */
  lemma PlaceRefusals(game: GameConfig, s: BoardState, p: Point, id: int, dir: Direction)
    requires StateOk(game, s) && PlaceLookupSafe(game, s.ships, p, id)
    requires !game.IsValid(p) || HasId(s.ships, id) || id > game.NShips()
      || (0 <= id < game.NShips() && !RunFits(game, p, dir, game.ShipLength(id)))
      || (0 <= id < game.NShips() && RunFits(game, p, dir, game.ShipLength(id)) && game.IsValid(p)
          && exists i :: 0 <= i < game.ShipLength(id) && At(s.cells, RunCell(p, dir, i)) != '.')
    ensures PlaceSpec(game, s, p, id, dir) == Step(false, s)
  {
  }

  /** Erasing entry x shifts every later entry down by one. */
  lemma EraseShifts(ships: seq<ShipRecord>, x: int)
    requires 0 <= x < |ships|
    ensures |Erase(ships, x)| == |ships| - 1
    ensures forall j :: 0 <= j < |ships| - 1 ==> Erase(ships, x)[j] == if j < x then ships[j] else ships[j + 1]
  {
  }

  /** Erasing the last record with an id removes that id and keeps every other record. */
  lemma EraseLastOf(game: GameConfig, ships: seq<ShipRecord>, id: int)
    requires RecordsOk(game, ships) && HasId(ships, id)
    ensures var t := Erase(ships, LastIndexOf(ships, id));
      && |t| == |ships| - 1 && !HasId(t, id) && RecordsOk(game, t)
      && (forall k :: 0 <= k < |ships| && ships[k].id != id ==> ships[k] in t)
  {
    var x := LastIndexOf(ships, id);
    var t := Erase(ships, x);
    EraseShifts(ships, x);
    forall k | 0 <= k < |ships| && ships[k].id != id
      ensures ships[k] in t
    {
      if k < x {
        assert t[k] == ships[k];
      } else {
        assert t[k - 1] == ships[k];
      }
    }
    forall j | 0 <= j < |t|
      ensures t[j].id != id
    {
      if j >= x {
        assert t[j] == ships[j + 1];
      }
    }
    EraseKeepsRecordsOk(game, ships, x);
  }

  /** A successful unplaceShip resets exactly the ship's run to '.' and drops the one record
      with that id. */
  lemma UnplaceEffect(game: GameConfig, s: BoardState, p: Point, id: int, dir: Direction)
    requires StateOk(game, s)
    requires UnplaceSpec(game, s, p, id, dir).ok
    ensures 0 <= id < game.NShips()
    ensures var t := UnplaceSpec(game, s, p, id, dir).state;
      && Changed(s.cells, t.cells) == RunSet(p, dir, game.ShipLength(id))
      && (forall q :: q in Changed(s.cells, t.cells) ==> At(s.cells, q) == game.ShipSymbol(id) && At(t.cells, q) == '.')
      && |t.ships| == |s.ships| - 1 && !HasId(t.ships, id)
      && (forall k :: 0 <= k < |s.ships| && s.ships[k].id != id ==> s.ships[k] in t.ships)
      && StateOk(game, t)
  {
    var len := game.ShipLength(id);
    var sym := game.ShipSymbol(id);
    var t := UnplaceSpec(game, s, p, id, dir).state;
    assert ShipOk(game.rows, game.cols, game.ships[id]);
    assert t.cells == Paint(s.cells, p, dir, len, '.');
    PaintChangesRun(game, s.cells, p, dir, len, sym, '.');
    forall q | q in RunSet(p, dir, len)
      ensures At(s.cells, q) == sym
    {
      var k :| 0 <= k < len && q == RunCell(p, dir, k);
    }
    assert t.ships == Erase(s.ships, LastIndexOf(s.ships, id));
    EraseLastOf(game, s.ships, id);
  }

  /** Placing a ship and then unplacing it with the same arguments restores the grid and the
      record list exactly. */
  lemma {:induction false} PlaceUnplaceRoundTrip(game: GameConfig, s: BoardState, p: Point, id: int, dir: Direction)
    requires StateOk(game, s) && PlaceLookupSafe(game, s.ships, p, id)
    requires PlaceSpec(game, s, p, id, dir).ok
    ensures StateOk(game, PlaceSpec(game, s, p, id, dir).state)
    ensures UnplaceSpec(game, PlaceSpec(game, s, p, id, dir).state, p, id, dir) == Step(true, s)
  {
    var len := game.ShipLength(id);
    var sym := game.ShipSymbol(id);
    var rec := ShipRecord(sym, 0, id);
    var t := PlaceSpec(game, s, p, id, dir).state;
    AppendKeepsRecordsOk(game, s.ships, rec);
    assert t.ships[|s.ships|] == rec;
    assert HasId(t.ships, id);
    assert LastIndexOf(t.ships, id) == |s.ships|;
    assert Erase(t.ships, |s.ships|) == s.ships;
    assert RunIs(game, t.cells, p, dir, len, sym);
    var back := Paint(t.cells, p, dir, len, '.');
    forall i, j | 0 <= i < |back| && 0 <= j < |back[i]|
      ensures back[i][j] == s.cells[i][j]
    {
      if InRun(Point(i, j), p, dir, len) {
        var k := if dir == Horizontal then j - p.c else i - p.r;
        assert RunCell(p, dir, k) == Point(i, j);
      }
    }
    GridExt(back, s.cells);
  }

  /** An attack that was accepted leaves 'X' or 'o' behind, so the same point is refused next time. */
  lemma AttackTwiceRejected(game: GameConfig, s: BoardState, p: Point, id1: int, id2: int)
    requires StateOk(game, s) && AttackSafe(game, s, p)
    requires AttackSpec(game, s, p, id1).0.accepted
    ensures StateOk(game, AttackSpec(game, s, p, id1).1)
    ensures AttackSafe(game, AttackSpec(game, s, p, id1).1, p)
    ensures AttackSpec(game, AttackSpec(game, s, p, id1).1, p, id2) == (AttackReport(false, false, false, id2), AttackSpec(game, s, p, id1).1)
  {
    var t := AttackSpec(game, s, p, id1).1;
    if At(s.cells, p) != '.' {
      var k := MatchFrom(game, s.ships, At(s.cells, p), 0);
      assert t.ships == s.ships[k := s.ships[k].(timesHit := s.ships[k].timesHit + 1)];
      assert RecordsOk(game, t.ships) by {
        forall j | 0 <= j < |t.ships|
          ensures t.ships[j].id == s.ships[j].id && t.ships[j].symbol == s.ships[j].symbol
        {
        }
      }
    }
  }

  /** An accepted attack on a ship cell marks it 'X', adds one hit to the first record whose ship
      symbol matches, leaves every other record and cell alone, and reports a sinking (with that
      record's id) exactly when its hits reach the fleet length at the record's position. */
  lemma AttackHitEffect(game: GameConfig, s: BoardState, p: Point, idIn: int)
    requires StateOk(game, s) && AttackSafe(game, s, p)
    requires game.IsValid(p) && At(s.cells, p) !in {'X', 'o', '.'}
    ensures 0 <= MatchFrom(game, s.ships, At(s.cells, p), 0) < |s.ships|
    ensures var k := MatchFrom(game, s.ships, At(s.cells, p), 0);
      s.ships[k].symbol == At(s.cells, p)
    ensures var rep := AttackSpec(game, s, p, idIn).0; rep.accepted && rep.shotHit
    ensures var k := MatchFrom(game, s.ships, At(s.cells, p), 0);
      var t := AttackSpec(game, s, p, idIn).1;
      && |t.ships| == |s.ships|
      && t.ships[k].timesHit == s.ships[k].timesHit + 1
      && (forall j :: 0 <= j < |s.ships| && j != k ==> t.ships[j] == s.ships[j])
    ensures var k := MatchFrom(game, s.ships, At(s.cells, p), 0);
      var (rep, t) := AttackSpec(game, s, p, idIn);
      && (rep.shipDestroyed <==> t.ships[k].timesHit == game.ShipLength(k))
      && rep.shipId == (if rep.shipDestroyed then s.ships[k].id else idIn)
    ensures var t := AttackSpec(game, s, p, idIn).1;
      Changed(s.cells, t.cells) == {p} && At(t.cells, p) == 'X'
  {
    var k := MatchFrom(game, s.ships, At(s.cells, p), 0);
    var t := AttackSpec(game, s, p, idIn).1;
    assert t.cells == SetCell(s.cells, p, 'X');
    assert s.ships[k].symbol == game.ShipSymbol(s.ships[k].id);
    ChangedIsMarked(s.cells, t.cells, {p});
  }

  /** An accepted attack on '.' marks it 'o' and reports a miss; nothing else changes. */
  lemma AttackMissEffect(game: GameConfig, s: BoardState, p: Point, idIn: int)
    requires StateOk(game, s) && AttackSafe(game, s, p)
    requires game.IsValid(p) && At(s.cells, p) == '.'
    ensures var (rep, t) := AttackSpec(game, s, p, idIn);
      && rep == AttackReport(true, false, false, idIn)
      && t.ships == s.ships && Changed(s.cells, t.cells) == {p} && At(t.cells, p) == 'o'
  {
    var t := AttackSpec(game, s, p, idIn).1;
    ChangedIsMarked(s.cells, t.cells, {p});
  }

  /** When records sit in id order, the position used by attack and allShipsDestroyed is the id,
      so "sunk" means hit as often as the ship's own length. */
  lemma InIdOrderPositionIsId(game: GameConfig, ships: seq<ShipRecord>)
    requires RecordsOk(game, ships)
    requires forall i :: 0 <= i < |ships| ==> ships[i].id == i
    ensures AllSunk(game, ships) <==> forall i :: 0 <= i < |ships| ==> ships[i].timesHit == game.ShipLength(ships[i].id)
  {
  }

  /** unblock is idempotent and leaves no '-' behind. */
  lemma UnblockIdempotent(g: Grid)
    ensures Unblocked(Unblocked(g)) == Unblocked(g)
    ensures NoBlocked(Unblocked(g))
  {
    GridExt(Unblocked(Unblocked(g)), Unblocked(g));
  }

  /** unblock changes exactly the '-' cells. */
  lemma UnblockChangesBlocked(g: Grid)
    ensures Changed(g, Unblocked(g)) == set i, j | 0 <= i < |g| && 0 <= j < |g[i]| && g[i][j] == '-' :: Point(i, j)
  {
  }
}
