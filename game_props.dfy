/** What the engine operations of module GameModel promise: the effect of each operation on a
    game record, the rejections that leave the record unchanged, and the invariant ValidGame
    that every operation preserves. */
module GameProps {
  import opened Wrappers
  import opened Users
  import opened GameModel

  // ---------------------------------------------------------------------------------------
  // create_game

  /** A new record has empty boards and shot logs, the full fleet to place, no ships, every
      flag false, player1 to move and no winner; it satisfies the invariant. */
  lemma NewGameProperties(player1: User, player2: User)
    ensures var g := NewGame(player1, player2);
      && ValidGame(g)
      && g.players == (player1, player2)
      && g.sides.Keys == {player1, player2}
      && g.turn == player1
      && g.winner == None
      && forall p :: p in g.sides ==>
           && g.sides[p].shipsLeft == InitialFleet
           && g.sides[p].placed == []
           && !g.sides[p].ready && !g.sides[p].restart
           && !g.sides[p].tempDisconnect && !g.sides[p].fullDisconnect
           && (forall y, x :: 0 <= y < Size && 0 <= x < Size ==>
                 g.sides[p].board[y][x] == Empty && g.sides[p].hits[y][x] == Empty)
  {
    var s := NewSide();
    assert ValidSide(s) by {
      forall k | k in InitialFleet
        ensures 0 <= s.shipsLeft[k] && s.shipsLeft[k] + CountLength(s.placed, k) == InitialFleet[k]
      {
      }
    }
  }

  // ---------------------------------------------------------------------------------------
  // Grids

  /** Two well-formed grids that agree on every cell are equal. */
  lemma GridExt(a: Grid, b: Grid)
    requires WellFormed(a) && WellFormed(b)
    requires forall y, x :: 0 <= y < Size && 0 <= x < Size ==> a[y][x] == b[y][x]
    ensures a == b
  {
    forall y | 0 <= y < Size
      ensures a[y] == b[y]
    {
      assert forall x :: 0 <= x < Size ==> a[y][x] == b[y][x];
    }
  }

  /** Painting one more cell of the list is a single write on the grid painted so far. */
  lemma PaintStep(g: Grid, cells: seq<Coord>, k: nat, mark: Cell)
    requires WellFormed(g) && k < |cells| && InBounds(cells[k])
    ensures Paint(g, cells[..k + 1], mark) == SetCell(Paint(g, cells[..k], mark), cells[k], mark)
  {
    assert cells[..k + 1] == cells[..k] + [cells[k]];
    GridExt(Paint(g, cells[..k + 1], mark), SetCell(Paint(g, cells[..k], mark), cells[k], mark));
  }

  // ---------------------------------------------------------------------------------------
  // Ship lists

  lemma CoveredAppend(ships: seq<Ship>, s: Ship, c: Coord)
    ensures Covered(ships + [s], c) <==> Covered(ships, c) || c in s.coords
  {
    var all := ships + [s];
    if Covered(ships, c) {
      var j :| 0 <= j < |ships| && c in ships[j].coords;
      assert all[j] == ships[j];
    }
    if c in s.coords {
      assert all[|ships|] == s;
    }
    if Covered(all, c) && !(c in s.coords) {
      var j :| 0 <= j < |all| && c in all[j].coords;
      assert j < |ships| && all[j] == ships[j];
    }
  }

  /** Removing ship i uncovers exactly that ship's cells that no other ship holds. */
  lemma CoveredRemove(ships: seq<Ship>, i: nat, c: Coord)
    requires i < |ships|
    ensures c !in ships[i].coords ==> (Covered(ships[..i] + ships[i + 1..], c) <==> Covered(ships, c))
    ensures ShipsDisjoint(ships) && c in ships[i].coords ==> !Covered(ships[..i] + ships[i + 1..], c)
  {
    var rest := ships[..i] + ships[i + 1..];
    assert forall j :: 0 <= j < |rest| ==> rest[j] == if j < i then ships[j] else ships[j + 1];
    if Covered(rest, c) {
      var j :| 0 <= j < |rest| && c in rest[j].coords;
      var j' := if j < i then j else j + 1;
      assert c in ships[j'].coords && j' != i;
    }
    if c !in ships[i].coords && Covered(ships, c) {
      var j :| 0 <= j < |ships| && c in ships[j].coords;
      assert j != i;
      var j' := if j < i then j else j - 1;
      assert rest[j'] == ships[j];
    }
  }

  lemma {:induction false} CountAppend(ships: seq<Ship>, s: Ship, k: int)
    ensures CountLength(ships + [s], k) == CountLength(ships, k) + (if |s.coords| == k then 1 else 0)
  {
    assert (ships + [s])[..|ships|] == ships;
  }

  lemma {:induction false} CountRemove(ships: seq<Ship>, i: nat, k: int)
    requires i < |ships|
    ensures CountLength(ships[..i] + ships[i + 1..], k) + (if |ships[i].coords| == k then 1 else 0)
            == CountLength(ships, k)
    decreases |ships|
  {
    var n := |ships| - 1;
    if i == n {
      assert ships[..i] + ships[i + 1..] == ships[..n];
    } else {
      var front := ships[..n];
      CountRemove(front, i, k);
      assert front[i] == ships[i];
      assert ships[..i] + ships[i + 1..] == (front[..i] + front[i + 1..]) + [ships[n]];
      CountAppend(front[..i] + front[i + 1..], ships[n], k);
    }
  }

  // ---------------------------------------------------------------------------------------
  // place_ships

  /** Scanning past a prefix of free cells reports what the rest of the scan reports. */
  lemma {:induction false} FirstFaultAt(board: Grid, cells: seq<Coord>, i: nat)
    requires WellFormed(board) && i <= |cells|
    requires forall j :: 0 <= j < i ==> CellFree(board, cells[j])
    ensures FirstFault(board, cells) == FirstFault(board, cells[i..])
    decreases i
  {
    if i > 0 {
      assert CellFree(board, cells[0]);
      FirstFaultAt(board, cells[1..], i - 1);
      assert cells[1..][i - 1..] == cells[i..];
    }
  }

  /** The scan accepts iff every cell is on the board and free. */
  lemma {:induction false} FirstFaultNone(board: Grid, cells: seq<Coord>)
    requires WellFormed(board)
    ensures FirstFault(board, cells) == None <==> forall j :: 0 <= j < |cells| ==> CellFree(board, cells[j])
  {
    if cells != [] {
      FirstFaultNone(board, cells[1..]);
      assert forall j :: 1 <= j < |cells| ==> cells[j] == cells[1..][j - 1];
    }
  }

  /** When the scan rejects, it names the fault of the first cell that is not free: off the
      board, or on the board and already "S". */
  lemma {:induction false} FirstFaultSome(board: Grid, cells: seq<Coord>)
    requires WellFormed(board) && FirstFault(board, cells).Some?
    ensures exists i ::
              && 0 <= i < |cells| && (forall j :: 0 <= j < i ==> CellFree(board, cells[j]))
              && !CellFree(board, cells[i])
              && FirstFault(board, cells).value == (if InBounds(cells[i]) then Overlap else OutOfBounds)
  {
    if CellFree(board, cells[0]) {
      var rest := cells[1..];
      FirstFaultSome(board, rest);
      var i :| 0 <= i < |rest| && (forall j :: 0 <= j < i ==> CellFree(board, rest[j]))
        && !CellFree(board, rest[i])
        && FirstFault(board, rest).value == (if InBounds(rest[i]) then Overlap else OutOfBounds);
      assert cells[i + 1] == rest[i];
      forall j | 0 <= j < i + 1
        ensures CellFree(board, cells[j])
      {
        if j > 0 { assert cells[j] == rest[j - 1]; }
      }
    } else {
      assert !CellFree(board, cells[0]);
    }
  }

  /** A rejected placement changes nothing, and each rejection has its stated cause. */
  lemma PlaceRejects(s: Side, x0: int, y0: int, length: int, orientation: string)
    requires WellFormed(s.board) && length in InitialFleet && length in s.shipsLeft
    ensures var (s', r) := PlaceOnSide(s, x0, y0, length, orientation);
      var cells := ShipCells(x0, y0, length, orientation);
      && (r == NoMoreShips(length) <==> s.shipsLeft[length] == 0)
      && (r == ShipPlaced <==>
            s.shipsLeft[length] != 0 && forall i :: 0 <= i < length ==> CellFree(s.board, cells[i]))
      && (r == OutOfBounds ==> exists i :: 0 <= i < length && !InBounds(cells[i]))
      && (r == Overlap ==>
            exists i :: 0 <= i < length && InBounds(cells[i]) && s.board[cells[i].1][cells[i].0] == ShipCell)
      && (r != ShipPlaced ==> s' == s)
  {
    var cells := ShipCells(x0, y0, length, orientation);
    FirstFaultNone(s.board, cells);
    if FirstFault(s.board, cells).Some? {
      FirstFaultSome(s.board, cells);
    }
  }

  /** An accepted placement marks exactly the ship's cells "S" on the player's board, appends
      one unsunk ship with those cells, decrements the counter for its length, and changes
      nothing else. */
  lemma PlaceCommits(s: Side, x0: int, y0: int, length: int, orientation: string)
    requires WellFormed(s.board) && BoardMatchesShips(s) && length in InitialFleet && length in s.shipsLeft
    requires PlaceOnSide(s, x0, y0, length, orientation).1 == ShipPlaced
    ensures var s' := PlaceOnSide(s, x0, y0, length, orientation).0;
      var cells := ShipCells(x0, y0, length, orientation);
      && |cells| == length
      && (forall i :: 0 <= i < length ==>
            cells[i] == if orientation == "horizontal" then (x0 + i, y0) else (x0, y0 + i))
      && (forall i :: 0 <= i < length ==> InBounds(cells[i]) && s.board[cells[i].1][cells[i].0] == Empty)
      && (forall y, x :: 0 <= y < Size && 0 <= x < Size ==>
            s'.board[y][x] == if (x, y) in cells then ShipCell else s.board[y][x])
      && s'.placed == s.placed + [Ship(cells, false)]
      && s'.shipsLeft == s.shipsLeft[length := s.shipsLeft[length] - 1]
      && s'.hits == s.hits && s'.ready == s.ready && s'.restart == s.restart
      && s'.tempDisconnect == s.tempDisconnect && s'.fullDisconnect == s.fullDisconnect
  {
    var cells := ShipCells(x0, y0, length, orientation);
    FirstFaultNone(s.board, cells);
    forall i | 0 <= i < length
      ensures InBounds(cells[i]) && s.board[cells[i].1][cells[i].0] == Empty
    {
      assert CellFree(s.board, cells[i]);
    }
  }

  /** Placing keeps the board in step with the ship list. */
  lemma PlaceKeepsBoard(s: Side, x0: int, y0: int, length: int, orientation: string)
    requires WellFormed(s.board) && BoardMatchesShips(s) && length in InitialFleet && length in s.shipsLeft
    ensures BoardMatchesShips(PlaceOnSide(s, x0, y0, length, orientation).0)
  {
    var (s', r) := PlaceOnSide(s, x0, y0, length, orientation);
    if r == ShipPlaced {
      var cells := ShipCells(x0, y0, length, orientation);
      forall y, x | 0 <= y < Size && 0 <= x < Size
        ensures s'.board[y][x] == ShipCell <==> Covered(s'.placed, (x, y))
      {
        CoveredAppend(s.placed, Ship(cells, false), (x, y));
      }
    }
  }

  /** An accepted ship's cells are on the board and held by no placed ship. */
  lemma PlacedCellsFresh(s: Side, x0: int, y0: int, length: int, orientation: string)
    requires WellFormed(s.board) && BoardMatchesShips(s) && length in InitialFleet && length in s.shipsLeft
    requires PlaceOnSide(s, x0, y0, length, orientation).1 == ShipPlaced
    ensures forall c :: c in ShipCells(x0, y0, length, orientation) ==> InBounds(c) && !Covered(s.placed, c)
  {
    var cells := ShipCells(x0, y0, length, orientation);
    FirstFaultNone(s.board, cells);
    forall c | c in cells
      ensures InBounds(c) && !Covered(s.placed, c)
    {
      var i :| 0 <= i < |cells| && cells[i] == c;
      assert CellFree(s.board, cells[i]);
    }
  }

  /** Appending a ship of fleet length whose cells are on the board and unoccupied keeps the
      ship list on the board, non-overlapping and of fleet lengths. */
  lemma AppendKeepsShips(ships: seq<Ship>, ship: Ship)
    requires ShipsInBounds(ships) && ShipsDisjoint(ships) && LengthsInFleet(ships)
    requires |ship.coords| in InitialFleet
    requires forall c :: c in ship.coords ==> InBounds(c) && !Covered(ships, c)
    ensures var all := ships + [ship];
      ShipsInBounds(all) && ShipsDisjoint(all) && LengthsInFleet(all)
  {
    var all := ships + [ship];
    var n := |ships|;
    assert forall j :: 0 <= j < n ==> all[j] == ships[j];
    assert all[n] == ship;
    forall i, j, c | 0 <= i < |all| && 0 <= j < |all| && i != j && c in all[i].coords
      ensures c !in all[j].coords
    {
      if i == n {
        assert !Covered(ships, c);
      } else if j == n {
        assert Covered(ships, c);
      }
    }
  }

  /** Appending a ship of a fleet length whose counter is positive, and decrementing that
      counter, keeps the counters balanced. */
  lemma AppendKeepsFleet(s: Side, s': Side, ship: Ship)
    requires FleetBalanced(s) && |ship.coords| in InitialFleet && s.shipsLeft[|ship.coords|] > 0
    requires s'.placed == s.placed + [ship]
    requires s'.shipsLeft == s.shipsLeft[|ship.coords| := s.shipsLeft[|ship.coords|] - 1]
    ensures FleetBalanced(s')
  {
    forall k | k in InitialFleet
      ensures 0 <= s'.shipsLeft[k] && s'.shipsLeft[k] + CountLength(s'.placed, k) == InitialFleet[k]
    {
      CountAppend(s.placed, ship, k);
    }
  }

  /** Placing keeps the counters balanced against the ship list. */
  lemma PlaceKeepsFleet(s: Side, x0: int, y0: int, length: int, orientation: string)
    requires WellFormed(s.board) && FleetBalanced(s) && length in InitialFleet
    ensures FleetBalanced(PlaceOnSide(s, x0, y0, length, orientation).0)
  {
    if PlaceOnSide(s, x0, y0, length, orientation).1 == ShipPlaced {
      PlaceUpdate(s, x0, y0, length, orientation);
      assert s.shipsLeft[length] > 0;
      AppendKeepsFleet(s, PlaceOnSide(s, x0, y0, length, orientation).0,
                       Ship(ShipCells(x0, y0, length, orientation), false));
    }
  }

  /** Placing keeps the side consistent. */
  lemma PlaceKeepsSide(s: Side, x0: int, y0: int, length: int, orientation: string)
    requires ValidSide(s) && length in InitialFleet
    ensures ValidSide(PlaceOnSide(s, x0, y0, length, orientation).0)
  {
    var (s', r) := PlaceOnSide(s, x0, y0, length, orientation);
    PlaceKeepsBoard(s, x0, y0, length, orientation);
    PlaceKeepsFleet(s, x0, y0, length, orientation);
    if r == ShipPlaced {
      PlacedCellsFresh(s, x0, y0, length, orientation);
      AppendKeepsShips(s.placed, Ship(ShipCells(x0, y0, length, orientation), false));
    }
  }

  /** An unsunk ship appended to a list keeps its sunk flags covered. */
  lemma AppendUnsunkKeepsCovered(ships: seq<Ship>, ship: Ship, hits: Grid)
    requires SunkCovered(ships, hits) && !ship.sunk
    ensures SunkCovered(ships + [ship], hits)
  {
    var all := ships + [ship];
    assert forall j :: 0 <= j < |ships| ==> all[j] == ships[j];
  }

  /** The sunk flags of a side and of each other side are covered by the opposing shot logs. */
  predicate OthersCovered(g: Game, player: User, s: Side)
  {
    forall q :: q in g.sides && q != player ==>
      SunkCovered(s.placed, g.sides[q].hits) && SunkCovered(g.sides[q].placed, s.hits)
  }

  /** Replacing one player's side keeps the record consistent when the new side is consistent
      and the sunk flags on both sides stay covered by the opposing shot logs. */
  lemma ValidGameUpdate(g: Game, player: User, s': Side)
    requires ValidGame(g) && player in g.sides && ValidSide(s') && OthersCovered(g, player, s')
    ensures ValidGame(g.(sides := g.sides[player := s']))
  {
  }

  lemma ValidGameCovers(g: Game, player: User)
    requires ValidGame(g) && player in g.sides
    ensures OthersCovered(g, player, g.sides[player])
  {
  }

  /** A committed placement only appends an unsunk ship and leaves the shot log alone. */
  lemma PlaceShape(s: Side, x0: int, y0: int, length: int, orientation: string)
    requires WellFormed(s.board) && length in InitialFleet && length in s.shipsLeft
    requires PlaceOnSide(s, x0, y0, length, orientation).1 == ShipPlaced
    ensures var s' := PlaceOnSide(s, x0, y0, length, orientation).0;
      s'.placed == s.placed + [Ship(ShipCells(x0, y0, length, orientation), false)] && s'.hits == s.hits
  {
  }

  lemma AppendKeepsOthersCovered(g: Game, player: User, s: Side, s': Side, ship: Ship)
    requires OthersCovered(g, player, s) && !ship.sunk
    requires s'.placed == s.placed + [ship] && s'.hits == s.hits
    ensures OthersCovered(g, player, s')
  {
    forall q | q in g.sides && q != player
      ensures SunkCovered(s'.placed, g.sides[q].hits)
    {
      AppendUnsunkKeepsCovered(s.placed, ship, g.sides[q].hits);
    }
  }

  /** After a committed placement the player's side is consistent and the sunk flags on both
      sides stay covered. */
  lemma PlaceKeepsParts(g: Game, player: User, x0: int, y0: int, length: int, orientation: string)
    requires player in g.sides && length in InitialFleet
    requires ValidSide(g.sides[player]) && OthersCovered(g, player, g.sides[player])
    requires PlaceOnSide(g.sides[player], x0, y0, length, orientation).1 == ShipPlaced
    ensures var s' := PlaceOnSide(g.sides[player], x0, y0, length, orientation).0;
      ValidSide(s') && OthersCovered(g, player, s')
  {
    var s := g.sides[player];
    PlaceKeepsSide(s, x0, y0, length, orientation);
    PlaceShape(s, x0, y0, length, orientation);
    AppendKeepsOthersCovered(g, player, s, PlaceOnSide(s, x0, y0, length, orientation).0,
                             Ship(ShipCells(x0, y0, length, orientation), false));
  }

  lemma PlacePreservesValid(g: Game, player: User, x0: int, y0: int, length: int, orientation: string)
    requires ValidGame(g) && player in g.sides && length in InitialFleet
    ensures ValidGame(PlaceSpec(g, player, x0, y0, length, orientation).0)
  {
    var (s', r) := PlaceOnSide(g.sides[player], x0, y0, length, orientation);
    if r == ShipPlaced {
      ValidGameCovers(g, player);
      PlaceKeepsParts(g, player, x0, y0, length, orientation);
      ValidGameUpdate(g, player, s');
    }
  }

  /** With no ship at (x, y) nothing changes; otherwise the first ship there is removed: its
      cells become "" on the board, it leaves the list, and the counter for its length goes
      up by one. Nothing else changes. */
  lemma RemoveOutcome(s: Side, x: int, y: int)
    requires WellFormed(s.board) && LengthsTracked(s)
    ensures var (s', r) := RemoveFromSide(s, x, y);
      && (r == NoShipFound <==> !Covered(s.placed, (x, y)))
      && (r == NoShipFound ==> s' == s)
      && (r == ShipRemoved ==>
            exists i :: 0 <= i < |s.placed| && (x, y) in s.placed[i].coords
              && (forall j :: 0 <= j < i ==> (x, y) !in s.placed[j].coords)
              && (forall y', x' :: 0 <= y' < Size && 0 <= x' < Size ==>
                    s'.board[y'][x'] == if (x', y') in s.placed[i].coords then Empty else s.board[y'][x'])
              && s'.placed == s.placed[..i] + s.placed[i + 1..]
              && var k := |s.placed[i].coords|;
                 s'.shipsLeft == s.shipsLeft[k := s.shipsLeft[k] + 1])
      && s'.hits == s.hits && s'.ready == s.ready && s'.restart == s.restart
      && s'.tempDisconnect == s.tempDisconnect && s'.fullDisconnect == s.fullDisconnect
  {
    var r := FirstContaining(s.placed, (x, y));
    if r.Some? {
      var i := r.value;
      var s' := RemoveFromSide(s, x, y).0;
      var k := |s.placed[i].coords|;
      assert s' == s.(board := Paint(s.board, s.placed[i].coords, Empty),
                      placed := s.placed[..i] + s.placed[i + 1..],
                      shipsLeft := s.shipsLeft[k := s.shipsLeft[k] + 1]);
      assert forall y', x' :: 0 <= y' < Size && 0 <= x' < Size ==>
               s'.board[y'][x'] == if (x', y') in s.placed[i].coords then Empty else s.board[y'][x'];
    }
  }

  /** The list without ship i: the ships before i, then the ships after it. */
  lemma RestAt(ships: seq<Ship>, i: nat)
    requires i < |ships|
    ensures var rest := ships[..i] + ships[i + 1..];
      && |rest| == |ships| - 1
      && forall j :: 0 <= j < |rest| ==> rest[j] == if j < i then ships[j] else ships[j + 1]
  {
  }

  /** Dropping a ship keeps the list on the board, non-overlapping, of fleet lengths, and its
      sunk flags covered. */
  lemma DropKeepsShips(ships: seq<Ship>, i: nat)
    requires i < |ships|
    requires ShipsInBounds(ships) && ShipsDisjoint(ships) && LengthsInFleet(ships)
    ensures var rest := ships[..i] + ships[i + 1..];
      ShipsInBounds(rest) && ShipsDisjoint(rest) && LengthsInFleet(rest)
  {
    var rest := ships[..i] + ships[i + 1..];
    RestAt(ships, i);
    forall a, b, c | 0 <= a < |rest| && 0 <= b < |rest| && a != b && c in rest[a].coords
      ensures c !in rest[b].coords
    {
      var a' := if a < i then a else a + 1;
      var b' := if b < i then b else b + 1;
      assert rest[a] == ships[a'] && rest[b] == ships[b'] && a' != b';
    }
  }

  /** Dropping a ship keeps the sunk flags of the rest covered. */
  lemma DropKeepsCovered(ships: seq<Ship>, i: nat, hits: Grid)
    requires i < |ships| && SunkCovered(ships, hits)
    ensures SunkCovered(ships[..i] + ships[i + 1..], hits)
  {
    var rest := ships[..i] + ships[i + 1..];
    RestAt(ships, i);
    forall j, c | 0 <= j < |rest| && rest[j].sunk && c in rest[j].coords
      ensures InBounds(c) && hits[c.1][c.0] == HitMark
    {
      var j' := if j < i then j else j + 1;
      assert rest[j] == ships[j'];
    }
  }

  /** Removing keeps the board in step with the ship list. */
  lemma RemoveKeepsBoard(s: Side, x: int, y: int)
    requires WellFormed(s.board) && LengthsTracked(s) && BoardMatchesShips(s) && ShipsDisjoint(s.placed)
    ensures BoardMatchesShips(RemoveFromSide(s, x, y).0)
  {
    var (s', r) := RemoveFromSide(s, x, y);
    if r == ShipRemoved {
      var i := FirstContaining(s.placed, (x, y)).value;
      assert s'.placed == s.placed[..i] + s.placed[i + 1..];
      forall y', x' | 0 <= y' < Size && 0 <= x' < Size
        ensures s'.board[y'][x'] == ShipCell <==> Covered(s'.placed, (x', y'))
      {
        CoveredRemove(s.placed, i, (x', y'));
      }
    }
  }

  /** Removing keeps the counters balanced against the ship list. */
  lemma RemoveKeepsFleet(s: Side, x: int, y: int)
    requires WellFormed(s.board) && LengthsTracked(s) && FleetBalanced(s)
    ensures FleetBalanced(RemoveFromSide(s, x, y).0)
  {
    var (s', r) := RemoveFromSide(s, x, y);
    if r == ShipRemoved {
      var i := FirstContaining(s.placed, (x, y)).value;
      assert s'.placed == s.placed[..i] + s.placed[i + 1..];
      forall k | k in InitialFleet
        ensures 0 <= s'.shipsLeft[k] && s'.shipsLeft[k] + CountLength(s'.placed, k) == InitialFleet[k]
      {
        CountRemove(s.placed, i, k);
      }
    }
  }

  /** A consistent side tracks a counter for every placed ship's length. */
  lemma ValidSideTracksLengths(s: Side)
    requires ValidSide(s)
    ensures LengthsTracked(s)
  {
    assert forall j :: 0 <= j < |s.placed| ==> |s.placed[j].coords| in InitialFleet.Keys;
  }

  /** Removing keeps the side consistent. */
  lemma RemoveKeepsSide(s: Side, x: int, y: int)
    requires ValidSide(s)
    ensures ValidSide(RemoveFromSide(s, x, y).0)
  {
    ValidSideTracksLengths(s);
    var (s', r) := RemoveFromSide(s, x, y);
    RemoveKeepsBoard(s, x, y);
    RemoveKeepsFleet(s, x, y);
    if r == ShipRemoved {
      var i := FirstContaining(s.placed, (x, y)).value;
      DropKeepsShips(s.placed, i);
    }
  }

  /** A removal only drops the first ship holding the cell and leaves the shot log alone. */
  lemma RemoveShape(s: Side, x: int, y: int)
    requires WellFormed(s.board) && LengthsTracked(s)
    requires RemoveFromSide(s, x, y).1 == ShipRemoved
    ensures FirstContaining(s.placed, (x, y)).Some?
    ensures var s' := RemoveFromSide(s, x, y).0;
      var i := FirstContaining(s.placed, (x, y)).value;
      s'.placed == s.placed[..i] + s.placed[i + 1..] && s'.hits == s.hits
  {
  }

  lemma DropKeepsOthersCovered(g: Game, player: User, s: Side, s': Side, i: nat)
    requires OthersCovered(g, player, s) && i < |s.placed|
    requires s'.placed == s.placed[..i] + s.placed[i + 1..] && s'.hits == s.hits
    ensures OthersCovered(g, player, s')
  {
    forall q | q in g.sides && q != player
      ensures SunkCovered(s'.placed, g.sides[q].hits)
    {
      DropKeepsCovered(s.placed, i, g.sides[q].hits);
    }
  }

  /** After a removal the player's side is consistent and the sunk flags on both sides stay
      covered. */
  lemma RemoveKeepsParts(g: Game, player: User, x: int, y: int)
    requires player in g.sides && ValidSide(g.sides[player]) && OthersCovered(g, player, g.sides[player])
    ensures LengthsTracked(g.sides[player])
    ensures var (s', r) := RemoveFromSide(g.sides[player], x, y);
      r == ShipRemoved ==> ValidSide(s') && OthersCovered(g, player, s')
  {
    var s := g.sides[player];
    ValidSideTracksLengths(s);
    var (s', r) := RemoveFromSide(s, x, y);
    if r == ShipRemoved {
      RemoveKeepsSide(s, x, y);
      RemoveShape(s, x, y);
      DropKeepsOthersCovered(g, player, s, s', FirstContaining(s.placed, (x, y)).value);
    }
  }

  lemma RemovePreservesValid(g: Game, player: User, x: int, y: int)
    requires ValidGame(g) && player in g.sides
    ensures ValidGame(RemoveSpec(g, player, x, y).0)
  {
    ValidGameCovers(g, player);
    RemoveKeepsParts(g, player, x, y);
    var (s', r) := RemoveFromSide(g.sides[player], x, y);
    if r == ShipRemoved {
      ValidGameUpdate(g, player, s');
    }
  }

  /** Painting cells that were Empty with ShipCell and then with Empty restores the grid. */
  lemma PaintUndone(b: Grid, cells: seq<Coord>)
    requires WellFormed(b)
    requires forall y, x :: 0 <= y < Size && 0 <= x < Size && (x, y) in cells ==> b[y][x] == Empty
    ensures Paint(Paint(b, cells, ShipCell), cells, Empty) == b
  {
    GridExt(Paint(Paint(b, cells, ShipCell), cells, Empty), b);
  }

  /** The side after a committed placement, as a record update. */
  lemma PlaceUpdate(s: Side, x0: int, y0: int, length: int, orientation: string)
    requires WellFormed(s.board) && length in InitialFleet && length in s.shipsLeft
    requires PlaceOnSide(s, x0, y0, length, orientation).1 == ShipPlaced
    ensures var cells := ShipCells(x0, y0, length, orientation);
      PlaceOnSide(s, x0, y0, length, orientation).0
        == s.(board := Paint(s.board, cells, ShipCell),
              placed := s.placed + [Ship(cells, false)],
              shipsLeft := s.shipsLeft[length := s.shipsLeft[length] - 1])
  {
  }

  /** The first ship holding a cell is the one a front-to-back search stops at. */
  lemma FirstContainingAt(ships: seq<Ship>, c: Coord, j: nat)
    requires j < |ships| && c in ships[j].coords
    requires forall k :: 0 <= k < j ==> c !in ships[k].coords
    ensures FirstContaining(ships, c) == Some(j)
  {
    assert Covered(ships, c);
  }

  /** A cell held by no earlier ship is first held by an appended ship that holds it. */
  lemma FirstContainingLast(ships: seq<Ship>, ship: Ship, c: Coord)
    requires !Covered(ships, c) && c in ship.coords
    ensures FirstContaining(ships + [ship], c) == Some(|ships|)
  {
    var all := ships + [ship];
    assert all[|ships|] == ship;
    assert forall j :: 0 <= j < |ships| ==> all[j] == ships[j];
  }

  /** The cells of a board consistent with its ships that no ship holds are Empty. */
  lemma FreeCellsEmpty(s: Side, cells: seq<Coord>)
    requires WellFormed(s.board) && BoardMatchesShips(s)
    requires forall c :: c in cells ==> InBounds(c) && !Covered(s.placed, c)
    ensures forall y, x :: 0 <= y < Size && 0 <= x < Size && (x, y) in cells ==> s.board[y][x] == Empty
  {
  }

  /** Removing, at any of its cells, a ship just appended on empty cells undoes the append. */
  lemma RemoveAfterAppend(s: Side, s': Side, cells: seq<Coord>, length: int, i: nat)
    requires WellFormed(s.board) && LengthsTracked(s)
    requires length in s.shipsLeft && |cells| == length && i < length
    requires !Covered(s.placed, cells[i])
    requires forall y, x :: 0 <= y < Size && 0 <= x < Size && (x, y) in cells ==> s.board[y][x] == Empty
    requires s' == s.(board := Paint(s.board, cells, ShipCell),
                      placed := s.placed + [Ship(cells, false)],
                      shipsLeft := s.shipsLeft[length := s.shipsLeft[length] - 1])
    ensures LengthsTracked(s')
    ensures RemoveFromSide(s', cells[i].0, cells[i].1) == (s, ShipRemoved)
  {
    var ship := Ship(cells, false);
    var n := |s.placed|;
    assert forall j :: 0 <= j < n ==> s'.placed[j] == s.placed[j];
    assert s'.placed[n] == ship;
    assert LengthsTracked(s');
    FirstContainingLast(s.placed, ship, cells[i]);
    assert s'.placed[..n] + s'.placed[n + 1..] == s.placed;
    PaintUndone(s.board, cells);
    assert s.shipsLeft[length := s.shipsLeft[length] - 1][length := s.shipsLeft[length]] == s.shipsLeft;
  }

  /** Placing a ship and then removing it at one of its cells restores the side. */
  lemma PlaceThenRemove(s: Side, x0: int, y0: int, length: int, orientation: string, i: nat)
    requires WellFormed(s.board) && BoardMatchesShips(s) && LengthsTracked(s)
    requires length in InitialFleet && length in s.shipsLeft
    requires PlaceOnSide(s, x0, y0, length, orientation).1 == ShipPlaced
    requires i < length
    ensures LengthsTracked(PlaceOnSide(s, x0, y0, length, orientation).0)
    ensures var s' := PlaceOnSide(s, x0, y0, length, orientation).0;
      var c := ShipCells(x0, y0, length, orientation)[i];
      RemoveFromSide(s', c.0, c.1) == (s, ShipRemoved)
  {
    PlaceUpdate(s, x0, y0, length, orientation);
    PlacedCellsFresh(s, x0, y0, length, orientation);
    FreeCellsEmpty(s, ShipCells(x0, y0, length, orientation));
    RemoveAfterAppend(s, PlaceOnSide(s, x0, y0, length, orientation).0,
                      ShipCells(x0, y0, length, orientation), length, i);
  }

  // ---------------------------------------------------------------------------------------
  // set_ready

  /** set_ready succeeds exactly when every fleet counter is 0, and then only the player's
      ready flag changes (to true); otherwise nothing changes. */
  lemma ReadyOutcome(g: Game, player: User)
    requires ValidGame(g) && player in g.sides
    ensures var (g', r) := ReadySpec(g, player);
      var s := g.sides[player];
      && (r == NowReady <==> forall k :: k in s.shipsLeft ==> s.shipsLeft[k] == 0)
      && (r == ShipsRemaining ==> g' == g)
      && (r == NowReady ==> g' == g.(sides := g.sides[player := s.(ready := true)]))
  {
    assert ValidSide(g.sides[player]);
  }

  /** Under the invariant, all counters are 0 exactly when the whole fleet is on the board. */
  lemma ReadyIffFleetPlaced(s: Side)
    requires ValidSide(s)
    ensures !AnyShipsLeft(s.shipsLeft) <==>
            forall k :: k in InitialFleet ==> CountLength(s.placed, k) == InitialFleet[k]
  {
    if !AnyShipsLeft(s.shipsLeft) {
      forall k | k in InitialFleet ensures CountLength(s.placed, k) == InitialFleet[k] {
        assert k in s.shipsLeft;
      }
    }
  }

  lemma ReadyPreservesValid(g: Game, player: User)
    requires ValidGame(g) && player in g.sides
    ensures ValidGame(ReadySpec(g, player).0)
  {
    var (g', r) := ReadySpec(g, player);
    if r == NowReady {
      ValidGameUpdate(g, player, g.sides[player].(ready := true));
    }
  }

  // ---------------------------------------------------------------------------------------
  // make_move

  /** A move out of turn, or at a cell the mover has already shot, changes nothing. */
  lemma MoveRejects(g: Game, player: User, x: int, y: int)
    requires MoveAllowed(g, player, x, y)
    ensures g.turn != player ==> MoveSpec(g, player, x, y) == (g, NotYourTurn)
    ensures g.turn == player && g.sides[player].hits[y][x] != Empty ==> MoveSpec(g, player, x, y) == (g, Repeat)
  {
  }

  /** A valid move fires at (x, y) on the enemy's side and hands the turn to the enemy; no
      other part of the record changes. */
  lemma MoveFires(g: Game, player: User, x: int, y: int)
    requires MoveAllowed(g, player, x, y)
    requires g.turn == player && g.sides[player].hits[y][x] == Empty
    ensures var (g', r) := MoveSpec(g, player, x, y);
      var enemy := Enemy(g, player);
      var (me', them', outcome) := Fire(g.sides[player], g.sides[enemy], x, y);
      && enemy != player
      && r == Fired(outcome, x, y, enemy)
      && g' == g.(sides := g.sides[player := me'][enemy := them'], turn := enemy)
  {
  }

  /** A shot writes one cell of the shooter's log ("X" iff the target board has a ship there),
      flags sunk only the first target ship holding the cell and only when all its cells are
      then "X", and changes nothing else on either side. A hit that sinks no ship reports
      "HIT"; one that sinks a ship but leaves another afloat reports "SUNK SHIP" with the
      length of the sunk ship. */
  lemma FireEffect(me: Side, them: Side, x: int, y: int)
    requires WellFormed(me.hits) && WellFormed(them.board) && InBounds((x, y))
    ensures var (me', them', outcome) := Fire(me, them, x, y);
      var hit := them.board[y][x] == ShipCell;
      && (outcome == Miss <==> !hit)
      && WellFormed(me'.hits)
      && (forall y', x' :: 0 <= y' < Size && 0 <= x' < Size ==>
            me'.hits[y'][x'] == if (x', y') == (x, y) then (if hit then HitMark else MissMark) else me.hits[y'][x'])
      && me' == me.(hits := me'.hits)
      && them' == them.(placed := them'.placed)
      && |them'.placed| == |them.placed|
      && (forall j :: 0 <= j < |them.placed| ==>
            && them'.placed[j].coords == them.placed[j].coords
            && (them'.placed[j].sunk <==>
                  them.placed[j].sunk
                  || (hit && FirstContaining(them.placed, (x, y)) == Some(j)
                      && AllHit(them.placed[j].coords, me'.hits))))
    ensures var (me', them', outcome) := Fire(me, them, x, y);
      var hit := them.board[y][x] == ShipCell;
      var f := FirstContaining(them.placed, (x, y));
      var sinks := f.Some? && AllHit(them.placed[f.value].coords, me'.hits);
      && (outcome == Hit <==> hit && !sinks)
      && (outcome.SunkShip? <==> hit && sinks && !AllSunk(them'.placed))
      && (outcome.SunkShip? ==> outcome.length == |them.placed[f.value].coords|)
  {
  }

  /** A shot at a cell not yet in the shooter's log reports "win" exactly when it hit a ship
      and every target ship is then sunk. */
  lemma FireWinIff(me: Side, them: Side, x: int, y: int)
    requires WellFormed(me.hits) && WellFormed(them.board) && InBounds((x, y))
    requires BoardMatchesShips(them) && SunkCovered(them.placed, me.hits) && me.hits[y][x] == Empty
    ensures var (me', them', outcome) := Fire(me, them, x, y);
      outcome == Win <==> them.board[y][x] == ShipCell && AllSunk(them'.placed)
  {
    var (me', them', outcome) := Fire(me, them, x, y);
    if them.board[y][x] == ShipCell && AllSunk(them'.placed) {
      assert Covered(them.placed, (x, y));
      var i := FirstContaining(them.placed, (x, y)).value;
      // The ship was not sunk before: a sunk ship's cells, (x, y) among them, are already "X"
      // in the shooter's log, yet (x, y) is still empty. So it is sunk now, by this shot.
      assert (x, y) in them.placed[i].coords;
      assert !them.placed[i].sunk;
      assert them'.placed[i].sunk;
      assert AllHit(them.placed[i].coords, me'.hits);
    }
  }

  /** A valid move reports "win" exactly when it hit a ship and every enemy ship is then sunk. */
  lemma MoveWinIff(g: Game, player: User, x: int, y: int)
    requires MoveAllowed(g, player, x, y)
    requires g.turn == player && g.sides[player].hits[y][x] == Empty
    ensures var (g', r) := MoveSpec(g, player, x, y);
      var enemy := Enemy(g, player);
      r.Fired? && (r.outcome == Win <==> g.sides[enemy].board[y][x] == ShipCell && AllSunk(g'.sides[enemy].placed))
  {
    var enemy := Enemy(g, player);
    var me := g.sides[player];
    var them := g.sides[enemy];
    assert ValidSide(them) && SunkCovered(them.placed, me.hits);
    MoveFires(g, player, x, y);
    FireWinIff(me, them, x, y);
  }

  /** Replacing a side's shot log by another well-formed grid keeps the side consistent. */
  lemma HitsKeepSide(s: Side, hits: Grid)
    requires ValidSide(s) && WellFormed(hits)
    ensures ValidSide(s.(hits := hits))
  {
  }

  /** Changing only sunk flags of a side's ships keeps the side consistent. */
  lemma FlagsKeepSide(s: Side, placed: seq<Ship>)
    requires ValidSide(s) && |placed| == |s.placed|
    requires forall j :: 0 <= j < |placed| ==> placed[j].coords == s.placed[j].coords
    ensures ValidSide(s.(placed := placed))
  {
    var s' := s.(placed := placed);
    forall y, x | 0 <= y < Size && 0 <= x < Size
      ensures Covered(placed, (x, y)) <==> Covered(s.placed, (x, y))
    {
      if Covered(placed, (x, y)) {
        var j :| 0 <= j < |placed| && (x, y) in placed[j].coords;
        assert (x, y) in s.placed[j].coords;
      }
      if Covered(s.placed, (x, y)) {
        var j :| 0 <= j < |s.placed| && (x, y) in s.placed[j].coords;
        assert (x, y) in placed[j].coords;
      }
    }
    forall k ensures CountLength(placed, k) == CountLength(s.placed, k) {
      SameShapeSameCount(placed, s.placed, k);
    }
  }

  /** A shot at an empty cell of the log keeps the target's sunk flags covered by that log. */
  lemma FireKeepsCovered(me: Side, them: Side, x: int, y: int)
    requires WellFormed(me.hits) && WellFormed(them.board) && InBounds((x, y))
    requires SunkCovered(them.placed, me.hits) && me.hits[y][x] == Empty
    ensures var (me', them', outcome) := Fire(me, them, x, y);
      SunkCovered(them'.placed, me'.hits)
  {
    var (me', them', outcome) := Fire(me, them, x, y);
    FireEffect(me, them, x, y);
    forall j, c | 0 <= j < |them'.placed| && them'.placed[j].sunk && c in them'.placed[j].coords
      ensures InBounds(c) && me'.hits[c.1][c.0] == HitMark
    {
      if them.placed[j].sunk {
        assert c in them.placed[j].coords;
      }
    }
  }

  /** Replacing both sides and the turn keeps the record consistent when both new sides are
      consistent and each one's sunk flags are covered by the other's log. */
  lemma ValidGameUpdateBoth(g: Game, a: User, b: User, sa: Side, sb: Side, t: User)
    requires ValidGame(g) && a != b && a in g.sides && b in g.sides && (t == a || t == b)
    requires ValidSide(sa) && ValidSide(sb)
    requires SunkCovered(sa.placed, sb.hits) && SunkCovered(sb.placed, sa.hits)
    ensures ValidGame(g.(sides := g.sides[a := sa][b := sb], turn := t))
  {
  }

  lemma MovePreservesValid(g: Game, player: User, x: int, y: int)
    requires MoveAllowed(g, player, x, y)
    ensures ValidGame(MoveSpec(g, player, x, y).0)
  {
    if g.turn == player && g.sides[player].hits[y][x] == Empty {
      var enemy := Enemy(g, player);
      var me := g.sides[player];
      var them := g.sides[enemy];
      var (me', them', outcome) := Fire(me, them, x, y);
      MoveFires(g, player, x, y);
      FireEffect(me, them, x, y);
      HitsKeepSide(me, me'.hits);
      FlagsKeepSide(them, them'.placed);
      FireKeepsCovered(me, them, x, y);
      ValidGameUpdateBoth(g, player, enemy, me', them', enemy);
    }
  }

  /** Two lists with the same ship cells hold the same number of ships of each length. */
  lemma {:induction false} SameShapeSameCount(a: seq<Ship>, b: seq<Ship>, k: int)
    requires |a| == |b| && forall j :: 0 <= j < |a| ==> a[j].coords == b[j].coords
    ensures CountLength(a, k) == CountLength(b, k)
  {
    if a != [] {
      SameShapeSameCount(a[..|a| - 1], b[..|b| - 1], k);
    }
  }

  /** Turns alternate: right after a valid move the same player is told it is not their turn,
      wherever they aim. */
  lemma TurnAlternates(g: Game, player: User, x: int, y: int, x2: int, y2: int)
    requires MoveAllowed(g, player, x, y)
    requires MoveSpec(g, player, x, y).1.Fired?
    ensures MoveAllowed(MoveSpec(g, player, x, y).0, player, x2, y2)
    ensures var g' := MoveSpec(g, player, x, y).0;
      MoveSpec(g', player, x2, y2) == (g', NotYourTurn)
  {
    MovePreservesValid(g, player, x, y);
  }

  // ---------------------------------------------------------------------------------------
  // get_game_state

  /** The view hands the viewer the opponent's raw board: its "S" cells are exactly the cells
      of the opponent's placed ships, sunk or not. */
  lemma ViewRevealsOpponentShips(g: Game, player: User)
    requires ViewAllowed(g, player)
    ensures var v := StateView(g, player);
      var them := g.sides[Enemy(g, player)];
      WellFormed(v.opponentBoard) &&
      forall y, x :: 0 <= y < Size && 0 <= x < Size ==>
        (v.opponentBoard[y][x] == ShipCell <==> Covered(them.placed, (x, y)))
  {
    assert ValidSide(g.sides[Enemy(g, player)]);
  }

  /** The two players' views mirror each other. */
  lemma ViewsMirror(g: Game)
    requires ValidGame(g) && g.players.0 != g.players.1
    ensures var (p1, p2) := g.players;
      var v1 := StateView(g, p1);
      var v2 := StateView(g, p2);
      && v1.ownBoard == v2.opponentBoard && v1.opponentBoard == v2.ownBoard
      && v1.hits == v2.opponentHits && v1.opponentHits == v2.hits
      && v1.ready == v2.opponentReady && v1.opponentReady == v2.ready
      && v1.turn == v2.turn && v1.winner == v2.winner && v1.restart == v2.restart
  {
  }
}
