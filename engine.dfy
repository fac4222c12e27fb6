/** The in-memory battleship engine: a dictionary from game id to game record, changed in place
    by each operation. Every method is proved to have exactly the effect of the matching pure
    function of module GameModel, and to keep every stored record consistent (ValidGame). */
module Engine {
  import opened Wrappers
  import opened Users
  import opened GameModel
  import opened GameProps

  class GameEngine {
    var games: map<string, Game>

    /** Every stored game record is consistent. */
    ghost predicate Valid()
      reads this
    {
      forall id :: id in games ==> ValidGame(games[id])
    }

    constructor()
      ensures games == map[] && Valid()
    {
      games := map[];
    }

    /** create_game: a fresh record under `id`, replacing any record already stored there. */
    method CreateGame(id: string, player1: User, player2: User)
      requires Valid()
      modifies this
      ensures games == old(games)[id := NewGame(player1, player2)]
      ensures Valid()
    {
      NewGameProperties(player1, player2);
      games := games[id := NewGame(player1, player2)];
    }

    /** get_game: the stored record; the source indexes the dictionary directly, so the id must
        be present. */
    function GetGame(id: string): (g: Game)
      reads this
      requires id in games
      ensures g in games.Values
      ensures Valid() ==> ValidGame(g)
    {
      games[id]
    }

    /** place_ships on the stored record of `id`. */
    method PlaceShips(id: string, player: User, xStart: int, yStart: int, length: int, orientation: string)
      returns (r: PlaceResult)
      requires Valid() && id in games && player in games[id].sides && length in InitialFleet
      modifies this
      ensures var (g', r') := PlaceSpec(old(games)[id], player, xStart, yStart, length, orientation);
        games == old(games)[id := g'] && r == r'
      ensures Valid()
    {
      var g := games[id];
      assert ValidSide(g.sides[player]);
      var s';
      s', r := PlaceOnBoard(g.sides[player], xStart, yStart, length, orientation);
      PlacePreservesValid(g, player, xStart, yStart, length, orientation);
      if r == ShipPlaced {
        games := games[id := g.(sides := g.sides[player := s'])];
      }
    }

    /** remove_ship on the stored record of `id`. */
    method RemoveShip(id: string, player: User, x: int, y: int) returns (r: RemoveResult)
      requires Valid() && id in games && player in games[id].sides
      modifies this
      ensures var (g', r') := RemoveSpec(old(games)[id], player, x, y);
        games == old(games)[id := g'] && r == r'
      ensures Valid()
    {
      var g := games[id];
      assert ValidSide(g.sides[player]);
      ValidSideTracksLengths(g.sides[player]);
      var s';
      s', r := RemoveFromBoard(g.sides[player], x, y);
      RemovePreservesValid(g, player, x, y);
      if r == ShipRemoved {
        games := games[id := g.(sides := g.sides[player := s'])];
      }
    }

    /** set_ready: refuses while any fleet counter is positive; otherwise sets the ready flag. */
    method SetReady(id: string, player: User) returns (r: ReadyResult)
      requires Valid() && id in games && player in games[id].sides
      modifies this
      ensures var (g', r') := ReadySpec(old(games)[id], player);
        games == old(games)[id := g'] && r == r'
      ensures Valid()
    {
      var g := games[id];
      var s := g.sides[player];
      ReadyPreservesValid(g, player);
      if AnyShipsLeft(s.shipsLeft) {
        r := ShipsRemaining;
      } else {
        games := games[id := g.(sides := g.sides[player := s.(ready := true)])];
        r := NowReady;
      }
    }

    /** make_move: refuses out of turn and at a cell already shot; otherwise fires at the
        enemy and hands the turn over. */
    method MakeMove(id: string, player: User, x: int, y: int) returns (r: MoveResult)
      requires Valid() && id in games && MoveAllowed(games[id], player, x, y)
      modifies this
      ensures var (g', r') := MoveSpec(old(games)[id], player, x, y);
        games == old(games)[id := g'] && r == r'
      ensures Valid()
    {
      var g := games[id];
      MovePreservesValid(g, player, x, y);
      if g.turn != player {
        return NotYourTurn;
      }
      var enemy := Enemy(g, player);
      var me := g.sides[player];
      var them := g.sides[enemy];
      assert ValidSide(me) && ValidSide(them);
      if me.hits[y][x] != Empty {
        return Repeat;
      }
      var me', them', outcome := FireAt(me, them, x, y);
      games := games[id := g.(sides := g.sides[player := me'][enemy := them'], turn := enemy)];
      r := Fired(outcome, x, y, enemy);
    }

    /** get_game_state: the viewer's own data and the opponent's, as StateView describes. */
    function GetGameState(id: string, player: User): (v: GameView)
      reads this
      requires id in games && ViewAllowed(games[id], player)
      ensures v.viewer == player && v.players == games[id].players
      ensures v.ownBoard == games[id].sides[player].board
      ensures v.opponentBoard == games[id].sides[Enemy(games[id], player)].board
      ensures v.hits == games[id].sides[player].hits
      ensures v.opponentHits == games[id].sides[Enemy(games[id], player)].hits
      ensures v.placedShips == games[id].sides[player].placed
      ensures v.shipsLeft == games[id].sides[player].shipsLeft
      ensures v.ready == games[id].sides[player].ready
      ensures v.opponentReady == games[id].sides[Enemy(games[id], player)].ready
      ensures v.opponentDisconnected == games[id].sides[Enemy(games[id], player)].fullDisconnect
      ensures v.restart.Keys == games[id].sides.Keys
      ensures forall p :: p in v.restart ==> v.restart[p] == games[id].sides[p].restart
      ensures v.turn == games[id].turn && v.winner == games[id].winner
    {
      StateView(games[id], player)
    }

    /** end_game: forgets the record under `id`, if any. */
    method EndGame(id: string)
      requires Valid()
      modifies this
      ensures games == old(games) - {id}
      ensures Valid()
    {
      if id in games {
        games := games - {id};
      }
    }
  }

  /** The cell loop of place_ships: builds the cells of the ship one by one and stops at the
      first one that is off the board or already "S". */
  method CollectCells(board: Grid, xStart: int, yStart: int, length: nat, orientation: string)
    returns (coords: seq<Coord>, fault: Option<PlaceResult>)
    requires WellFormed(board)
    ensures fault == FirstFault(board, ShipCells(xStart, yStart, length, orientation))
    ensures fault == None ==> coords == ShipCells(xStart, yStart, length, orientation)
  {
    ghost var cells := ShipCells(xStart, yStart, length, orientation);
    coords := [];
    var i := 0;
    while i < length
      invariant 0 <= i <= length
      invariant coords == cells[..i]
      invariant forall j :: 0 <= j < i ==> CellFree(board, cells[j])
    {
      var x := if orientation == Horizontal then xStart + i else xStart;
      var y := if orientation == Horizontal then yStart else yStart + i;
      assert cells[i] == (x, y);
      if !(0 <= x < Size && 0 <= y < Size) {
        FirstFaultAt(board, cells, i);
        return coords, Some(OutOfBounds);
      }
      if board[y][x] == ShipCell {
        FirstFaultAt(board, cells, i);
        return coords, Some(Overlap);
      }
      coords := coords + [(x, y)];
      i := i + 1;
    }
    FirstFaultAt(board, cells, length);
    fault := None;
  }

  /** A loop writing `mark` into each of `cells` in turn, as board[y][x] = mark. */
  method WriteCells(board: Grid, cells: seq<Coord>, mark: Cell) returns (board': Grid)
    requires WellFormed(board) && forall c :: c in cells ==> InBounds(c)
    ensures board' == Paint(board, cells, mark)
  {
    board' := board;
    GridExt(Paint(board, cells[..0], mark), board');
    for k := 0 to |cells|
      invariant WellFormed(board')
      invariant board' == Paint(board, cells[..k], mark)
    {
      PaintStep(board, cells, k, mark);
      var (x, y) := cells[k];
      board' := board'[y := board'[y][x := mark]];
    }
    assert cells[..|cells|] == cells;
  }

  /** The body of place_ships on one player's side: checks the fleet counter, builds the cells
      (rejecting the first one off the board or already "S"), then paints them "S", appends the
      ship and decrements the counter. */
  method PlaceOnBoard(s: Side, xStart: int, yStart: int, length: int, orientation: string)
    returns (s': Side, r: PlaceResult)
    requires WellFormed(s.board) && length in InitialFleet && length in s.shipsLeft
    ensures (s', r) == PlaceOnSide(s, xStart, yStart, length, orientation)
  {
    if s.shipsLeft[length] == 0 {
      return s, NoMoreShips(length);
    }
    var coords, fault := CollectCells(s.board, xStart, yStart, length, orientation);
    if fault.Some? {
      return s, fault.value;
    }
    FirstFaultNone(s.board, coords);
    assert forall c :: c in coords ==> InBounds(c) by {
      forall c | c in coords ensures InBounds(c) {
        var j :| 0 <= j < |coords| && coords[j] == c;
        assert CellFree(s.board, coords[j]);
      }
    }
    var board := WriteCells(s.board, coords, ShipCell);
    s' := s.(board := board,
             placed := s.placed + [Ship(coords, false)],
             shipsLeft := s.shipsLeft[length := s.shipsLeft[length] - 1]);
    r := ShipPlaced;
  }

  /** The body of remove_ship on one player's side: finds the first ship holding (x, y); if
      there is one, clears its cells to "", drops it from the list and increments the counter
      for its length. */
  method RemoveFromBoard(s: Side, x: int, y: int) returns (s': Side, r: RemoveResult)
    requires WellFormed(s.board) && LengthsTracked(s) && ShipsInBounds(s.placed)
    ensures (s', r) == RemoveFromSide(s, x, y)
  {
    var ships := s.placed;
    var found: Option<nat> := None;
    var j := 0;
    while j < |ships|
      invariant 0 <= j <= |ships|
      invariant found == None
      invariant forall k :: 0 <= k < j ==> (x, y) !in ships[k].coords
    {
      if (x, y) in ships[j].coords {
        FirstContainingAt(ships, (x, y), j);
        found := Some(j);
        break;
      }
      j := j + 1;
    }
    if found == None {
      assert !Covered(ships, (x, y));
      return s, NoShipFound;
    }
    var n := found.value;
    var ship := ships[n];
    var board := WriteCells(s.board, ship.coords, Empty);
    var len := |ship.coords|;
    s' := s.(board := board,
             placed := ships[..n] + ships[n + 1..],
             shipsLeft := s.shipsLeft[len := s.shipsLeft[len] + 1]);
    r := ShipRemoved;
  }

  /** The shot of make_move: "X" in the shooter's log over a ship cell, then a search of the
      target's ships for the first one holding the cell, flagged sunk when all its cells are
      "X" (a win when every ship is then sunk); "O" otherwise. */
  method FireAt(me: Side, them: Side, x: int, y: int) returns (me': Side, them': Side, outcome: ShotOutcome)
    requires WellFormed(me.hits) && WellFormed(them.board) && InBounds((x, y))
    ensures (me', them', outcome) == Fire(me, them, x, y)
  {
    var hitBoard := me.hits;
    var placed := them.placed;
    if them.board[y][x] == ShipCell {
      hitBoard := hitBoard[y := hitBoard[y][x := HitMark]];
      outcome := Hit;
      var j := 0;
      while j < |placed|
        invariant 0 <= j <= |placed|
        invariant placed == them.placed && outcome == Hit
        invariant forall k :: 0 <= k < j ==> (x, y) !in placed[k].coords
      {
        if (x, y) in placed[j].coords {
          FirstContainingAt(placed, (x, y), j);
          if AllHit(placed[j].coords, hitBoard) {
            outcome := SunkShip(|placed[j].coords|);
            placed := placed[j := placed[j].(sunk := true)];
            if AllSunk(placed) {
              outcome := Win;
            }
          }
          break;
        }
        j := j + 1;
      }
    } else {
      hitBoard := hitBoard[y := hitBoard[y][x := MissMark]];
      outcome := Miss;
    }
    me' := me.(hits := hitBoard);
    them' := them.(placed := placed);
  }
}
