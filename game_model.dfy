/** The data of the battleship engine (boards, shot logs, fleet counters, placed ships, the
    game record) and, for each engine operation, its effect on one game record as a pure
    function. The class in module Engine runs the same operations in place and is proved to
    agree with these functions; module GameProps proves what they promise. */
module GameModel {
  import opened Wrappers
  import opened Users

  /** A board position (x, y): column x, row y. Grids are indexed grid[y][x]. */
  type Coord = (int, int)

  const Size: int := 10

  /** One cell of a board or of a shot log. The engine writes the strings "" (Empty),
      "S" (ShipCell) on boards and "X" (HitMark), "O" (MissMark) in shot logs. */
  datatype Cell = Empty | ShipCell | HitMark | MissMark

  type Grid = seq<seq<Cell>>

  predicate WellFormed(g: Grid)
  {
    |g| == Size && forall y :: 0 <= y < Size ==> |g[y]| == Size
  }

  predicate InBounds(c: Coord)
  {
    0 <= c.0 < Size && 0 <= c.1 < Size
  }

  /** A fresh 10x10 grid; used both for boards and for shot logs. */
  function CreateEmptyBoard(): (b: Grid)
    ensures WellFormed(b)
    ensures forall y, x :: 0 <= y < Size && 0 <= x < Size ==> b[y][x] == Empty
  {
    seq(Size, _ => seq(Size, _ => Empty))
  }

  /** The grid after `mark` is written into each of `cells` in turn. */
  function Paint(g: Grid, cells: seq<Coord>, mark: Cell): (r: Grid)
    requires WellFormed(g)
    ensures WellFormed(r)
    ensures forall y, x :: 0 <= y < Size && 0 <= x < Size ==>
              r[y][x] == if (x, y) in cells then mark else g[y][x]
  {
    seq(Size, y requires 0 <= y < Size =>
      seq(Size, x requires 0 <= x < Size => if (x, y) in cells then mark else g[y][x]))
  }

  /** The grid after the single write grid[y][x] = mark. */
  function SetCell(g: Grid, c: Coord, mark: Cell): (r: Grid)
    requires WellFormed(g) && InBounds(c)
    ensures WellFormed(r)
    ensures forall y, x :: 0 <= y < Size && 0 <= x < Size ==>
              r[y][x] == if (x, y) == c then mark else g[y][x]
  {
    g[c.1 := g[c.1][c.0 := mark]]
  }

  /** An entry of a player's placed-ship list: its cells, in placement order, and the sunk flag. */
  datatype Ship = Ship(coords: seq<Coord>, sunk: bool)

  /** What a game record keeps for one player. The source keeps one dictionary per field,
      keyed by player; here the same data is grouped per player. */
  datatype Side = Side(
    board: Grid,              // own ships
    hits: Grid,               // own shots at the opponent
    shipsLeft: map<int, int>, // ship length -> ships of that length still to place
    placed: seq<Ship>,
    ready: bool,
    restart: bool,
    tempDisconnect: bool,
    fullDisconnect: bool)

  datatype Game = Game(
    players: (User, User),
    sides: map<User, Side>,
    turn: User,
    winner: Option<User>)

  /** The fleet: one ship of length 2, two of length 3, one each of lengths 4 and 5. */
  const InitialFleet: map<int, int> := map[2 := 1, 3 := 2, 4 := 1, 5 := 1]

  function NewSide(): Side
  {
    Side(CreateEmptyBoard(), CreateEmptyBoard(), InitialFleet, [], false, false, false, false)
  }

  /** The record `create_game` stores. */
  function NewGame(player1: User, player2: User): Game
  {
    Game((player1, player2), map[player1 := NewSide(), player2 := NewSide()], player1, None)
  }

  // ---------------------------------------------------------------------------------------
  // The invariant every stored record keeps

  /** Some placed ship occupies `c`. */
  predicate Covered(ships: seq<Ship>, c: Coord)
  {
    exists j :: 0 <= j < |ships| && c in ships[j].coords
  }

  /** The number of placed ships of length k. */
  function CountLength(ships: seq<Ship>, k: int): nat
  {
    if ships == [] then 0
    else CountLength(ships[..|ships| - 1], k) + (if |ships[|ships| - 1].coords| == k then 1 else 0)
  }

  /** The board holds only "" and "S", and its "S" cells are exactly the placed ships' cells. */
  predicate BoardMatchesShips(s: Side)
    requires WellFormed(s.board)
  {
    && (forall y, x :: 0 <= y < Size && 0 <= x < Size ==>
          s.board[y][x] == ShipCell || s.board[y][x] == Empty)
    && (forall y, x :: 0 <= y < Size && 0 <= x < Size ==>
          (s.board[y][x] == ShipCell <==> Covered(s.placed, (x, y))))
  }

  predicate ShipsInBounds(ships: seq<Ship>)
  {
    forall j, c :: 0 <= j < |ships| && c in ships[j].coords ==> InBounds(c)
  }

  predicate ShipsDisjoint(ships: seq<Ship>)
  {
    forall i, j, c :: 0 <= i < |ships| && 0 <= j < |ships| && i != j && c in ships[i].coords ==>
      c !in ships[j].coords
  }

  /** Every placed ship has one of the fleet's lengths. */
  predicate LengthsInFleet(ships: seq<Ship>)
  {
    forall j :: 0 <= j < |ships| ==> |ships[j].coords| in InitialFleet
  }

  /** For every length, the counter plus the placed ships of that length is the initial count. */
  predicate FleetBalanced(s: Side)
  {
    && s.shipsLeft.Keys == InitialFleet.Keys
    && (forall k :: k in InitialFleet ==>
          0 <= s.shipsLeft[k] && s.shipsLeft[k] + CountLength(s.placed, k) == InitialFleet[k])
  }

  /** One player's board, ship list and fleet counter agree: the "S" cells are exactly the
      cells of the placed ships, ships stay on the board and never overlap, and the counters
      account for every ship of the fleet. */
  predicate ValidSide(s: Side)
  {
    && WellFormed(s.board)
    && WellFormed(s.hits)
    && BoardMatchesShips(s)
    && ShipsInBounds(s.placed)
    && ShipsDisjoint(s.placed)
    && LengthsInFleet(s.placed)
    && FleetBalanced(s)
  }

  /** Every ship flagged sunk has all of its cells marked "X" in the attacker's shot log. */
  predicate SunkCovered(ships: seq<Ship>, hits: Grid)
  {
    && WellFormed(hits)
    && forall j, c :: 0 <= j < |ships| && ships[j].sunk && c in ships[j].coords ==>
         InBounds(c) && hits[c.1][c.0] == HitMark
  }

  predicate ValidGame(g: Game)
  {
    var (p1, p2) := g.players;
    && g.sides.Keys == {p1, p2}
    && (g.turn == p1 || g.turn == p2)
    && ValidSide(g.sides[p1])
    && ValidSide(g.sides[p2])
    && (p1 != p2 ==>
          SunkCovered(g.sides[p1].placed, g.sides[p2].hits) && SunkCovered(g.sides[p2].placed, g.sides[p1].hits))
  }

  /** The first listed player other than p. */
  function Enemy(g: Game, p: User): (e: User)
    requires g.players.0 != p || g.players.1 != p
    ensures e != p && (e == g.players.0 || e == g.players.1)
  {
    if g.players.0 != p then g.players.0 else g.players.1
  }

  // ---------------------------------------------------------------------------------------
  // place_ships

  datatype PlaceResult = ShipPlaced | NoMoreShips(length: int) | OutOfBounds | Overlap

  const Horizontal: string := "horizontal"

  /** The cells a ship of `length` starting at (x0, y0) covers: rightwards when the orientation
      is "horizontal", downwards for any other orientation string. */
  function ShipCells(x0: int, y0: int, length: nat, orientation: string): seq<Coord>
  {
    seq(length, i => if orientation == Horizontal then (x0 + i, y0) else (x0, y0 + i))
  }

  /** The cell is on the board and holds no ship. */
  predicate CellFree(board: Grid, c: Coord)
    requires WellFormed(board)
  {
    InBounds(c) && board[c.1][c.0] != ShipCell
  }

  /** The rejection the placement loop meets first when it scans `cells` in order. */
  function FirstFault(board: Grid, cells: seq<Coord>): (r: Option<PlaceResult>)
    requires WellFormed(board)
    ensures r.Some? ==> r.value == OutOfBounds || r.value == Overlap
  {
    if cells == [] then None
    else if !InBounds(cells[0]) then Some(OutOfBounds)
    else if board[cells[0].1][cells[0].0] == ShipCell then Some(Overlap)
    else FirstFault(board, cells[1..])
  }

  /** place_ships on one player's side. */
  function PlaceOnSide(s: Side, x0: int, y0: int, length: int, orientation: string): (Side, PlaceResult)
    requires WellFormed(s.board) && length in InitialFleet && length in s.shipsLeft
  {
    if s.shipsLeft[length] == 0 then (s, NoMoreShips(length))
    else
      var cells := ShipCells(x0, y0, length, orientation);
      match FirstFault(s.board, cells)
      case Some(fault) => (s, fault)
      case None =>
        (s.(board := Paint(s.board, cells, ShipCell),
            placed := s.placed + [Ship(cells, false)],
            shipsLeft := s.shipsLeft[length := s.shipsLeft[length] - 1]),
         ShipPlaced)
  }

  /** place_ships on a game record: the player's side is replaced when the ship is placed. */
  function PlaceSpec(g: Game, player: User, x0: int, y0: int, length: int, orientation: string)
    : (Game, PlaceResult)
    requires ValidGame(g) && player in g.sides && length in InitialFleet
  {
    var (s', r) := PlaceOnSide(g.sides[player], x0, y0, length, orientation);
    if r == ShipPlaced then (g.(sides := g.sides[player := s']), r) else (g, r)
  }

  // ---------------------------------------------------------------------------------------
  // remove_ship

  datatype RemoveResult = ShipRemoved | NoShipFound

  /** The index of the first ship in the list that occupies c. */
  function FirstContaining(ships: seq<Ship>, c: Coord): (r: Option<nat>)
    ensures r.Some? ==> r.value < |ships| && c in ships[r.value].coords
    ensures r.Some? ==> forall j :: 0 <= j < r.value ==> c !in ships[j].coords
    ensures r.None? <==> !Covered(ships, c)
  {
    if ships == [] then None
    else if c in ships[0].coords then Some(0)
    else
      match FirstContaining(ships[1..], c)
      case None => None
      case Some(i) => Some(i + 1)
  }

  /** Every placed ship's length has a fleet counter. */
  predicate LengthsTracked(s: Side)
  {
    forall j :: 0 <= j < |s.placed| ==> |s.placed[j].coords| in s.shipsLeft
  }

  /** remove_ship on one player's side. */
  function RemoveFromSide(s: Side, x: int, y: int): (Side, RemoveResult)
    requires WellFormed(s.board) && LengthsTracked(s)
  {
    match FirstContaining(s.placed, (x, y))
    case None => (s, NoShipFound)
    case Some(i) =>
      var ship := s.placed[i];
      var k := |ship.coords|;
      (s.(board := Paint(s.board, ship.coords, Empty),
          placed := s.placed[..i] + s.placed[i + 1..],
          shipsLeft := s.shipsLeft[k := s.shipsLeft[k] + 1]),
       ShipRemoved)
  }

  /** remove_ship on a game record: the player's side is replaced when a ship is removed. */
  function RemoveSpec(g: Game, player: User, x: int, y: int): (Game, RemoveResult)
    requires ValidGame(g) && player in g.sides
  {
    var (s', r) := RemoveFromSide(g.sides[player], x, y);
    if r == ShipRemoved then (g.(sides := g.sides[player := s']), r) else (g, r)
  }

  // ---------------------------------------------------------------------------------------
  // set_ready

  datatype ReadyResult = NowReady | ShipsRemaining

  /** Some fleet counter is still positive. */
  predicate AnyShipsLeft(shipsLeft: map<int, int>)
  {
    exists k :: k in shipsLeft && shipsLeft[k] > 0
  }

  function ReadySpec(g: Game, player: User): (Game, ReadyResult)
    requires player in g.sides
  {
    var s := g.sides[player];
    if AnyShipsLeft(s.shipsLeft) then (g, ShipsRemaining)
    else (g.(sides := g.sides[player := s.(ready := true)]), NowReady)
  }

  // ---------------------------------------------------------------------------------------
  // make_move

  /** "MISS", "HIT", "SUNK SHIP: <length>" and "win". */
  datatype ShotOutcome = Miss | Hit | SunkShip(length: nat) | Win

  /** "Not your turn.", "repeat", or a fired shot with its cell and the next player to move. */
  datatype MoveResult = NotYourTurn | Repeat | Fired(outcome: ShotOutcome, x: int, y: int, nextTurn: User)

  /** Every cell of the ship is marked "X" in the shot log. */
  predicate AllHit(coords: seq<Coord>, hits: Grid)
    requires WellFormed(hits)
  {
    forall c :: c in coords ==> InBounds(c) && hits[c.1][c.0] == HitMark
  }

  predicate AllSunk(ships: seq<Ship>)
  {
    forall j :: 0 <= j < |ships| ==> ships[j].sunk
  }

  /** A hit at c, already recorded in `hits`, against the target's ship list: the first ship
      holding c is flagged sunk when all its cells are hit, and the game is won when every
      ship of the list is then sunk. */
  function ResolveHit(ships: seq<Ship>, c: Coord, hits: Grid): (seq<Ship>, ShotOutcome)
    requires WellFormed(hits)
  {
    match FirstContaining(ships, c)
    case None => (ships, Hit)
    case Some(i) =>
      if AllHit(ships[i].coords, hits) then
        var ships' := ships[i := ships[i].(sunk := true)];
        (ships', if AllSunk(ships') then Win else SunkShip(|ships[i].coords|))
      else (ships, Hit)
  }

  /** The arguments make_move can be called with: an existing game and, when it is the caller's
      turn, a cell on the board and an opponent to fire at. Out of turn the source answers
      before it looks at the coordinates, so any coordinates are admitted there. */
  predicate MoveAllowed(g: Game, player: User, x: int, y: int)
  {
    ValidGame(g) && (player == g.turn ==> InBounds((x, y)) && g.players.0 != g.players.1)
  }

  /** A shot at (x, y) by the side `me` against the side `them`: "X" in the shooter's log over
      a ship cell, then the hit resolved against the target's ships; "O" otherwise. */
  function Fire(me: Side, them: Side, x: int, y: int): (Side, Side, ShotOutcome)
    requires WellFormed(me.hits) && WellFormed(them.board) && InBounds((x, y))
  {
    if them.board[y][x] == ShipCell then
      var hits := SetCell(me.hits, (x, y), HitMark);
      var (placed, outcome) := ResolveHit(them.placed, (x, y), hits);
      (me.(hits := hits), them.(placed := placed), outcome)
    else
      (me.(hits := SetCell(me.hits, (x, y), MissMark)), them, Miss)
  }

  function MoveSpec(g: Game, player: User, x: int, y: int): (Game, MoveResult)
    requires MoveAllowed(g, player, x, y)
  {
    if g.turn != player then (g, NotYourTurn)
    else
      var enemy := Enemy(g, player);
      var me := g.sides[player];
      if me.hits[y][x] != Empty then (g, Repeat)
      else
        var (me', them', outcome) := Fire(me, g.sides[enemy], x, y);
        (g.(sides := g.sides[player := me'][enemy := them'], turn := enemy), Fired(outcome, x, y, enemy))
  }

  // ---------------------------------------------------------------------------------------
  // get_game_state

  /** The dictionary get_game_state returns to `viewer`. */
  datatype GameView = GameView(
    players: (User, User),
    viewer: User,
    ownBoard: Grid,
    opponentBoard: Grid,
    hits: Grid,
    opponentHits: Grid,
    placedShips: seq<Ship>,
    shipsLeft: map<int, int>,
    ready: bool,
    opponentReady: bool,
    restart: map<User, bool>,
    opponentDisconnected: bool,
    turn: User,
    winner: Option<User>)

  /** The arguments get_game_state can be called with: a player of the game who has an opponent. */
  predicate ViewAllowed(g: Game, player: User)
  {
    ValidGame(g) && player in g.sides && g.players.0 != g.players.1
  }

  function StateView(g: Game, player: User): GameView
    requires ViewAllowed(g, player)
  {
    var enemy := Enemy(g, player);
    var me := g.sides[player];
    var them := g.sides[enemy];
    GameView(g.players, player, me.board, them.board, me.hits, them.hits, me.placed, me.shipsLeft,
             me.ready, them.ready, map p | p in g.sides :: g.sides[p].restart,
             them.fullDisconnect, g.turn, g.winner)
  }
}
