# Battleship engine, invites and player status — a Dafny model

This project models the server-side core of a two-player battleship web application:

* **The game engine** (`GameEngine` in `backend/api/game_engine.py`). It is an in-memory
  dictionary from game id to game record. Each record holds, for each of the two players:
  * a 10×10 board of ship cells;
  * a 10×10 log of the player's own shots (`"X"` hit, `"O"` miss);
  * a fleet counter `{2:1, 3:2, 4:1, 5:1}`;
  * the list of placed ships, each with its coords and a sunk flag;
  * the ready, restart and disconnect flags.

  The record also holds the turn and the winner. The operations are `create_game`,
  `place_ships`, `remove_ship`, `set_ready`, `make_move`, `get_game_state` and `end_game`.
* **The invite bookkeeping** (`InviteService`). It keeps two families of sets in a key-value
  store: `invites_incoming:{to}` holds who invited `to`, and `invites_outgoing:{from}` holds
  whom `from` invited.
* **The per-game player status flags** (`GameService`). For each game id the store keeps a
  hash from username to a record of three booleans: temporary disconnect, full disconnect and
  restart vote.
* **The pair ids the lobby derives** for a game (`game-{p1}-{p2}`) and a chat (`{p1}_{p2}`)
  from the sorted pair of usernames.

Module layout:

| file | module | contents |
|---|---|---|
| `wrappers.dfy` | `Wrappers` | `Option` |
| `users.dfy` | `Users` | `User`, the username every other module keys on |
| `game_model.dfy` | `GameModel` | cells, grids, ships, sides, game records; the consistency invariant `ValidGame`; each engine operation on one record as a pure function (`PlaceSpec`, `RemoveSpec`, `ReadySpec`, `MoveSpec`, `StateView`) |
| `game_props.dfy` | `GameProps` | what those functions promise: rejection and success effects, invariant preservation, place-then-remove, the win condition, turn hand-over |
| `engine.dfy` | `Engine` | class `GameEngine` over `games: map<string, Game>`, with the loops of the source as methods proved equal to the functions above |
| `invites.dfy` | `Invites` | the store's set commands, the invite operations, the pairing invariant, class `InviteService` |
| `player_status.dfy` | `PlayerStatus` | status records, the hash store, class `GameService` |
| `pair_ids.dfy` | `PairIds` | sorted pairs, the ids as written, the collision, ids that cannot collide |

### How each class is proved

Each class method is proved to leave exactly the state a pure specification function gives
for the old state: `games == old(games)[id := g']`, where `(g', r) := PlaceSpec(...)`. Every
method of `GameEngine` also keeps `Valid()`: every stored record satisfies `ValidGame`. That
invariant says:
* the `"S"` cells of each board are exactly the cells of that player's placed ships;
* the ships are in bounds, pairwise disjoint and of fleet lengths;
* for every length, counter plus ships placed equals the initial count;
* a ship flagged sunk has every cell hit in the opponent's log.

The loops of `place_ships`, `remove_ship` and `make_move` are methods with loop invariants:
`CollectCells`, `WriteCells`, `RemoveFromBoard` and `FireAt`. Each is proved equal to the
function that specifies it.

## Model

| member | source | states |
|---|---|---|
| GameModel.CreateEmptyBoard | backend/api/game_engine.py:1-2 | a 10×10 grid whose every cell is empty |
| Engine.GameEngine.constructor | backend/api/game_engine.py:5-6 | the engine starts with no games, trivially consistent |
| GameModel.NewGame | backend/api/game_engine.py:8-45 | definition of the record `create_game` stores; its promises are in GameProps.NewGameProperties |
| GameProps.NewGameProperties | backend/api/game_engine.py:8-45 | a new record is consistent; both players have empty boards and shot logs, the full fleet `{2:1,3:2,4:1,5:1}`, no ships and all flags false; `turn` is player1 and there is no winner |
| Engine.GameEngine.CreateGame | backend/api/game_engine.py:8-45 | stores the new record under the id, replacing any record already there; every other id is unchanged; all records stay consistent |
| Engine.GameEngine.GetGame | backend/api/game_engine.py:47-48 | returns a stored record, which is consistent when the engine is |
| GameModel.Enemy | backend/api/game_engine.py:132 | the opponent is a listed player other than the mover |
| GameModel.ShipCells | backend/api/game_engine.py:63-65 | definition of the cells of a ship; their formula is stated in GameProps.PlaceCommits |
| Engine.CollectCells | backend/api/game_engine.py:61-73 | the cell loop rejects with exactly the first fault met in cell order (`FirstFault`); without a fault it returns the ship's cells in order |
| GameModel.FirstFault | backend/api/game_engine.py:63-71 | a rejection found while scanning cells is always "out of bounds" or "overlap" |
| GameProps.FirstFaultNone | backend/api/game_engine.py:63-73 | no fault iff every cell is on the board and not "S" |
| GameProps.FirstFaultSome | backend/api/game_engine.py:63-71 | a fault is reported at the first bad cell: "overlap" when it is on the board, "out of bounds" otherwise |
| GameModel.Paint | backend/api/game_engine.py:75-76 | after writing a mark into a list of cells, exactly those cells hold it and every other cell is unchanged |
| GameModel.SetCell | backend/api/game_engine.py:140 | a single write `grid[y][x] = mark` changes that cell alone |
| Engine.WriteCells | backend/api/game_engine.py:75-76 | the write loop produces the painted grid |
| Engine.PlaceOnBoard | backend/api/game_engine.py:55-84 | the body of `place_ships` on one side equals `PlaceOnSide` |
| GameModel.PlaceOnSide | backend/api/game_engine.py:55-84 | definition of `place_ships` on one side; its promises are in GameProps.PlaceRejects, GameProps.PlaceCommits, GameProps.PlaceKeepsSide and GameProps.PlaceThenRemove |
| GameModel.PlaceSpec | backend/api/game_engine.py:50-84 | definition of `place_ships` on a record; its promises are in GameProps.PlacePreservesValid and Engine.GameEngine.PlaceShips |
| GameProps.PlaceRejects | backend/api/game_engine.py:58-73 | "no more ships" iff the counter is 0; "placed" iff the counter is positive and every cell is free; "out of bounds" only with a cell off the board, "overlap" only with an "S" cell; every rejection leaves the side unchanged |
| GameProps.PlaceCommits | backend/api/game_engine.py:63-82 | on success the cells run right from the start for "horizontal" and down otherwise; they were empty; exactly they become "S"; one unsunk ship with them is appended; the counter drops by 1; nothing else changes |
| GameProps.PlaceKeepsBoard | backend/api/game_engine.py:75-81 | placing keeps the "S" cells equal to the union of the placed ships' cells |
| GameProps.PlaceKeepsFleet | backend/api/game_engine.py:78-82 | placing keeps counter plus ships placed equal to the initial fleet, for every length |
| GameProps.PlaceKeepsSide | backend/api/game_engine.py:58-84 | placing keeps a side consistent (board, bounds, disjointness, fleet) |
| GameProps.PlacePreservesValid | backend/api/game_engine.py:50-84 | `place_ships` keeps the whole record consistent |
| Engine.GameEngine.PlaceShips | backend/api/game_engine.py:50-84 | changes the record under the id exactly as `PlaceSpec`; returns its result; keeps every record consistent |
| GameModel.FirstContaining | backend/api/game_engine.py:95-99 | the search finds the first ship holding the cell, and finds none iff no ship holds it |
| GameProps.FirstContainingAt | backend/api/game_engine.py:96-99 | a ship holding the cell with no earlier one holding it is the one the search finds |
| Engine.RemoveFromBoard | backend/api/game_engine.py:91-108 | the body of `remove_ship` on one side equals `RemoveFromSide` |
| GameModel.RemoveFromSide | backend/api/game_engine.py:91-108 | definition of `remove_ship` on one side; its promises are in GameProps.RemoveOutcome and GameProps.RemoveKeepsSide |
| GameModel.RemoveSpec | backend/api/game_engine.py:86-108 | definition of `remove_ship` on a record; its promises are in GameProps.RemovePreservesValid and Engine.GameEngine.RemoveShip |
| GameProps.RemoveOutcome | backend/api/game_engine.py:95-108 | "no ship found" iff no ship covers the cell, with nothing changed; otherwise the first covering ship's cells are cleared and nothing else on the board; that ship leaves the list; its length's counter rises by 1; the other fields are untouched |
| GameProps.RemoveKeepsBoard | backend/api/game_engine.py:101-104 | removing keeps the "S" cells equal to the union of the placed ships' cells |
| GameProps.RemoveKeepsFleet | backend/api/game_engine.py:104-105 | removing keeps counter plus ships placed equal to the initial fleet |
| GameProps.RemoveKeepsSide | backend/api/game_engine.py:101-105 | removing keeps a side consistent |
| GameProps.RemovePreservesValid | backend/api/game_engine.py:86-108 | `remove_ship` keeps the whole record consistent |
| Engine.GameEngine.RemoveShip | backend/api/game_engine.py:86-108 | changes the record under the id exactly as `RemoveSpec`; keeps every record consistent |
| GameProps.PaintUndone | backend/api/game_engine.py:75-76 | painting empty cells "S" and then clearing them restores the board |
| GameProps.PlaceThenRemove | backend/api/game_engine.py:63-105 | placing a ship and then removing it at any one of its cells restores the side exactly (board, list, counters) and reports "ship removed" |
| GameModel.ReadySpec | backend/api/game_engine.py:111-120 | definition of `set_ready` on a record; its promises are in GameProps.ReadyOutcome and GameProps.ReadyIffFleetPlaced |
| GameProps.ReadyOutcome | backend/api/game_engine.py:116-120 | "ready" iff every counter is 0; in that case only the player's ready flag becomes true and nothing else changes; otherwise nothing changes |
| GameProps.ReadyIffFleetPlaced | backend/api/game_engine.py:116 | on a consistent side, no counter is positive iff the whole initial fleet is on the board |
| GameProps.ReadyPreservesValid | backend/api/game_engine.py:111-120 | `set_ready` keeps the record consistent |
| Engine.GameEngine.SetReady | backend/api/game_engine.py:111-120 | changes the record under the id exactly as `ReadySpec`; keeps every record consistent |
| GameModel.MoveSpec | backend/api/game_engine.py:123-163 | definition of `make_move` on a record; its promises are in GameProps.MoveRejects, GameProps.MoveFires, GameProps.MoveWinIff and GameProps.MovePreservesValid |
| GameModel.Fire | backend/api/game_engine.py:139-154 | definition of the shot between the mover's side and the enemy's; its promises are in GameProps.FireEffect and GameProps.FireWinIff |
| GameModel.ResolveHit | backend/api/game_engine.py:143-151 | definition of the ship search after a hit; its promises are in GameProps.FireEffect and GameProps.FireWinIff |
| GameProps.MoveRejects | backend/api/game_engine.py:129-137 | out of turn (at any coordinates), or at a cell the mover already shot, the record is unchanged and the result is "not your turn" or "repeat" |
| GameProps.MoveFires | backend/api/game_engine.py:129-163 | otherwise the shot is resolved between the mover's side and the opponent's; only those two sides change; the turn passes to the opponent; the result carries the outcome, x, y and the next turn |
| GameProps.FireEffect | backend/api/game_engine.py:139-154 | "miss" iff the enemy board has no "S" at (x, y); "hit" iff it has one and the first ship holding the cell is not then fully "X"; "sunk ship" iff that ship is then fully "X" and some enemy ship is still afloat, carrying that ship's length; exactly that shot-log cell changes, to "X" on a hit and "O" on a miss; the enemy's ships keep their cells; a ship becomes sunk only if it is the first ship holding the hit cell and all its cells are then "X"; nothing else of either side changes |
| GameProps.FireWinIff | backend/api/game_engine.py:139-151 | a fresh shot reports "win" iff it hits and every enemy ship is sunk afterwards |
| GameProps.MoveWinIff | backend/api/game_engine.py:139-156 | a move in turn at a fresh cell fires, and reports "win" iff it hits and every enemy ship of the new record is sunk |
| GameProps.FireKeepsCovered | backend/api/game_engine.py:143-148 | after a shot every sunk flag still has all its cells hit |
| GameProps.MovePreservesValid | backend/api/game_engine.py:123-163 | `make_move` keeps the record consistent |
| GameProps.TurnAlternates | backend/api/game_engine.py:129-156 | after a move that fires, the same player's next move, aimed anywhere, is refused as "not your turn" and leaves the record unchanged |
| Engine.FireAt | backend/api/game_engine.py:139-154 | the shot loop (mark, search the ship, sunk flag, win check) equals `Fire` |
| Engine.GameEngine.MakeMove | backend/api/game_engine.py:123-163 | changes the record under the id exactly as `MoveSpec`; keeps every record consistent |
| GameModel.StateView | backend/api/game_engine.py:165-186 | definition of the view `get_game_state` returns; its promises are in Engine.GameEngine.GetGameState, GameProps.ViewRevealsOpponentShips and GameProps.ViewsMirror |
| Engine.GameEngine.GetGameState | backend/api/game_engine.py:165-186 | the view gives, for the viewer, their own board, shot log, ships, counters and ready flag; for the opponent, their raw board, shot log, ready flag and full-disconnect flag; it also gives every player's restart flag, the turn and the winner |
| GameProps.ViewRevealsOpponentShips | backend/api/game_engine.py:175 | the opponent board in the view shows "S" exactly at the opponent's ship cells |
| GameProps.ViewsMirror | backend/api/game_engine.py:165-186 | the two players' views mirror each other: own and opponent boards, logs and ready flags swap; turn, winner and restart flags agree |
| Engine.GameEngine.EndGame | backend/api/game_engine.py:188-190 | forgets the record under the id when there is one; nothing else changes |
| Invites.KeysDistinct | backend/api/consumers/services/invite_service.py:18-24 | no incoming key equals an outgoing key |
| Invites.KeysInjective | backend/api/consumers/services/invite_service.py:18-24 | different users have different keys in each family |
| Invites.SAdd | backend/api/consumers/services/redis_service.py:48-61 | adding a member grows that one set by it; every other key is unchanged; no empty set appears |
| Invites.SRem | backend/api/consumers/services/redis_service.py:64-73 | removing a member shrinks that one set by it; every other key is unchanged; an emptied key disappears |
| Invites.SRemAbsent | backend/api/consumers/services/redis_service.py:64-73 | removing an absent member changes nothing |
| Invites.AddInviteSpec | backend/api/consumers/services/invite_service.py:18-25 | definition of `add_invite` on the store; its promises are in Invites.AddInviteEffect, Invites.AddInviteKeepsPaired and Invites.AddInviteIdempotent |
| Invites.RemoveInviteSpec | backend/api/consumers/services/invite_service.py:36-43 | definition of `remove_invite` on the store; its promises are in Invites.RemoveInviteEffect, Invites.RemoveInviteKeepsPaired and Invites.RemoveAbsentInvite |
| Invites.StateOf | backend/api/consumers/services/invite_service.py:57-63 | definition of `get_state` on the store; its promises are in Invites.InviteService.GetState |
| Invites.ExpiredIn | backend/api/consumers/services/invite_service.py:77-83 | definition of `invites_expired` on the store; its promises are in Invites.ExpiredIffEmpty |
| Invites.AddInviteEffect | backend/api/consumers/services/invite_service.py:18-25 | afterwards a is in b's incoming set and b in a's outgoing set; those two sets gain only that member; every other user's sets and every other key are unchanged |
| Invites.RemoveInviteEffect | backend/api/consumers/services/invite_service.py:36-43 | afterwards a is not in b's incoming set and b not in a's outgoing set; those two sets lose only that member; everything else is unchanged |
| Invites.AddInviteKeepsPaired | backend/api/consumers/services/invite_service.py:10-25 | `add_invite` keeps a ∈ incoming[b] ⇔ b ∈ outgoing[a] for all users |
| Invites.RemoveInviteKeepsPaired | backend/api/consumers/services/invite_service.py:28-43 | `remove_invite` keeps that pairing |
| Invites.AddInviteIdempotent | backend/api/consumers/services/invite_service.py:18-25 | sending the same invite twice leaves the same store as sending it once |
| Invites.RemoveAbsentInvite | backend/api/consumers/services/invite_service.py:36-43 | removing an invite that is not there changes nothing |
| Invites.AddThenRemoveInvite | backend/api/consumers/services/invite_service.py:18-43 | sending a new invite and then withdrawing it restores the store exactly |
| Invites.ExpiredIffEmpty | backend/api/consumers/services/invite_service.py:77-83 | "expired" iff user2's whole incoming set and user1's whole outgoing set are empty |
| Invites.InviteService.constructor | backend/api/consumers/services/invite_service.py:3-7 | the service starts over an empty store |
| Invites.InviteService.AddInvite | backend/api/consumers/services/invite_service.py:10-25 | the two writes in order give `AddInviteSpec` of the old store; the store keeps no empty set |
| Invites.InviteService.RemoveInvite | backend/api/consumers/services/invite_service.py:28-43 | the two writes in order give `RemoveInviteSpec` of the old store; the store keeps no empty set |
| Invites.InviteService.GetState | backend/api/consumers/services/invite_service.py:46-63 | incoming and outgoing are exactly the members under the user's two keys |
| Invites.InviteService.InvitesExpired | backend/api/consumers/services/invite_service.py:66-83 | true iff user2 has no incoming and user1 no outgoing invite at all |
| PlayerStatus.Put | backend/api/consumers/services/game_service.py:57 | setting one key of a record changes that key only |
| PlayerStatus.Lookup | backend/api/consumers/services/game_service.py:42-43 | definition of `get_player_status` on the hashes; its promises are in PlayerStatus.GameService.GetPlayerStatus |
| PlayerStatus.InitSpec | backend/api/consumers/services/game_service.py:22-28 | definition of `init_player_status` on the hashes; its promises are in PlayerStatus.InitThenLookup |
| PlayerStatus.SetSpec | backend/api/consumers/services/game_service.py:56-58 | definition of `set_status` on the hashes; its promises are in PlayerStatus.SetThenLookup and PlayerStatus.SetDecidesAllTrue |
| PlayerStatus.AllTrue | backend/api/consumers/services/game_service.py:73-74 | definition of `all_status_true` on the hashes; its promises are in PlayerStatus.AllTrueIffEveryStored and PlayerStatus.AllTrueVacuous |
| PlayerStatus.DeleteSpec | backend/api/consumers/services/game_service.py:84 | definition of `delete_game_status` on the hashes; its promises are in PlayerStatus.DeleteThenLookup |
| PlayerStatus.InitThenLookup | backend/api/consumers/services/game_service.py:22-43 | after `init_player_status` the record reads back with all three flags false; every other (game, user) reads as before |
| PlayerStatus.SetThenLookup | backend/api/consumers/services/game_service.py:56-58 | after `set_status` the key reads back as the value, the other keys of that record are unchanged, and every other (game, user) reads as before |
| PlayerStatus.AllTrueVacuous | backend/api/consumers/services/game_service.py:73-74 | with no records for the game the query is true |
| PlayerStatus.AllTrueIffEveryStored | backend/api/consumers/services/game_service.py:73-74 | the query holds iff every stored record of the game has the flag true |
| PlayerStatus.SetDecidesAllTrue | backend/api/consumers/services/game_service.py:56-74 | clearing a flag makes the query false; setting it makes the query true iff every other stored player already has it |
| PlayerStatus.DeleteThenLookup | backend/api/consumers/services/game_service.py:77-84 | after deleting, every record of that game reads as absent and other games read as before |
| PlayerStatus.GameService.constructor | backend/api/consumers/services/game_service.py:4-8 | the service starts with no hashes |
| PlayerStatus.GameService.InitPlayerStatus | backend/api/consumers/services/game_service.py:11-28 | returns the all-false record and stores it as `InitSpec` says |
| PlayerStatus.GameService.GetPlayerStatus | backend/api/consumers/services/game_service.py:31-43 | a record is returned iff one is stored for that game and user, and it is the stored one |
| PlayerStatus.GameService.SetStatus | backend/api/consumers/services/game_service.py:46-58 | changes the store exactly as `SetSpec` |
| PlayerStatus.GameService.AllStatusTrue | backend/api/consumers/services/game_service.py:61-74 | true iff every stored record of the game has the flag true |
| PlayerStatus.GameService.DeleteGameStatus | backend/api/consumers/services/game_service.py:77-84 | removes the game's whole hash and nothing else |
| PairIds.SortedPair | backend/api/consumers/lobby_consumer.py:143 | definition of `sorted([a, b])`; its promises are in PairIds.SortedPairProperties |
| PairIds.GameIdFor | backend/api/consumers/lobby_consumer.py:143-144 | definition of the game id as written; its promises are in PairIds.IdsSymmetric and PairIds.GameIdsCollide |
| PairIds.ChatIdFor | backend/api/consumers/lobby_consumer.py:199-200 | definition of the chat id as written; its promises are in PairIds.IdsSymmetric and PairIds.ChatIdsCollide |
| PairIds.LexLeTotal | backend/api/consumers/lobby_consumer.py:143 | any two usernames are ordered one way or the other |
| PairIds.SortedPairProperties | backend/api/consumers/lobby_consumer.py:143 | the sorted pair holds the two users, the smaller first, whatever order they come in |
| PairIds.IdsSymmetric | backend/api/consumers/lobby_consumer.py:143-144 | both users compute the same game id, and in the same way the same chat id |
| PairIds.GameIdsCollide | backend/api/consumers/lobby_consumer.py:143-144 | two different pairs share a game id (see Findings) |
| PairIds.ChatIdsCollide | backend/api/consumers/lobby_consumer.py:199-200 | two different pairs share a chat id (see Findings) |
| PairIds.SafeGameIdCharacterize | backend/api/consumers/lobby_consumer.py:143-144 | corrected game id: symmetric, and two pairs share an id iff they are the same pair |
| PairIds.SafeChatIdCharacterize | backend/api/consumers/lobby_consumer.py:199-200 | corrected chat id: symmetric, and two pairs share an id iff they are the same pair |

## Left out

- Redis is modelled as values. The network client, connection handling and `async` scheduling are left out: each service operation is one atomic state change. Between the two writes of `add_invite` and `remove_invite`, another client could observe a half-done invite, and that is not modelled.
- Key time-to-live (`ex=60` on invite sets) and expiry are left out because they are time-based. As a result, `invites_expired` is modelled only as becoming true through removal.
- JSON encoding of the status records and of engine results is left out. Results are datatypes, and result strings are constructors.
- `get_state` returns lists; the model returns sets. SMEMBERS order is unspecified, so nothing depends on it.
- PlayerStatus.GameService.SetStatus: the key is one of the three flags. Setting any other string would add a new key to the record, and that case is not modelled.
- PlayerStatus.GameService.SetStatus: requires a stored record. The source would fail on `None[key]` without one.
- The websocket consumers, timers, chat and lobby services, views and routing are left out, as transport and plumbing.
- The older consumer sets the winner on a "win" result (`backend/api/game_consumer.py:101-102`); it is not part of this model. The engine never sets `winner`, so in this model `winner` stays `None`.
- The source keeps per-field dictionaries keyed by player (`boards`, `hits`, `ships_left` and the rest). The model groups them per player into a `Side`. This is a change of layout, not of behaviour.
- Python aliasing is not modelled: `get_game_state` returns references into the live record, while the model returns values.
- In-place mutation of nested lists is modelled as reassigning sequence values.
- The preconditions exclude calls on which the source raises instead of answering:
  - a missing game id: `get_game` indexes the dictionary, so the `if not game` branches can never be taken;
  - a player not in the game;
  - a length other than 2, 3, 4 or 5;
  - a `make_move` in turn at a cell off the board. An index of 10 or more, or of -11 or less, raises. An index from -10 to -1 wraps to the cell ten further on, so the repeat test and the shot-log mark use the wrapped cell, while the ship search (`backend/api/game_engine.py:144`) looks for the raw `(x, y)` and finds no ship. Out of turn, `make_move` answers "not your turn" before it reads the coordinates, so any coordinates are admitted there (`GameModel.MoveAllowed`);
  - `make_move` in turn, or `get_game_state`, when both players are the same user: the enemy list is then empty.
- No phase is modelled because the source has none:
  - `place_ships`, `remove_ship` and `set_ready` work at any time;
  - `make_move` needs neither ready flag;
  - placement can continue during play.

  A design calling for Placement, Battle and GameOver phases would differ; the model follows the code.
- The opponent's raw board, ship cells included, is part of every view, as the code returns it (`GameProps.ViewRevealsOpponentShips`). A design that hides unsunk ships would differ; the model follows the code.
- `remove_ship` removes the first list element equal to the found ship. That is the found ship itself, because an earlier equal ship would have been found first. So the model drops the found index.

## Findings

| source | as written | input that shows it | evidently intended | confidence | as-written member | corrected member |
|---|---|---|---|---|---|---|
| backend/api/consumers/lobby_consumer.py:143-144 | the game id joins the sorted usernames with "-", and usernames may contain "-" (Django's default username validator admits letters, digits and `@.+-_`) | the pairs ("a-b", "c") and ("a", "b-c") both give "game-a-b-c" | one game id per unordered pair of users | not executed; follows from the id format alone | PairIds.GameIdsCollide | PairIds.SafeGameIdCharacterize |
| backend/api/consumers/lobby_consumer.py:199-200 | the chat id joins the sorted usernames with "_", and usernames may contain "_" | the pairs ("a_b", "c") and ("a", "b_c") both give "a_b_c" | one chat id per unordered pair of users | not executed; follows from the id format alone | PairIds.ChatIdsCollide | PairIds.SafeChatIdCharacterize |

The corrected ids (`PairIds.SafeGameId`, `PairIds.SafeChatId`) join with ":". The username
validator admits no ":", so the first ":" after the prefix splits an id back into its two
users.
