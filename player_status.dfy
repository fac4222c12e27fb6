/** Per-game player status flags: for each game id a hash from username to a record of three
    flags (temporary disconnect, full disconnect, restart vote). The queries decide rematch and
    teardown: a flag that is true for every stored player of the game. */
module PlayerStatus {
  import opened Wrappers

  import opened Users

  datatype Status = Status(tempDisconnect: bool, fullDisconnect: bool, restart: bool)

  /** The three record keys "temp_disconnect", "full_disconnect" and "restart". */
  datatype Flag = TempDisconnect | FullDisconnect | Restart

  /** The record init_player_status writes: every flag false. */
  const InitialStatus: Status := Status(false, false, false)

  /** status[key] */
  function Get(s: Status, k: Flag): bool
  {
    match k
    case TempDisconnect => s.tempDisconnect
    case FullDisconnect => s.fullDisconnect
    case Restart => s.restart
  }

  /** status[key] = value */
  function Put(s: Status, k: Flag, v: bool): (r: Status)
    ensures Get(r, k) == v
    ensures forall k' :: k' != k ==> Get(r, k') == Get(s, k')
  {
    match k
    case TempDisconnect => s.(tempDisconnect := v)
    case FullDisconnect => s.(fullDisconnect := v)
    case Restart => s.(restart := v)
  }

  /** Game id -> (username -> record). A missing game id reads as an empty hash. */
  type Hashes = map<string, map<User, Status>>

  function RecordsOf(h: Hashes, game: string): map<User, Status>
  {
    if game in h then h[game] else map[]
  }

  /** get_player_status: the stored record, or None. */
  function Lookup(h: Hashes, game: string, user: User): Option<Status>
  {
    var records := RecordsOf(h, game);
    if user in records then Some(records[user]) else None
  }

  function InitSpec(h: Hashes, game: string, user: User): Hashes
  {
    h[game := RecordsOf(h, game)[user := InitialStatus]]
  }

  /** set_status: read the record, change one key, write it back. */
  function SetSpec(h: Hashes, game: string, user: User, k: Flag, v: bool): Hashes
    requires Lookup(h, game, user).Some?
  {
    h[game := h[game][user := Put(h[game][user], k, v)]]
  }

  /** all_status_true: the flag is true in every stored record of the game. */
  predicate AllTrue(h: Hashes, game: string, k: Flag)
  {
    forall u :: u in RecordsOf(h, game) ==> Get(RecordsOf(h, game)[u], k)
  }

  function DeleteSpec(h: Hashes, game: string): Hashes
  {
    h - {game}
  }

  // ---------------------------------------------------------------------------------------
  // What the operations promise

  /** After init_player_status the record reads back with every flag false; nothing else
      changes. */
  lemma InitThenLookup(h: Hashes, game: string, user: User)
    ensures var h' := InitSpec(h, game, user);
      && Lookup(h', game, user) == Some(InitialStatus)
      && (forall k :: !Get(Lookup(h', game, user).value, k))
      && (forall g, u :: (g, u) != (game, user) ==> Lookup(h', g, u) == Lookup(h, g, u))
  {
    var h' := InitSpec(h, game, user);
    forall k ensures !Get(Lookup(h', game, user).value, k) {
    }
  }

  /** set_status changes exactly the one key of the one record. */
  lemma SetThenLookup(h: Hashes, game: string, user: User, k: Flag, v: bool)
    requires Lookup(h, game, user).Some?
    ensures var h' := SetSpec(h, game, user, k, v);
      && Lookup(h', game, user).Some?
      && Get(Lookup(h', game, user).value, k) == v
      && (forall k' :: k' != k ==> Get(Lookup(h', game, user).value, k') == Get(Lookup(h, game, user).value, k'))
      && (forall g, u :: (g, u) != (game, user) ==> Lookup(h', g, u) == Lookup(h, g, u))
  {
  }

  /** With no record stored for the game the flag is vacuously true for all players. */
  lemma AllTrueVacuous(h: Hashes, game: string, k: Flag)
    requires forall u :: Lookup(h, game, u) == None
    ensures AllTrue(h, game, k)
  {
    forall u
      ensures u !in RecordsOf(h, game)
    {
      assert Lookup(h, game, u) == None;
    }
  }

  /** all_status_true holds iff every stored player has the flag set. */
  lemma AllTrueIffEveryStored(h: Hashes, game: string, k: Flag)
    ensures AllTrue(h, game, k) <==>
              forall u :: Lookup(h, game, u).Some? ==> Get(Lookup(h, game, u).value, k)
  {
    if forall u :: Lookup(h, game, u).Some? ==> Get(Lookup(h, game, u).value, k) {
      forall u | u in RecordsOf(h, game)
        ensures Get(RecordsOf(h, game)[u], k)
      {
        assert Lookup(h, game, u).Some?;
      }
    }
  }

  /** The last stored player to set a flag makes it true for all; a player clearing it makes it
      false for all. */
  lemma SetDecidesAllTrue(h: Hashes, game: string, user: User, k: Flag, v: bool)
    requires Lookup(h, game, user).Some?
    ensures var h' := SetSpec(h, game, user, k, v);
      && (!v ==> !AllTrue(h', game, k))
      && (v ==> (AllTrue(h', game, k) <==>
                   forall u :: u in RecordsOf(h, game) && u != user ==> Get(RecordsOf(h, game)[u], k)))
  {
    var h' := SetSpec(h, game, user, k, v);
    var records := RecordsOf(h, game);
    var records' := RecordsOf(h', game);
    assert records' == records[user := Put(records[user], k, v)];
    assert user in records';
    if v && forall u :: u in records && u != user ==> Get(records[u], k) {
      forall u | u in records'
        ensures Get(records'[u], k)
      {
        if u != user {
          assert records'[u] == records[u];
        }
      }
    }
    if AllTrue(h', game, k) {
      forall u | u in records && u != user
        ensures Get(records[u], k)
      {
        assert records'[u] == records[u];
      }
    }
  }

  /** delete_game_status forgets every record of the game and no record of another game. */
  lemma DeleteThenLookup(h: Hashes, game: string)
    ensures var h' := DeleteSpec(h, game);
      && (forall u :: Lookup(h', game, u) == None)
      && (forall g, u :: g != game ==> Lookup(h', g, u) == Lookup(h, g, u))
  {
  }

  /** The service, over the hashes it keeps in the shared store. */
  class GameService {
    var hashes: Hashes

    constructor()
      ensures hashes == map[]
    {
      hashes := map[];
    }

    /** init_player_status: writes and returns the all-false record. */
    method InitPlayerStatus(game: string, user: User) returns (s: Status)
      modifies this
      ensures s == InitialStatus
      ensures hashes == InitSpec(old(hashes), game, user)
    {
      s := InitialStatus;
      var records := if game in hashes then hashes[game] else map[];
      hashes := hashes[game := records[user := s]];
    }

    function GetPlayerStatus(game: string, user: User): (r: Option<Status>)
      reads this
      ensures r.Some? <==> game in hashes && user in hashes[game]
      ensures r.Some? ==> r.value == hashes[game][user]
    {
      Lookup(hashes, game, user)
    }

    /** set_status: the source reads the record and writes it back, so the record must exist. */
    method SetStatus(game: string, user: User, k: Flag, v: bool)
      requires GetPlayerStatus(game, user).Some?
      modifies this
      ensures hashes == SetSpec(old(hashes), game, user, k, v)
    {
      var status := GetPlayerStatus(game, user).value;
      status := Put(status, k, v);
      hashes := hashes[game := hashes[game][user := status]];
    }

    function AllStatusTrue(game: string, k: Flag): (r: bool)
      reads this
      ensures r <==> forall u :: Lookup(hashes, game, u).Some? ==> Get(Lookup(hashes, game, u).value, k)
    {
      AllTrueIffEveryStored(hashes, game, k);
      AllTrue(hashes, game, k)
    }

    method DeleteGameStatus(game: string)
      modifies this
      ensures hashes == DeleteSpec(old(hashes), game)
    {
      hashes := hashes - {game};
    }
  }
}
