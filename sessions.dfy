/** The SessionManager class: a registry from session id to a game and its
    metadata. New ids and timestamps are supplied by the caller. */
module Sessions {
  import opened Board
  import opened Rules
  import opened Engine

  type Id(==)
  type Timestamp

  /** When the session was created, when it was last looked up, and its
      player count, which new_session sets to 0 and nothing changes. */
  datatype Metadata = Metadata(created: Timestamp, lastAccessed: Timestamp, playerCount: int)

  datatype Session = Session(game: TicTacToe, metadata: Metadata)

  /** One entry of list_sessions. */
  datatype Summary = Summary(
    gameOver: bool,
    currentPlayer: Player,
    moveCount: int,
    winner: Option<Player>,
    metadata: Metadata)

  class SessionManager {
    var sessions: map<Id, Session>
    /** The registry and the games it holds. */
    ghost var Repr: set<object>

    /** Every session's game belongs to the registry, no two sessions share
        a game, and every game is valid. */
    ghost predicate Valid()
      reads this, Repr
    {
      && this in Repr
      && (forall id :: id in sessions ==> sessions[id].game in Repr && sessions[id].game.Valid())
      && (forall a, b :: a in sessions && b in sessions && a != b ==> sessions[a].game != sessions[b].game)
    }

    /** An empty registry. */
    constructor ()
      ensures Valid() && fresh(Repr) && sessions == map[]
    {
      sessions := map[];
      Repr := {this};
    }

    /** new_session: stores a new game in its initial state under sid, with
        metadata holding the two timestamps and a player count of 0, and
        returns sid. Every other session keeps its entry and its game's
        state. An sid already present is overwritten, as assigning to a
        dictionary key does. */
    method NewSession(sid: Id, created: Timestamp, accessed: Timestamp) returns (id: Id)
      requires Valid()
      modifies this
      ensures Valid() && fresh(Repr - old(Repr))
      ensures id == sid && sid in sessions
      ensures sessions == old(sessions)[sid := sessions[sid]]
      ensures fresh(sessions[sid].game)
      ensures sessions[sid].game.Model() == Initial()
      ensures sessions[sid].metadata == Metadata(created, accessed, 0)
      ensures sid !in old(sessions) ==> |sessions| == |old(sessions)| + 1
    {
      var game := new TicTacToe();
      assert forall k :: k in sessions ==> sessions[k].game != game && sessions[k].game.Valid();
      sessions := sessions[sid := Session(game, Metadata(created, accessed, 0))];
      Repr := Repr + {game};
      id := sid;
    }

    /** get_game: nothing for an unknown id; for a known one, the stored game
        object itself, after setting only that session's last-accessed time
        to now. */
    method GetGame(sid: Id, now: Timestamp) returns (game: Option<TicTacToe>)
      requires Valid()
      modifies this
      ensures Valid() && Repr == old(Repr)
      ensures sid !in old(sessions) ==> game == None && sessions == old(sessions)
      ensures sid in old(sessions) ==>
                var s := old(sessions[sid]);
                game == Some(s.game) &&
                sessions == old(sessions)[sid := s.(metadata := s.metadata.(lastAccessed := now))]
    {
      if sid in sessions {
        var s := sessions[sid];
        sessions := sessions[sid := s.(metadata := s.metadata.(lastAccessed := now))];
        game := Some(s.game);
      } else {
        game := None;
      }
    }

    /** list_sessions: a summary of every session, under the same ids,
        projecting the game's four scalar fields and the metadata. Each
        summary shows a move count between 0 and 9, a winner only for a
        finished game and then the player to move, and for an open game
        the player whose turn the count gives. */
    function ListSessions(): (listing: map<Id, Summary>)
      reads this, Repr
      requires Valid()
      ensures listing.Keys == sessions.Keys
      ensures forall id :: id in listing ==> listing[id].metadata == sessions[id].metadata
      ensures forall id :: id in listing ==>
                var g := sessions[id].game;
                && listing[id].gameOver == g.gameOver && listing[id].currentPlayer == g.currentPlayer
                && listing[id].moveCount == g.moveCount && listing[id].winner == g.winner
      ensures forall id :: id in listing ==> 0 <= listing[id].moveCount <= 9
      ensures forall id :: id in listing && listing[id].winner.Some? ==>
                listing[id].gameOver && listing[id].winner == Some(listing[id].currentPlayer)
      ensures forall id :: id in listing && !listing[id].gameOver ==>
                listing[id].currentPlayer == ToMove(listing[id].moveCount)
    {
      GamesPlausible();
      map id | id in sessions ::
        var g := sessions[id].game;
        Summary(g.gameOver, g.currentPlayer, g.moveCount, g.winner, sessions[id].metadata)
    }

    /** Every stored game is in a state play can produce. */
    lemma GamesPlausible()
      requires Valid()
      ensures forall id :: id in sessions ==> Plausible(sessions[id].game.Model())
    {
      forall id | id in sessions
        ensures Plausible(sessions[id].game.Model())
      {
        ReachedIsPlausible(sessions[id].game.Model());
      }
    }

    /** A move in one session (the make_move request: get_game, then
        make_move on the game found): an unknown id gives nothing and
        changes nothing; a known id keeps its game object, has its
        last-accessed time set to now, and plays the move on that game
        alone; every other session's game keeps its state. */
    method MoveInSession(sid: Id, row: int, col: int, now: Timestamp) returns (result: Option<MoveResult>)
      requires Valid()
      modifies Repr
      ensures Valid() && Repr == old(Repr)
      ensures sessions.Keys == old(sessions.Keys)
      ensures sid !in old(sessions) ==> result == None && sessions == old(sessions)
      ensures sid in old(sessions) ==>
                var (t, o) := Play(old(sessions[sid].game.Model()), row, col);
                result == Some(Report(o)) && sessions[sid].game.Model() == t
      ensures sid in old(sessions) ==>
                var e := old(sessions[sid]);
                sessions == old(sessions)[sid := e.(metadata := e.metadata.(lastAccessed := now))]
      ensures forall k :: k in old(sessions) && k != sid ==>
                sessions[k] == old(sessions[k]) && sessions[k].game.Model() == old(sessions[k].game.Model())
    {
      var found := GetGame(sid, now);
      if found.Some? {
        var game := found.value;
        var r := game.MakeMove(row, col);
        result := Some(r);
        forall k | k in old(sessions) && k != sid
          ensures sessions[k] == old(sessions[k]) && sessions[k].game.Model() == old(sessions[k].game.Model())
        {
          assert old(sessions[k]).game != game;
        }
        assert forall k :: k in sessions ==> sessions[k].game.Valid();
      } else {
        result := None;
      }
    }
  }
}
