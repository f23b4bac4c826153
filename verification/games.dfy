/**
  The game record the services read and write: the game's state and
  winner (the `games` row), its seats (the `game_players` rows) and its move
  log (the `moves` rows, appended by createMove, read by getGameMoves).
*/
module Games {
  import opened Wrappers
  import opened Moves
  import opened Turn

  datatype GameState = Lobby | InProgress | Ended

  /** A snapshot of everything a Game holds besides its id. */
  datatype GameView = GameView(state: GameState, winner: Option<int>, seats: seq<Seat>, moves: seq<Move>)

  /** The card-less move a player appends to end a turn, and the one logged for a forced draw. */
  function DrawMove(userId: int): (m: Move)
    ensures Counts(m) && m.playType == Draw && m.cardId.None?
  {
    Move(userId, Draw, None, None, None, false)
  }

  /** The card-less skip logged after a skip (or a two-seat reverse). */
  function SkipMove(userId: int): (m: Move)
    ensures Counts(m) && m.playType == Skip && m.cardId.None?
  {
    Move(userId, Skip, None, None, None, false)
  }

  /** setPlayerPosition: the seats of `userId` get position `position`. */
  function WithPosition(seats: seq<Seat>, userId: int, position: int): (r: seq<Seat>)
    ensures |r| == |seats|
    ensures forall k :: 0 <= k < |seats| ==> r[k].userId == seats[k].userId
    ensures forall k :: 0 <= k < |seats| ==> r[k].position == if seats[k].userId == userId then position else seats[k].position
  {
    seq(|seats|, k requires 0 <= k < |seats| =>
      if seats[k].userId == userId then seats[k].(position := position) else seats[k])
  }

  class Game {
    const id: int
    var state: GameState
    var winner: Option<int>
    var seats: seq<Seat>
    var moves: seq<Move>

    function View(): GameView
      reads this
    {
      GameView(state, winner, seats, moves)
    }

    /** A game in the lobby with the given players and no moves. */
    constructor (id: int, seats: seq<Seat>)
      ensures this.id == id && View() == GameView(Lobby, None, seats, [])
    {
      this.id := id;
      state := Lobby;
      winner := None;
      this.seats := seats;
      moves := [];
    }

    /** createMove: appends one move to the log. */
    method CreateMove(m: Move)
      modifies this
      ensures View() == old(View()).(moves := old(moves) + [m])
    {
      moves := moves + [m];
    }

    /** setPlayerPosition. */
    method SetPlayerPosition(position: int, userId: int)
      modifies this
      ensures View() == old(View()).(seats := WithPosition(old(seats), userId, position))
    {
      seats := WithPosition(seats, userId, position);
    }

    /** startGame: the game is in progress. */
    method Start()
      modifies this
      ensures View() == old(View()).(state := InProgress)
    {
      state := InProgress;
    }

    /** updateGame(state, winner). */
    method Update(newState: GameState, newWinner: Option<int>)
      modifies this
      ensures View() == old(View()).(state := newState, winner := newWinner)
    {
      state := newState;
      winner := newWinner;
    }
  }
}
