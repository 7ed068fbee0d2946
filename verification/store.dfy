/** The later revision of the game engine: a store that keeps the moves of the
    current game and the history of finished rounds, derives the current
    player, winner and completion from the move list, and replaces its state
    only through a single save operation. */
module Store {
  import opened Wrappers
  import opened Board

  datatype Player = Player(id: int, name: string, iconClass: string, colorClass: string)

  /** The two players the store is built with, in their fixed order. */
  datatype Players = Players(first: Player, second: Player) {

    /** `players[i]` for the two valid indices. */
    function At(i: int): Player
      requires 0 <= i < 2
    {
      if i == 0 then first else second
    }
  }

  datatype Move = Move(squareId: int, player: Player)

  datatype Status = Status(isComplete: bool, winner: Option<Player>)

  /** A finished round as archived in the history. */
  datatype RoundRecord = RoundRecord(moves: seq<Move>, status: Status)

  datatype History = History(currentRoundGames: seq<RoundRecord>, allGames: seq<RoundRecord>)

  datatype State = State(currentGameMoves: seq<Move>, history: History)

  /** The view the `game` accessor derives from the state. */
  datatype Game = Game(moves: seq<Move>, currentPlayer: Player, status: Status)

  const InitialState: State := State([], History([], []))

  /* ---------------------------------------------------------------------
     Reference definitions: what it means to claim a square and hold a line,
     stated directly over the move list.
     --------------------------------------------------------------------- */

  /** Some move in `moves`, made by a player with `player`'s id, is on square `v`. */
  ghost predicate Claimed(moves: seq<Move>, player: Player, v: int) {
    exists i :: 0 <= i < |moves| && moves[i].player.id == player.id && moves[i].squareId == v
  }

  /** `player` has claimed every square of winning pattern number `k`. */
  ghost predicate HoldsPattern(moves: seq<Move>, player: Player, k: int)
    requires 0 <= k < |WinningPatterns|
  {
    forall v :: v in WinningPatterns[k] ==> Claimed(moves, player, v)
  }

  /** `player` has claimed every square of at least one winning pattern. */
  ghost predicate HoldsLine(moves: seq<Move>, player: Player) {
    exists k :: 0 <= k < |WinningPatterns| && HoldsPattern(moves, player, k)
  }

  /** The game is over: a player holds a line, or all nine moves are made. */
  ghost predicate GameOver(players: Players, moves: seq<Move>) {
    HoldsLine(moves, players.first) || HoldsLine(moves, players.second) || |moves| == 9
  }

  /** Claiming after one more move: the old claims plus the new move's square. */
  lemma ClaimedSnoc(moves: seq<Move>, m: Move, player: Player, v: int)
    ensures Claimed(moves + [m], player, v) <==>
      Claimed(moves, player, v) || (m.player.id == player.id && m.squareId == v)
  {
    var moves' := moves + [m];
    if Claimed(moves', player, v) {
      var i :| 0 <= i < |moves'| && moves'[i].player.id == player.id && moves'[i].squareId == v;
      if i < |moves| {
        assert moves[i] == moves'[i];
      }
    }
    if Claimed(moves, player, v) {
      var i :| 0 <= i < |moves| && moves[i].player.id == player.id && moves[i].squareId == v;
      assert moves'[i] == moves[i];
    }
    if m.player.id == player.id && m.squareId == v {
      assert moves'[|moves|] == m;
    }
  }

  /* ---------------------------------------------------------------------
     The `game` accessor.
     --------------------------------------------------------------------- */

  /** `players[moves.length % 2]`: whose turn it is. */
  function CurrentPlayer(players: Players, moves: seq<Move>): Player {
    players.At(|moves| % 2)
  }

  /** The square ids of the moves made by `player`, in play order
      (`filter` on the player's id, then `map` to the square id). */
  function SelectedSquareIds(moves: seq<Move>, player: Player): (ids: seq<int>)
    ensures forall v :: v in ids <==> Claimed(moves, player, v)
  {
    if moves == [] then []
    else
      var earlier := moves[..|moves| - 1];
      var last := moves[|moves| - 1];
      var ids' := SelectedSquareIds(earlier, player);
      assert moves == earlier + [last];
      assert forall v :: Claimed(moves, player, v) <==>
          Claimed(earlier, player, v) || (last.player.id == player.id && last.squareId == v) by {
        forall v {
          ClaimedSnoc(earlier, last, player, v);
        }
      }
      if last.player.id == player.id then ids' + [last.squareId] else ids'
  }

  /** The inner loop of the winner search: walks `patterns` in order and sets
      the winner to `player` each time `ids` covers one. */
  function ScanPatterns(ids: seq<int>, patterns: seq<seq<int>>, player: Player, winner: Option<Player>): (w: Option<Player>)
    ensures (exists k :: 0 <= k < |patterns| && Covers(ids, patterns[k])) ==> w == Some(player)
    ensures (forall k :: 0 <= k < |patterns| ==> !Covers(ids, patterns[k])) ==> w == winner
  {
    if patterns == [] then winner
    else
      var w' := ScanPatterns(ids, patterns[..|patterns| - 1], player, winner);
      if Covers(ids, patterns[|patterns| - 1]) then Some(player) else w'
  }

  /** A player's selected squares cover pattern `k` exactly when the player
      holds that pattern. */
  lemma CoversSelected(moves: seq<Move>, player: Player, k: int)
    requires 0 <= k < |WinningPatterns|
    ensures Covers(SelectedSquareIds(moves, player), WinningPatterns[k]) <==> HoldsPattern(moves, player, k)
  {
  }

  /** The outer loop of the winner search: players in their fixed order, so a
      line held by the second player overrides one held by the first. */
  function Winner(players: Players, moves: seq<Move>): (w: Option<Player>)
    ensures w.Some? <==> HoldsLine(moves, players.first) || HoldsLine(moves, players.second)
    ensures HoldsLine(moves, players.second) ==> w == Some(players.second)
    ensures !HoldsLine(moves, players.second) && HoldsLine(moves, players.first) ==> w == Some(players.first)
  {
    var firstIds := SelectedSquareIds(moves, players.first);
    var secondIds := SelectedSquareIds(moves, players.second);
    assert forall k :: 0 <= k < |WinningPatterns| ==>
        (Covers(firstIds, WinningPatterns[k]) <==> HoldsPattern(moves, players.first, k))
        && (Covers(secondIds, WinningPatterns[k]) <==> HoldsPattern(moves, players.second, k)) by {
      forall k | 0 <= k < |WinningPatterns|
        ensures (Covers(firstIds, WinningPatterns[k]) <==> HoldsPattern(moves, players.first, k))
        ensures (Covers(secondIds, WinningPatterns[k]) <==> HoldsPattern(moves, players.second, k))
      {
        CoversSelected(moves, players.first, k);
        CoversSelected(moves, players.second, k);
      }
    }
    var afterFirst := ScanPatterns(firstIds, WinningPatterns, players.first, None);
    ScanPatterns(secondIds, WinningPatterns, players.second, afterFirst)
  }

  /** The `game` accessor: the moves, whose turn it is, and the status. */
  function CurrentGame(players: Players, s: State): (g: Game)
    ensures g.moves == s.currentGameMoves
    ensures g.status.isComplete <==> GameOver(players, s.currentGameMoves)
    ensures g.status.winner.Some? ==> HoldsLine(s.currentGameMoves, g.status.winner.value)
    ensures g.status.winner.None? <==>
      !HoldsLine(s.currentGameMoves, players.first) && !HoldsLine(s.currentGameMoves, players.second)
    ensures |s.currentGameMoves| == 9 ==> g.status.isComplete
    ensures g.currentPlayer == players.At(|s.currentGameMoves| % 2)
    ensures HoldsLine(s.currentGameMoves, players.second) ==> g.status.winner == Some(players.second)
    ensures !HoldsLine(s.currentGameMoves, players.second) && HoldsLine(s.currentGameMoves, players.first) ==>
      g.status.winner == Some(players.first)
  {
    var moves := s.currentGameMoves;
    var winner := Winner(players, moves);
    Game(moves, CurrentPlayer(players, moves), Status(winner.Some? || |moves| == 9, winner))
  }

  /** The player to move alternates strictly: the first player opens, and the
      turn passes after every move whatever the move was. */
  lemma TurnsAlternate(players: Players, moves: seq<Move>, m: Move)
    ensures CurrentPlayer(players, []) == players.first
    ensures CurrentPlayer(players, moves) == (if |moves| % 2 == 0 then players.first else players.second)
    ensures CurrentPlayer(players, moves + [m]) == (if |moves| % 2 == 0 then players.second else players.first)
  {
  }

  /* ---------------------------------------------------------------------
     Saving: the single way the state is replaced.
     --------------------------------------------------------------------- */

  datatype PrimitiveKind = Undefined | Boolean | Number | BigInt | String | Symbol

  /** The values `#saveState` can be handed, told apart by `typeof`: a state
      object, a function from the previous state to the next one, or any
      primitive value. */
  datatype SaveArgument =
    | ObjectValue(state: State)
    | FunctionValue(transform: State -> State)
    | PrimitiveValue(kind: PrimitiveKind)

  /** The error thrown for an argument that is neither an object nor a function. */
  datatype SaveError = InvalidArgument

  /** JavaScript's `typeof` on a save argument. */
  function TypeOf(arg: SaveArgument): string {
    match arg
    case ObjectValue(_) => "object"
    case FunctionValue(_) => "function"
    case PrimitiveValue(kind) =>
      match kind
      case Undefined => "undefined"
      case Boolean => "boolean"
      case Number => "number"
      case BigInt => "bigint"
      case String => "string"
      case Symbol => "symbol"
  }

  /** The `typeof` dispatch of `#saveState`: the state it would store, or the
      error it throws. */
  function SaveState(prev: State, arg: SaveArgument): (r: Result<State, SaveError>)
    ensures arg.FunctionValue? ==> r == Ok(arg.transform(prev))
    ensures arg.ObjectValue? ==> r == Ok(arg.state)
    ensures arg.PrimitiveValue? ==> r == Err(InvalidArgument)
  {
    var t := TypeOf(arg);
    if t == "function" then Ok(arg.transform(prev))
    else if t == "object" then Ok(arg.state)
    else Err(InvalidArgument)
  }

  /** The store's state after a save: the new state, or the previous one when
      the save throws before assigning. */
  function Commit(prev: State, arg: SaveArgument): (next: State)
    ensures arg.PrimitiveValue? ==> next == prev
    ensures arg.ObjectValue? ==> next == arg.state
    ensures arg.FunctionValue? ==> next == arg.transform(prev)
  {
    SaveState(prev, arg).GetOr(prev)
  }

  /** Handing over a state and handing over the function that returns it have
      the same effect, and handing over the identity function changes nothing. */
  lemma SaveObjectOrFunction(prev: State, next: State)
    ensures SaveState(prev, ObjectValue(next)) == SaveState(prev, FunctionValue(_ => next))
    ensures Commit(prev, FunctionValue(s => s)) == prev
    ensures forall kind :: SaveState(prev, PrimitiveValue(kind)).Err?
  {
  }

  /* ---------------------------------------------------------------------
     Mutations.
     --------------------------------------------------------------------- */

  /** `playerMove`: a copy of the state with one move by the current player
      appended, saved as an object. */
  function PlayerMove(players: Players, s: State, squareId: int): (r: State)
    ensures |r.currentGameMoves| == |s.currentGameMoves| + 1
    ensures r.currentGameMoves[..|s.currentGameMoves|] == s.currentGameMoves
    ensures r.currentGameMoves[|s.currentGameMoves|] == Move(squareId, players.At(|s.currentGameMoves| % 2))
    ensures r.history == s.history
  {
    // `this.game.currentPlayer`, which the accessor takes from `CurrentPlayer`
    var clone := s.(currentGameMoves := s.currentGameMoves + [Move(squareId, CurrentPlayer(players, s.currentGameMoves))]);
    Commit(s, ObjectValue(clone))
  }

  /** After a move the turn has passed to the other player; after two it is
      back with the player who was to move. */
  lemma PlayerMoveHandsOverTurn(players: Players, s: State, squareId: int, nextSquareId: int)
    ensures CurrentPlayer(players, PlayerMove(players, s, squareId).currentGameMoves) ==
      players.At(1 - |s.currentGameMoves| % 2)
    ensures CurrentPlayer(players, PlayerMove(players, PlayerMove(players, s, squareId), nextSquareId).currentGameMoves) ==
      CurrentPlayer(players, s.currentGameMoves)
  {
    var once := PlayerMove(players, s, squareId);
    var twice := PlayerMove(players, once, nextSquareId);
    assert |once.currentGameMoves| == |s.currentGameMoves| + 1;
    assert |twice.currentGameMoves| == |s.currentGameMoves| + 2;
  }

  /** `reset`: archive the round when it is complete, then clear the board. */
  function Reset(players: Players, s: State): (r: State)
    ensures r.currentGameMoves == []
    ensures r.history.allGames == s.history.allGames
    ensures GameOver(players, s.currentGameMoves) ==>
      r.history.currentRoundGames == s.history.currentRoundGames +
        [RoundRecord(s.currentGameMoves, Status(true, Winner(players, s.currentGameMoves)))]
    ensures !GameOver(players, s.currentGameMoves) ==>
      r.history.currentRoundGames == s.history.currentRoundGames
  {
    var game := CurrentGame(players, s);
    var archived :=
      if game.status.isComplete
      then s.history.(currentRoundGames := s.history.currentRoundGames + [RoundRecord(game.moves, game.status)])
      else s.history;
    Commit(s, ObjectValue(State([], archived)))
  }

  /** An empty board is never complete, so resetting it changes nothing; in
      particular a second reset undoes nothing and adds nothing. */
  lemma ResetFreshBoard(players: Players, s: State)
    requires s.currentGameMoves == []
    ensures Reset(players, s) == s
  {
    forall player, k | 0 <= k < |WinningPatterns|
      ensures !HoldsPattern([], player, k)
    {
      assert WinningPatterns[k][0] in WinningPatterns[k];
    }
  }

  /** `reset` is idempotent. */
  lemma ResetIdempotent(players: Players, s: State)
    ensures Reset(players, Reset(players, s)) == Reset(players, s)
  {
    ResetFreshBoard(players, Reset(players, s));
  }

  /** The state reached from the initial state by playing `squares` in order
      through `playerMove`. */
  function Replay(players: Players, squares: seq<int>): State {
    if squares == [] then InitialState
    else PlayerMove(players, Replay(players, squares[..|squares| - 1]), squares[|squares| - 1])
  }

  /** Moves made through `playerMove` record the squares in play order, with
      the first player on even positions and the second on odd ones; the
      history is left as it started. */
  lemma {:induction false} ReplayAlternates(players: Players, squares: seq<int>)
    ensures |Replay(players, squares).currentGameMoves| == |squares|
    ensures forall i :: 0 <= i < |squares| ==>
      Replay(players, squares).currentGameMoves[i] == Move(squares[i], players.At(i % 2))
    ensures Replay(players, squares).history == InitialState.history
  {
    if squares != [] {
      var earlier := squares[..|squares| - 1];
      ReplayAlternates(players, earlier);
      var s := Replay(players, earlier);
      var r := Replay(players, squares);
      forall i | 0 <= i < |squares|
        ensures r.currentGameMoves[i] == Move(squares[i], players.At(i % 2))
      {
        if i < |earlier| {
          assert r.currentGameMoves[i] == r.currentGameMoves[..|earlier|][i];
        }
      }
    }
  }
}
