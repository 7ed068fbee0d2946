/** How the two revisions of the engine relate: a move list built by the
    earlier revision's guarded click handler, read with numeric ids 1 and 2
    standing for the later revision's first and second players, is judged the
    same way by both. */
module Revisions {
  import opened Wrappers
  import opened Board
  import Store
  import App

  /** The store player that numeric id `playerId` stands for. */
  function PlayerFor(players: Store.Players, playerId: int): Store.Player {
    if playerId == 1 then players.first else players.second
  }

  function ToStoreMove(players: Store.Players, m: App.Move): Store.Move {
    Store.Move(m.squareId, PlayerFor(players, m.playerId))
  }

  /** The earlier revision's move list in the later revision's terms. */
  function ToStoreMoves(players: Store.Players, moves: seq<App.Move>): (r: seq<Store.Move>)
    ensures |r| == |moves|
    ensures forall i :: 0 <= i < |moves| ==> r[i] == ToStoreMove(players, moves[i])
  {
    if moves == [] then []
    else ToStoreMoves(players, moves[..|moves| - 1]) + [ToStoreMove(players, moves[|moves| - 1])]
  }

  /** The earlier revision's winner in the later revision's terms. */
  function ToStoreWinner(players: Store.Players, winner: Option<int>): Option<Store.Player> {
    match winner
    case None => None
    case Some(id) => Some(PlayerFor(players, id))
  }

  /** Every move carries one of the two numeric ids. */
  ghost predicate ValidIds(moves: seq<App.Move>) {
    forall i :: 0 <= i < |moves| ==> moves[i].playerId == 1 || moves[i].playerId == 2
  }

  /** With players told apart by id, a square is claimed in one revision
      exactly when it is claimed by the corresponding player in the other. */
  lemma ClaimsAgree(players: Store.Players, moves: seq<App.Move>, v: int)
    requires players.first.id != players.second.id
    requires ValidIds(moves)
    ensures Store.Claimed(ToStoreMoves(players, moves), players.first, v) <==> App.Claimed(moves, 1, v)
    ensures Store.Claimed(ToStoreMoves(players, moves), players.second, v) <==> App.Claimed(moves, 2, v)
  {
    var sm := ToStoreMoves(players, moves);
    if Store.Claimed(sm, players.first, v) {
      var i :| 0 <= i < |sm| && sm[i].player.id == players.first.id && sm[i].squareId == v;
      assert moves[i].playerId == 1;
    }
    if Store.Claimed(sm, players.second, v) {
      var i :| 0 <= i < |sm| && sm[i].player.id == players.second.id && sm[i].squareId == v;
      assert moves[i].playerId == 2;
    }
    if App.Claimed(moves, 1, v) {
      var i :| 0 <= i < |moves| && moves[i].playerId == 1 && moves[i].squareId == v;
      assert sm[i].player == players.first;
    }
    if App.Claimed(moves, 2, v) {
      var i :| 0 <= i < |moves| && moves[i].playerId == 2 && moves[i].squareId == v;
      assert sm[i].player == players.second;
    }
  }

  /** Lines agree too. */
  lemma LinesAgree(players: Store.Players, moves: seq<App.Move>)
    requires players.first.id != players.second.id
    requires ValidIds(moves)
    ensures Store.HoldsLine(ToStoreMoves(players, moves), players.first) <==> App.HoldsLine(moves, 1)
    ensures Store.HoldsLine(ToStoreMoves(players, moves), players.second) <==> App.HoldsLine(moves, 2)
  {
    var sm := ToStoreMoves(players, moves);
    forall v
      ensures Store.Claimed(sm, players.first, v) <==> App.Claimed(moves, 1, v)
      ensures Store.Claimed(sm, players.second, v) <==> App.Claimed(moves, 2, v)
    {
      ClaimsAgree(players, moves, v);
    }
    forall k | 0 <= k < |WinningPatterns|
      ensures Store.HoldsPattern(sm, players.first, k) <==> App.HoldsPattern(moves, 1, k)
      ensures Store.HoldsPattern(sm, players.second, k) <==> App.HoldsPattern(moves, 2, k)
    {
    }
  }

  /** On alternating moves the "opposite of the last mover" rule names the
      same player as `players[moves.length % 2]`. */
  lemma CurrentPlayersAgree(players: Store.Players, moves: seq<App.Move>)
    requires App.Alternating(moves)
    ensures Store.CurrentPlayer(players, ToStoreMoves(players, moves)) == PlayerFor(players, App.CurrentPlayer(moves))
  {
    App.CurrentPlayerByParity(moves);
  }

  /** When at most one player holds a line, both revisions name the same
      winner and agree on completion, whatever the history alongside. */
  lemma StatusesAgree(players: Store.Players, moves: seq<App.Move>, history: Store.History)
    requires players.first.id != players.second.id
    requires ValidIds(moves)
    requires !(App.HoldsLine(moves, 1) && App.HoldsLine(moves, 2))
    ensures Store.CurrentGame(players, Store.State(ToStoreMoves(players, moves), history)).status.winner ==
      ToStoreWinner(players, App.GetGameStatus(moves).winner)
    ensures Store.CurrentGame(players, Store.State(ToStoreMoves(players, moves), history)).status.isComplete <==>
      App.GetGameStatus(moves).status == App.Complete
  {
    LinesAgree(players, moves);
  }

  /** A game played through the guarded click handler, with no move after it
      was decided, is judged identically by both revisions: same player to
      move, same winner, same completion. */
  lemma ReachableGamesAgree(players: Store.Players, moves: seq<App.Move>, history: Store.History)
    requires players.first.id != players.second.id
    requires App.WellFormed(moves)
    requires App.PlayedWhileInProgress(moves)
    ensures Store.CurrentGame(players, Store.State(ToStoreMoves(players, moves), history)).currentPlayer ==
      PlayerFor(players, App.CurrentPlayer(moves))
    ensures Store.CurrentGame(players, Store.State(ToStoreMoves(players, moves), history)).status.winner ==
      ToStoreWinner(players, App.GetGameStatus(moves).winner)
    ensures Store.CurrentGame(players, Store.State(ToStoreMoves(players, moves), history)).status.isComplete <==>
      App.GetGameStatus(moves).status == App.Complete
  {
    CurrentPlayersAgree(players, moves);
    App.AtMostOneWinner(moves);
    StatusesAgree(players, moves, history);
  }

  /** A click the guard accepts appends the move `playerMove` would append;
      a click it rejects changes nothing. */
  lemma AcceptedMovesAgree(players: Store.Players, s: App.State, squareId: int, history: Store.History)
    requires App.Alternating(s.moves)
    ensures App.Occupied(s.moves, squareId) ==> App.ClickSquare(s, squareId) == s
    ensures !App.Occupied(s.moves, squareId) ==>
      ToStoreMoves(players, App.ClickSquare(s, squareId).moves) ==
      Store.PlayerMove(players, Store.State(ToStoreMoves(players, s.moves), history), squareId).currentGameMoves
  {
    if !App.Occupied(s.moves, squareId) {
      App.CurrentPlayerByParity(s.moves);
      var after := ToStoreMoves(players, App.ClickSquare(s, squareId).moves);
      var moved := Store.PlayerMove(players, Store.State(ToStoreMoves(players, s.moves), history), squareId).currentGameMoves;
      assert |after| == |moved|;
      forall i | 0 <= i < |after|
        ensures after[i] == moved[i]
      {
        if i < |s.moves| {
          assert moved[i] == moved[..|s.moves|][i];
        }
      }
    }
  }

  const FirstPlayer: Store.Player := Store.Player(1, "Player 1", "fa-x", "yellow")
  const SecondPlayer: Store.Player := Store.Player(2, "Player 2", "fa-o", "turquoise")
  const TwoPlayers: Store.Players := Store.Players(FirstPlayer, SecondPlayer)

  /** A malformed list in which player 2 holds the first row and player 1 the
      last row.  */
  const BothHoldLines: seq<App.Move> :=
    [App.Move(1, 2), App.Move(2, 2), App.Move(3, 2), App.Move(7, 1), App.Move(8, 1), App.Move(9, 1)]

  /** Without the at-most-one-line hypothesis the revisions disagree: the
      earlier one lets the last pattern in list order decide (the bottom row,
      player 1), the later one lets the second player win on any line. */
  lemma TieBreaksDiffer()
    ensures App.GetGameStatus(BothHoldLines).winner == Some(1)
    ensures Store.Winner(TwoPlayers, ToStoreMoves(TwoPlayers, BothHoldLines)) == Some(SecondPlayer)
  {
    var moves := BothHoldLines;
    assert App.HoldsPattern(moves, 1, 7) by {
      assert moves[3].squareId == 7 && moves[4].squareId == 8 && moves[5].squareId == 9;
    }
    assert App.HoldsPattern(moves, 2, 0) by {
      assert moves[0].squareId == 1 && moves[1].squareId == 2 && moves[2].squareId == 3;
    }
    assert !App.Claimed(moves, 2, 7);
    App.GetGameStatusTieBreak(moves, 7);
    LinesAgree(TwoPlayers, moves);
  }

  /** Two moves in a row by player 1: a list no click sequence produces. */
  const RepeatedMover: seq<App.Move> := [App.Move(5, 1), App.Move(6, 1)]

  /** Without alternation the two turn rules part ways: the earlier
      revision hands the turn to the player opposite the last mover, the
      later one counts moves. */
  lemma CurrentPlayersDiffer()
    ensures !App.Alternating(RepeatedMover)
    ensures App.CurrentPlayer(RepeatedMover) == 2
    ensures Store.CurrentPlayer(TwoPlayers, ToStoreMoves(TwoPlayers, RepeatedMover)) == FirstPlayer
  {
    assert RepeatedMover[0].playerId == RepeatedMover[1].playerId;
  }
}
