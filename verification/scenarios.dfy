/** Concrete games: a partial line, a quick win, a drawn board, and a click on
    a taken square. */
module Scenarios {
  import opened Wrappers
  import opened Board
  import Store
  import App
  import Revisions

  const X: Store.Player := Revisions.FirstPlayer
  const O: Store.Player := Revisions.SecondPlayer

  /** Player 1 plays squares 1, 2, 3 while player 2 plays 4 and 5: after the
      fifth move the store reports a completed game won by the first player. */
  const QuickSquares: seq<int> := [1, 4, 2, 5, 3]

  const QuickMoves: seq<Store.Move> :=
    [ Store.Move(1, X), Store.Move(4, O), Store.Move(2, X), Store.Move(5, O), Store.Move(3, X) ]

  lemma QuickReplay()
    ensures Store.Replay(Revisions.TwoPlayers, QuickSquares).currentGameMoves == QuickMoves
  {
    Store.ReplayAlternates(Revisions.TwoPlayers, QuickSquares);
  }

  lemma QuickClaims(v: int)
    ensures Store.Claimed(QuickMoves, O, v) ==> v == 4 || v == 5
  {
  }

  lemma QuickWin()
    ensures Store.CurrentGame(Revisions.TwoPlayers, Store.Replay(Revisions.TwoPlayers, QuickSquares)).status ==
      Store.Status(true, Some(Revisions.FirstPlayer))
  {
    QuickReplay();
    assert Store.HoldsPattern(QuickMoves, X, 0) by {
      assert QuickMoves[0] == Store.Move(1, X);
      assert QuickMoves[2] == Store.Move(2, X);
      assert QuickMoves[4] == Store.Move(3, X);
    }
    forall v
      ensures !Store.Claimed(QuickMoves, O, v) || v == 4 || v == 5
    {
      QuickClaims(v);
    }
    NoLineMissing(QuickMoves, O, [1, 1, 1, 2, 3, 3, 6, 7]);
  }

  /** The drawn board  X O X / X O O / O X X  played in the order
      1, 2, 3, 5, 4, 6, 8, 7, 9: complete with no winner. */
  const DrawnSquares: seq<int> := [1, 2, 3, 5, 4, 6, 8, 7, 9]

  /** A player who misses one square of every pattern holds no line;
      `misses[k]` names the missing square of pattern `k`. */
  lemma NoLineMissing(moves: seq<Store.Move>, player: Store.Player, misses: seq<int>)
    requires |misses| == |WinningPatterns|
    requires forall k :: 0 <= k < |misses| ==> misses[k] in WinningPatterns[k] && !Store.Claimed(moves, player, misses[k])
    ensures !Store.HoldsLine(moves, player)
  {
    forall k | 0 <= k < |WinningPatterns|
      ensures !Store.HoldsPattern(moves, player, k)
    {
      assert misses[k] in WinningPatterns[k];
    }
  }

  const DrawnMoves: seq<Store.Move> :=
    [ Store.Move(1, X), Store.Move(2, O), Store.Move(3, X), Store.Move(5, O), Store.Move(4, X),
      Store.Move(6, O), Store.Move(8, X), Store.Move(7, O), Store.Move(9, X) ]

  /** Playing the drawn order through `playerMove` yields the alternating moves. */
  lemma DrawnReplay()
    ensures Store.Replay(Revisions.TwoPlayers, DrawnSquares).currentGameMoves == DrawnMoves
  {
    Store.ReplayAlternates(Revisions.TwoPlayers, DrawnSquares);
  }

  lemma DrawnClaims(v: int)
    ensures Store.Claimed(DrawnMoves, X, v) ==> v in {1, 3, 4, 8, 9}
    ensures Store.Claimed(DrawnMoves, O, v) ==> v in {2, 5, 6, 7}
  {
  }

  lemma DrawnBoard()
    ensures Store.CurrentGame(Revisions.TwoPlayers, Store.Replay(Revisions.TwoPlayers, DrawnSquares)).status ==
      Store.Status(true, None)
  {
    DrawnReplay();
    forall v
      ensures !Store.Claimed(DrawnMoves, X, v) || v in {1, 3, 4, 8, 9}
      ensures !Store.Claimed(DrawnMoves, O, v) || v in {2, 5, 6, 7}
    {
      DrawnClaims(v);
    }
    NoLineMissing(DrawnMoves, X, [2, 5, 7, 2, 5, 6, 5, 7]);
    NoLineMissing(DrawnMoves, O, [1, 1, 1, 8, 3, 3, 4, 8]);
  }

  /** Resetting the drawn board archives one round without a winner and
      clears the board. */
  lemma DrawnBoardArchived()
    ensures Store.Reset(Revisions.TwoPlayers, Store.Replay(Revisions.TwoPlayers, DrawnSquares)) ==
      Store.State([], Store.History(
        [Store.RoundRecord(Store.Replay(Revisions.TwoPlayers, DrawnSquares).currentGameMoves, Store.Status(true, None))],
        []))
  {
    DrawnBoard();
    Store.ReplayAlternates(Revisions.TwoPlayers, DrawnSquares);
  }

  /** The earlier revision's counterpart of `NoLineMissing`. */
  lemma NoAppLineMissing(moves: seq<App.Move>, playerId: int, misses: seq<int>)
    requires |misses| == |WinningPatterns|
    requires forall k :: 0 <= k < |misses| ==> misses[k] in WinningPatterns[k] && !App.Claimed(moves, playerId, misses[k])
    ensures !App.HoldsLine(moves, playerId)
  {
    forall k | 0 <= k < |WinningPatterns|
      ensures !App.HoldsPattern(moves, playerId, k)
    {
      assert misses[k] in WinningPatterns[k];
    }
  }

  const PartialMoves: seq<App.Move> := [App.Move(1, 1), App.Move(2, 2), App.Move(3, 1)]

  /** Clicking squares 1, 2, 3 gives player 1 squares 1 and 3 and player 2 square 2. */
  lemma PartialPlay()
    ensures App.Play([1, 2, 3]).moves == PartialMoves
  {
    assert [1, 2, 3][..2] == [1, 2] && [1, 2][..1] == [1] && [1][..0] == [];
    var s1 := App.Play([1]);
    assert s1.moves == [App.Move(1, 1)];
    assert !App.Occupied(s1.moves, 2);
    var s2 := App.Play([1, 2]);
    assert s2.moves == [App.Move(1, 1), App.Move(2, 2)];
    assert !App.Occupied(s2.moves, 3);
  }

  lemma PartialClaims(v: int)
    ensures App.Claimed(PartialMoves, 1, v) ==> v == 1 || v == 3
    ensures App.Claimed(PartialMoves, 2, v) ==> v == 2
  {
  }

  /** Player 1 on squares 1 and 3 and player 2 on square 2: the first row is
      only partly claimed by each, so nobody wins and play goes on. */
  lemma PartialLineDoesNotWin()
    ensures App.GetGameStatus(PartialMoves) == App.GameStatus(App.InProgress, None)
  {
    forall v
      ensures !App.Claimed(PartialMoves, 1, v) || v == 1 || v == 3
      ensures !App.Claimed(PartialMoves, 2, v) || v == 2
    {
      PartialClaims(v);
    }
    NoAppLineMissing(PartialMoves, 1, [2, 5, 4, 2, 5, 6, 4, 7]);
    NoAppLineMissing(PartialMoves, 2, [1, 1, 1, 5, 3, 3, 4, 7]);
  }

  /** Clicking a square that already holds a move leaves the state as it was. */
  lemma TakenSquareIgnored()
    ensures App.Play([5, 5]) == App.Play([5])
    ensures App.Play([5]).moves == [App.Move(5, 1)]
  {
    assert [5, 5][..1] == [5] && [5][..0] == [];
    assert App.Occupied(App.Play([5]).moves, 5) by {
      assert App.Play([5]).moves[0].squareId == 5;
    }
  }
}
