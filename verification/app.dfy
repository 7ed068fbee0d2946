/** The earlier revision of the game engine: a single object whose click
    handler keeps a list of moves with numeric player ids (1 or 2), refuses a
    click on a taken square, and evaluates the list for a win or a full
    board. */
module App {
  import opened Wrappers
  import opened Board

  datatype Move = Move(squareId: int, playerId: int)

  datatype Progress = Complete | InProgress

  /** What `getGameStatus` returns: the status and the winning player id. */
  datatype GameStatus = GameStatus(status: Progress, winner: Option<int>)

  datatype State = State(moves: seq<Move>)

  const InitialState: State := State([])

  /* ---------------------------------------------------------------------
     Reference definitions over the move list.
     --------------------------------------------------------------------- */

  /** Some move by player `playerId` is on square `v`. */
  ghost predicate Claimed(moves: seq<Move>, playerId: int, v: int) {
    exists i :: 0 <= i < |moves| && moves[i].playerId == playerId && moves[i].squareId == v
  }

  /** Player `playerId` has claimed every square of winning pattern `k`. */
  ghost predicate HoldsPattern(moves: seq<Move>, playerId: int, k: int)
    requires 0 <= k < |WinningPatterns|
  {
    forall v :: v in WinningPatterns[k] ==> Claimed(moves, playerId, v)
  }

  /** Player `playerId` has claimed every square of some winning pattern. */
  ghost predicate HoldsLine(moves: seq<Move>, playerId: int) {
    exists k :: 0 <= k < |WinningPatterns| && HoldsPattern(moves, playerId, k)
  }

  /** Some move is on square `squareId`. */
  ghost predicate Occupied(moves: seq<Move>, squareId: int) {
    exists i :: 0 <= i < |moves| && moves[i].squareId == squareId
  }

  /** No square is played twice. */
  ghost predicate DistinctSquares(moves: seq<Move>) {
    forall i, j :: 0 <= i < j < |moves| ==> moves[i].squareId != moves[j].squareId
  }

  /** Player 1 made the moves at even positions and player 2 those at odd ones. */
  ghost predicate Alternating(moves: seq<Move>) {
    forall i :: 0 <= i < |moves| ==> moves[i].playerId == (if i % 2 == 0 then 1 else 2)
  }

  /** The move list of a legal game so far. */
  ghost predicate WellFormed(moves: seq<Move>) {
    DistinctSquares(moves) && Alternating(moves)
  }

  /** Claiming after one more move: the old claims plus the new move's square. */
  lemma ClaimedSnoc(moves: seq<Move>, m: Move, playerId: int, v: int)
    ensures Claimed(moves + [m], playerId, v) <==>
      Claimed(moves, playerId, v) || (m.playerId == playerId && m.squareId == v)
  {
    var moves' := moves + [m];
    if Claimed(moves', playerId, v) {
      var i :| 0 <= i < |moves'| && moves'[i].playerId == playerId && moves'[i].squareId == v;
      if i < |moves| {
        assert moves[i] == moves'[i];
      }
    }
    if Claimed(moves, playerId, v) {
      var i :| 0 <= i < |moves| && moves[i].playerId == playerId && moves[i].squareId == v;
      assert moves'[i] == moves[i];
    }
    if m.playerId == playerId && m.squareId == v {
      assert moves'[|moves|] == m;
    }
  }

  /** A move by someone else neither makes nor breaks a player's line. */
  lemma HoldsLineOtherMove(moves: seq<Move>, m: Move, playerId: int)
    requires m.playerId != playerId
    ensures HoldsLine(moves + [m], playerId) <==> HoldsLine(moves, playerId)
  {
    forall k | 0 <= k < |WinningPatterns|
      ensures HoldsPattern(moves + [m], playerId, k) <==> HoldsPattern(moves, playerId, k)
    {
      forall v
        ensures Claimed(moves + [m], playerId, v) <==> Claimed(moves, playerId, v)
      {
        ClaimedSnoc(moves, m, playerId, v);
      }
    }
  }

  /* ---------------------------------------------------------------------
     `getGameStatus`.
     --------------------------------------------------------------------- */

  /** The square ids of player `playerId`'s moves, in play order. */
  function PlayerSquares(moves: seq<Move>, playerId: int): (ids: seq<int>)
    ensures forall v :: v in ids <==> Claimed(moves, playerId, v)
  {
    if moves == [] then []
    else
      var earlier := moves[..|moves| - 1];
      var last := moves[|moves| - 1];
      var ids' := PlayerSquares(earlier, playerId);
      assert moves == earlier + [last];
      assert forall v :: Claimed(moves, playerId, v) <==>
          Claimed(earlier, playerId, v) || (last.playerId == playerId && last.squareId == v) by {
        forall v {
          ClaimedSnoc(earlier, last, playerId, v);
        }
      }
      if last.playerId == playerId then ids' + [last.squareId] else ids'
  }

  /** Either player covers `pattern`. */
  predicate Decided(p1: seq<int>, p2: seq<int>, pattern: seq<int>) {
    Covers(p1, pattern) || Covers(p2, pattern)
  }

  /** The `forEach` over the patterns: on each one player 1 is recorded if
      covering it, then player 2 if covering it. */
  function ScanPatterns(p1: seq<int>, p2: seq<int>, patterns: seq<seq<int>>, winner: Option<int>): (w: Option<int>)
    ensures w == winner || w == Some(1) || w == Some(2)
  {
    if patterns == [] then winner
    else
      var n := |patterns| - 1;
      var w' := ScanPatterns(p1, p2, patterns[..n], winner);
      var afterP1 := if Covers(p1, patterns[n]) then Some(1) else w';
      if Covers(p2, patterns[n]) then Some(2) else afterP1
  }

  /** A scan over patterns nobody covers leaves the winner as it was. */
  lemma {:induction false} ScanUndecided(p1: seq<int>, p2: seq<int>, patterns: seq<seq<int>>, winner: Option<int>)
    requires forall k :: 0 <= k < |patterns| ==> !Decided(p1, p2, patterns[k])
    ensures ScanPatterns(p1, p2, patterns, winner) == winner
  {
    if patterns != [] {
      var n := |patterns| - 1;
      assert !Decided(p1, p2, patterns[n]);
      ScanUndecided(p1, p2, patterns[..n], winner);
    }
  }

  /** The scan records a player only for a pattern that player covers. */
  lemma {:induction false} ScanWitness(p1: seq<int>, p2: seq<int>, patterns: seq<seq<int>>, winner: Option<int>)
    ensures ScanPatterns(p1, p2, patterns, winner) == Some(1) && winner != Some(1) ==>
      exists k :: 0 <= k < |patterns| && Covers(p1, patterns[k])
    ensures ScanPatterns(p1, p2, patterns, winner) == Some(2) && winner != Some(2) ==>
      exists k :: 0 <= k < |patterns| && Covers(p2, patterns[k])
  {
    if patterns != [] {
      var n := |patterns| - 1;
      var prefix := patterns[..n];
      ScanWitness(p1, p2, prefix, winner);
      if ScanPatterns(p1, p2, patterns, winner) != ScanPatterns(p1, p2, prefix, winner) {
        assert Decided(p1, p2, patterns[n]);
      } else {
        forall k | 0 <= k < |prefix|
          ensures prefix[k] == patterns[k]
        {
        }
      }
    }
  }

  /** Once some pattern is covered, the scan records a player. */
  lemma {:induction false} ScanDecided(p1: seq<int>, p2: seq<int>, patterns: seq<seq<int>>, winner: Option<int>, k: int)
    requires 0 <= k < |patterns| && Decided(p1, p2, patterns[k])
    ensures ScanPatterns(p1, p2, patterns, winner) == Some(1) || ScanPatterns(p1, p2, patterns, winner) == Some(2)
  {
    var n := |patterns| - 1;
    if !Decided(p1, p2, patterns[n]) {
      assert patterns[..n][k] == patterns[k];
      ScanDecided(p1, p2, patterns[..n], winner, k);
    }
  }

  /** The tie-break of the scan: the last pattern either player covers
      decides, and on it player 2 overrides player 1. */
  lemma {:induction false} ScanLastDecided(p1: seq<int>, p2: seq<int>, patterns: seq<seq<int>>, winner: Option<int>, k: int)
    requires 0 <= k < |patterns| && Decided(p1, p2, patterns[k])
    requires forall j :: k < j < |patterns| ==> !Decided(p1, p2, patterns[j])
    ensures ScanPatterns(p1, p2, patterns, winner) == Some(if Covers(p2, patterns[k]) then 2 else 1)
  {
    var n := |patterns| - 1;
    if k < n {
      assert !Decided(p1, p2, patterns[n]);
      ScanLastDecided(p1, p2, patterns[..n], winner, k);
    }
  }

  /** `getGameStatus`: scan the patterns over each player's squares; the game
      is complete with nine moves or a winner. */
  function GetGameStatus(moves: seq<Move>): (g: GameStatus)
    ensures g.winner == None || g.winner == Some(1) || g.winner == Some(2)
    ensures g.winner == Some(1) ==> HoldsLine(moves, 1)
    ensures g.winner == Some(2) ==> HoldsLine(moves, 2)
    ensures g.winner == None <==> !HoldsLine(moves, 1) && !HoldsLine(moves, 2)
    ensures g.status == Complete <==> |moves| == 9 || HoldsLine(moves, 1) || HoldsLine(moves, 2)
  {
    var p1Moves := PlayerSquares(moves, 1);
    var p2Moves := PlayerSquares(moves, 2);
    var winner := ScanPatterns(p1Moves, p2Moves, WinningPatterns, None);
    assert winner == Some(1) ==> HoldsLine(moves, 1) by {
      ScanWitness(p1Moves, p2Moves, WinningPatterns, None);
      CoversPlayerSquares(moves, 1);
    }
    assert winner == Some(2) ==> HoldsLine(moves, 2) by {
      ScanWitness(p1Moves, p2Moves, WinningPatterns, None);
      CoversPlayerSquares(moves, 2);
    }
    assert !HoldsLine(moves, 1) && !HoldsLine(moves, 2) <==> winner == None by {
      CoversPlayerSquares(moves, 1);
      CoversPlayerSquares(moves, 2);
      if !HoldsLine(moves, 1) && !HoldsLine(moves, 2) {
        ScanUndecided(p1Moves, p2Moves, WinningPatterns, None);
      } else {
        var k :| 0 <= k < |WinningPatterns| && (HoldsPattern(moves, 1, k) || HoldsPattern(moves, 2, k));
        ScanDecided(p1Moves, p2Moves, WinningPatterns, None, k);
      }
    }
    GameStatus(if |moves| == 9 || winner != None then Complete else InProgress, winner)
  }

  /** A player's squares cover a pattern exactly when the player holds it. */
  lemma CoversPlayerSquares(moves: seq<Move>, playerId: int)
    ensures forall k :: 0 <= k < |WinningPatterns| ==>
      (Covers(PlayerSquares(moves, playerId), WinningPatterns[k]) <==> HoldsPattern(moves, playerId, k))
  {
  }

  /** The tie-break: the last pattern in list order that either player holds
      decides the winner, and on that pattern player 2 beats player 1. */
  lemma GetGameStatusTieBreak(moves: seq<Move>, k: int)
    requires 0 <= k < |WinningPatterns|
    requires HoldsPattern(moves, 1, k) || HoldsPattern(moves, 2, k)
    requires forall j :: k < j < |WinningPatterns| ==> !HoldsPattern(moves, 1, j) && !HoldsPattern(moves, 2, j)
    ensures GetGameStatus(moves).winner == Some(if HoldsPattern(moves, 2, k) then 2 else 1)
  {
    CoversPlayerSquares(moves, 1);
    CoversPlayerSquares(moves, 2);
    ScanLastDecided(PlayerSquares(moves, 1), PlayerSquares(moves, 2), WinningPatterns, None, k);
  }

  /* ---------------------------------------------------------------------
     The click handler.
     --------------------------------------------------------------------- */

  /** No move before position `i` is on square `squareId`. */
  ghost predicate FirstOn(moves: seq<Move>, i: int, squareId: int)
    requires 0 <= i <= |moves|
  {
    forall j :: 0 <= j < i ==> moves[j].squareId != squareId
  }

  /** `moves.find(move => move.squareId === squareId)`: the first move on the square. */
  function Find(moves: seq<Move>, squareId: int): (r: Option<Move>)
    ensures r.Some? <==> Occupied(moves, squareId)
    ensures r.Some? ==> r.value.squareId == squareId && r.value in moves
    ensures r.Some? ==> exists i :: 0 <= i < |moves| && moves[i] == r.value && FirstOn(moves, i, squareId)
  {
    if moves == [] then None
    else if moves[0].squareId == squareId then Some(moves[0])
    else
      var rest := moves[1..];
      var r := Find(rest, squareId);
      assert Occupied(moves, squareId) ==> Occupied(rest, squareId) by {
        if Occupied(moves, squareId) {
          var i :| 0 <= i < |moves| && moves[i].squareId == squareId;
          assert rest[i - 1] == moves[i];
        }
      }
      assert r.Some? ==> exists i :: 0 <= i < |moves| && moves[i] == r.value && FirstOn(moves, i, squareId) by {
        if r.Some? {
          var i :| 0 <= i < |rest| && rest[i] == r.value && FirstOn(rest, i, squareId);
          assert moves[i + 1] == r.value;
          forall j | 0 <= j < i + 1
            ensures moves[j].squareId != squareId
          {
            if j > 0 {
              assert moves[j] == rest[j - 1];
            }
          }
        }
      }
      r
  }

  /** `hasMove`: the square already holds a move. */
  function HasMove(moves: seq<Move>, squareId: int): (b: bool)
    ensures b <==> Occupied(moves, squareId)
  {
    Find(moves, squareId).Some?
  }

  function Opposite(playerId: int): int {
    if playerId == 1 then 2 else 1
  }

  /** Player 1 opens; afterwards the player opposite the last mover, so
      the last mover never moves twice in a row. A last move carrying an id
      other than 1 or 2 hands the turn to player 1. */
  function CurrentPlayer(moves: seq<Move>): (p: int)
    ensures p == 1 || p == 2
    ensures moves == [] ==> p == 1
    ensures moves != [] ==> p != moves[|moves| - 1].playerId
    ensures moves != [] && moves[|moves| - 1].playerId != 1 ==> p == 1
  {
    if |moves| == 0 then 1 else Opposite(moves[|moves| - 1].playerId)
  }

  /** In a list of alternating moves the "opposite of the last mover" rule
      is the parity rule: player 1 on even counts, player 2 on odd ones. */
  lemma CurrentPlayerByParity(moves: seq<Move>)
    requires Alternating(moves)
    ensures CurrentPlayer(moves) == (if |moves| % 2 == 0 then 1 else 2)
  {
  }

  /** A click on square `squareId`: ignored when the square is taken, and
      otherwise appends the current player's move. */
  function ClickSquare(s: State, squareId: int): (r: State)
    ensures Occupied(s.moves, squareId) ==> r == s
    ensures !Occupied(s.moves, squareId) ==> r.moves == s.moves + [Move(squareId, CurrentPlayer(s.moves))]
  {
    if HasMove(s.moves, squareId) then s
    else s.(moves := s.moves + [Move(squareId, CurrentPlayer(s.moves))])
  }

  /** The modal button clears the board. */
  function ModalReset(s: State): (r: State)
    ensures r.moves == []
  {
    s.(moves := [])
  }

  /** A guarded click keeps the move list legal: squares stay pairwise
      distinct and the players keep alternating. */
  lemma ClickPreservesWellFormed(s: State, squareId: int)
    requires WellFormed(s.moves)
    ensures WellFormed(ClickSquare(s, squareId).moves)
  {
    if !Occupied(s.moves, squareId) {
      CurrentPlayerByParity(s.moves);
      var moves := ClickSquare(s, squareId).moves;
      forall i, j | 0 <= i < j < |moves|
        ensures moves[i].squareId != moves[j].squareId
      {
        if j == |s.moves| {
          assert moves[i] == s.moves[i];
        }
      }
    }
  }

  /** The state reached from the empty board by clicking `squares` in order. */
  function Play(squares: seq<int>): State {
    if squares == [] then InitialState
    else ClickSquare(Play(squares[..|squares| - 1]), squares[|squares| - 1])
  }

  /** Every state reachable by clicks alone holds a legal move list, with
      exactly one move per distinct square clicked: every move is on a
      clicked square, and every clicked square holds a move. */
  lemma {:induction false} PlayWellFormed(squares: seq<int>)
    ensures WellFormed(Play(squares).moves)
    ensures |Play(squares).moves| <= |squares|
    ensures forall i :: 0 <= i < |Play(squares).moves| ==> Play(squares).moves[i].squareId in squares
    ensures forall v :: v in squares ==> Occupied(Play(squares).moves, v)
  {
    if squares != [] {
      var earlier := squares[..|squares| - 1];
      PlayWellFormed(earlier);
      var s := Play(earlier);
      ClickPreservesWellFormed(s, squares[|squares| - 1]);
      var moves := Play(squares).moves;
      forall i | 0 <= i < |moves|
        ensures moves[i].squareId in squares
      {
        if i < |s.moves| {
          assert moves[i] == s.moves[i];
          assert s.moves[i].squareId in earlier;
        }
      }
      forall v | v in squares
        ensures Occupied(moves, v)
      {
        if v in earlier {
          var i :| 0 <= i < |s.moves| && s.moves[i].squareId == v;
          assert moves[i] == s.moves[i];
        } else {
          assert v == squares[|squares| - 1];
          if !Occupied(s.moves, v) {
            assert moves[|s.moves|].squareId == v;
          }
        }
      }
    }
  }

  /** Every move was made while the game was still in progress. */
  ghost predicate PlayedWhileInProgress(moves: seq<Move>) {
    forall n :: 0 <= n < |moves| ==> GetGameStatus(moves[..n]).status == InProgress
  }

  /** When no move is made after the game is decided, at most one player
      holds a line. */
  lemma AtMostOneWinner(moves: seq<Move>)
    requires PlayedWhileInProgress(moves)
    ensures !(HoldsLine(moves, 1) && HoldsLine(moves, 2))
  {
    if moves == [] {
      forall k, playerId | 0 <= k < |WinningPatterns|
        ensures !HoldsPattern([], playerId, k)
      {
        assert WinningPatterns[k][0] in WinningPatterns[k];
      }
    } else {
      var n := |moves| - 1;
      var earlier := moves[..n];
      var m := moves[n];
      assert GetGameStatus(earlier).status == InProgress;
      assert moves == earlier + [m];
      if m.playerId == 1 {
        HoldsLineOtherMove(earlier, m, 2);
      } else {
        HoldsLineOtherMove(earlier, m, 1);
      }
    }
  }
}
