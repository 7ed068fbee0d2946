# Tic-tac-toe game-state engine, modelled in Dafny

This project models the game-state engine of a browser tic-tac-toe game. The
engine exists in two revisions, and both are modelled here.

- **The store** (`live-vanilla-build/js/store.js`) is the later revision. It
  keeps the moves of the current game and a history of finished rounds. Its
  `game` accessor derives three things from the move list: whose turn it is,
  the winner and whether the game is complete. `playerMove` appends a move,
  `reset` archives a complete round and clears the board, and every change of
  state goes through `#saveState`. That method dispatches on `typeof`. It
  stores any object it is handed as the new state. For a function it stores
  whatever the function returns on the previous state. Any other argument
  makes it throw before the state is assigned.
- **The app object** (`live-vanilla-build/js/app.js`) is the earlier
  revision. It uses numeric player ids 1 and 2. Its click handler ignores a
  click on a square that already holds a move. Otherwise it appends a move by
  the player opposite the last mover. `getGameStatus` evaluates the list for
  a win or a full board.

Everything is a pure function over immutable values. A JavaScript copy made
with `structuredClone` followed by a save is a function that returns a new
state; the old state value cannot change.

Files, one module each:

- `wrappers.dfy` (`Wrappers`): `Option` stands for a value that may be
  `null`. `Result` stands for an operation that may throw.
- `board.dfy` (`Board`): the pattern table that both revisions share, the
  `every`/`includes` coverage test, and the geometry of the 3×3 grid.
- `store.dfy` (`Store`): the later revision.
- `app.dfy` (`App`): the earlier revision.
- `revisions.dfy` (`Revisions`): how the two revisions relate.
- `scenarios.dfy` (`Scenarios`): concrete games. They cover a quick win, a
  drawn board, a line that is only partly claimed, and a click on a taken
  square.

Each derived notion has an independent reference definition stated directly
over the move list. These are `Claimed` (some move by that player is on the
square), `HoldsPattern`, `HoldsLine`, `GameOver` and `Occupied`. The looping
code (`filter`/`map`, the nested pattern scans and `find`) is modelled as
written. Its contracts connect it to those reference definitions.

## Behaviour worth knowing

- `reset` archives a complete round into `currentRoundGames` and clears the
  moves. It does not clear `currentRoundGames`.
- `playerMove` itself does not check occupancy, so it appends even on a
  taken square. In the modelled code, only the earlier revision's click
  handler (app.js:103-105) refuses a taken square. `Revisions.AcceptedMovesAgree` shows that a move the guard
  accepts is the move `playerMove` appends.
- In the winner search, the players are the outer loop and the patterns the
  inner one. So a line held by the second player always beats a line held by
  the first. The earlier revision scans patterns in list order, so the last
  pattern that anyone covers decides. `Revisions.TieBreaksDiffer` exhibits a
  move list on which the two revisions disagree.

## Model

| member | source | states |
|---|---|---|
| `Board.PatternsAreLines` | live-vanilla-build/js/app.js:32-41 | There are eight patterns. Each is three squares forming a row, a column or a diagonal of the row-major 1–9 grid. |
| `Board.PatternsDistinct` | live-vanilla-build/js/store.js:23-32 | No line appears twice in the pattern table. |
| `Board.EveryLineListed` | live-vanilla-build/js/app.js:32-41 | Every row, column and diagonal of the grid is one of the patterns. |
| `Board.PatternsOnBoard` | live-vanilla-build/js/store.js:23-32 | Every square a pattern names is between 1 and 9. |
| `Store.TurnsAlternate` | live-vanilla-build/js/store.js:19-21 | The first player moves on an empty list and on every even move count, the second on odd counts. Each appended move passes the turn. |
| `Store.SelectedSquareIds` | live-vanilla-build/js/store.js:37-39 | The filtered and mapped ids are exactly the squares some move carrying the player's id claims. |
| `Store.CoversSelected` | live-vanilla-build/js/store.js:41-42 | A player's selected ids cover pattern k exactly when the player holds every square of that pattern. |
| `Store.ScanPatterns` | live-vanilla-build/js/store.js:41-45 | The inner loop yields the player when any pattern is covered, and otherwise the winner it started with. |
| `Store.Winner` | live-vanilla-build/js/store.js:34-46 | There is a winner exactly when some player holds a line. A line held by the second player makes the second player the winner. Otherwise a line held by the first makes the first player the winner. |
| `Store.CurrentGame` | live-vanilla-build/js/store.js:16-55 | The view's moves are the state's moves. The current player is `players[count % 2]`. `isComplete` holds exactly when a player holds a line or nine moves are made. A named winner holds a line. No winner means no player holds a line. When the second player holds a line, the second player is the winner; otherwise a line held by the first makes the first player the winner. Nine moves are always complete. |
| `Store.SaveState` | live-vanilla-build/js/store.js:97-115 | A function argument yields the function applied to the previous state. An object argument yields that object. Every primitive argument yields the invalid-argument error. |
| `Store.Commit` | live-vanilla-build/js/store.js:113-117 | After a save the state is the saved object or the transformed previous state. After a rejected argument it is the previous state, unchanged. |
| `Store.SaveObjectOrFunction` | live-vanilla-build/js/store.js:106-112 | Saving a state and saving a function that returns it have the same effect. Saving the identity function changes nothing. Every primitive is refused. |
| `Store.PlayerMove` | live-vanilla-build/js/store.js:58-68 | The move list grows by exactly one and the old moves are kept as a prefix. The new move is on the given square by `players[count % 2]`. The history is unchanged. |
| `Store.PlayerMoveHandsOverTurn` | live-vanilla-build/js/store.js:62-65 | After a move the other player is to move. After two moves the turn is back with the original player. |
| `Store.Reset` | live-vanilla-build/js/store.js:71-89 | The board is empty afterwards and `allGames` is untouched. A game that is over gains one record of its moves with a complete status and its winner. Otherwise `currentRoundGames` is unchanged. |
| `Store.ResetFreshBoard` | live-vanilla-build/js/store.js:78-86 | Resetting a state with no moves returns that same state, because an empty board is never complete. |
| `Store.ResetIdempotent` | live-vanilla-build/js/store.js:71-89 | Resetting twice is the same as resetting once. |
| `Store.ReplayAlternates` | live-vanilla-build/js/store.js:21 | Moves made only through `playerMove` from the initial state record the squares in play order. The first player is on even positions and the second on odd ones, and the history stays empty. |
| `App.HoldsLineOtherMove` | live-vanilla-build/js/app.js:22-27 | A move by another player neither makes nor breaks a player's line. |
| `App.PlayerSquares` | live-vanilla-build/js/app.js:22-27 | The filtered and mapped ids are exactly the squares claimed by moves with that player id. |
| `App.CoversPlayerSquares` | live-vanilla-build/js/app.js:46-47 | A player's squares cover pattern k exactly when that player holds the pattern. |
| `App.ScanPatterns` | live-vanilla-build/js/app.js:45-51 | The scan only ever yields the initial winner, 1 or 2. |
| `App.ScanUndecided` | live-vanilla-build/js/app.js:45-51 | When neither player covers any pattern, the scan leaves the winner as it was. |
| `App.ScanWitness` | live-vanilla-build/js/app.js:49-50 | The scan records player 1 (or 2) only if that player covers some pattern. |
| `App.ScanDecided` | live-vanilla-build/js/app.js:45-51 | Once any pattern is covered, the scan records player 1 or 2. |
| `App.ScanLastDecided` | live-vanilla-build/js/app.js:45-51 | The last pattern in list order that anyone covers decides the result. On that pattern player 2 overrides player 1. |
| `App.GetGameStatus` | live-vanilla-build/js/app.js:21-57 | The winner is null, 1 or 2. A winner holds a full line, so a partly claimed pattern never wins. The winner is null exactly when neither player holds a line. The status is complete exactly when there are nine moves or a line is held. |
| `App.GetGameStatusTieBreak` | live-vanilla-build/js/app.js:45-51 | When pattern k is the last one either player holds, the winner is 2 if player 2 holds it and 1 otherwise. |
| `App.Find` | live-vanilla-build/js/app.js:94-96 | `find` returns a move exactly when some move is on the square. The move it returns is on the square and is the first such move in the list. |
| `App.HasMove` | live-vanilla-build/js/app.js:93-98 | `hasMove` is true exactly when the square is occupied. |
| `App.CurrentPlayer` | live-vanilla-build/js/app.js:108-113 | The current player is always 1 or 2, and it is 1 on an empty list. Otherwise it is never the last mover: 2 after a move by player 1, and 1 after a move carrying any other id. |
| `App.CurrentPlayerByParity` | live-vanilla-build/js/app.js:108-113 | On alternating moves, "opposite of the last mover" gives 1 on even counts and 2 on odd ones. |
| `App.ClickSquare` | live-vanilla-build/js/app.js:100-139 | A click on an occupied square leaves the state unchanged. Any other click appends exactly the current player's move on that square. |
| `App.ModalReset` | live-vanilla-build/js/app.js:80-81 | The modal button leaves no moves. |
| `App.ClickPreservesWellFormed` | live-vanilla-build/js/app.js:103-139 | A guarded click keeps square ids pairwise distinct and keeps the players alternating 1, 2, 1, … |
| `App.PlayWellFormed` | live-vanilla-build/js/app.js:90-139 | Every move list reached by clicks alone is legal, with at most one move per click. Every move is on a clicked square and every clicked square holds a move, so there is exactly one move per distinct square clicked. |
| `App.AtMostOneWinner` | live-vanilla-build/js/app.js:136-147 | If every move was made while the status was in progress, the two players do not both hold a line. |
| `Revisions.ClaimsAgree` | live-vanilla-build/js/store.js:37-39 | Read with id 1 as the first player and id 2 as the second, a square is claimed in one revision exactly when it is claimed in the other. |
| `Revisions.LinesAgree` | live-vanilla-build/js/app.js:45-47 | Holding a line means the same in both revisions. |
| `Revisions.CurrentPlayersAgree` | live-vanilla-build/js/app.js:108-113 | On alternating moves, "opposite of the last mover" is `players[count % 2]`. |
| `Revisions.StatusesAgree` | live-vanilla-build/js/store.js:34-53 | When at most one player holds a line, both revisions name the same winner and agree on completion. |
| `Revisions.ReachableGamesAgree` | live-vanilla-build/js/app.js:45-54 | On a legal move list played only while in progress, the revisions agree on the player to move, the winner and completion. |
| `Revisions.AcceptedMovesAgree` | live-vanilla-build/js/app.js:103-139 | A click the guard accepts appends the same move as the store's `playerMove`. A click it rejects changes nothing. |
| `Revisions.TieBreaksDiffer` | live-vanilla-build/js/store.js:36-46 | In one malformed list player 2 holds the top row and player 1 the bottom row. There the earlier revision names player 1 and the later one names the second player. |
| `Revisions.CurrentPlayersDiffer` | live-vanilla-build/js/app.js:108-113 | Two moves in a row by player 1 are not alternating. On them the earlier revision names player 2, opposite the last mover, while `players[count % 2]` in store.js:21 names the first player. So `CurrentPlayersAgree` needs its alternation hypothesis. |
| `Scenarios.QuickWin` | live-vanilla-build/js/store.js:34-53 | Squares 1, 4, 2, 5, 3 played in turn give a complete game won by the first player. |
| `Scenarios.DrawnBoard` | live-vanilla-build/js/store.js:52 | A full board with no line is complete with no winner. |
| `Scenarios.DrawnBoardArchived` | live-vanilla-build/js/store.js:76-86 | Resetting the drawn board clears it and archives one record with no winner. |
| `Scenarios.PartialPlay` | live-vanilla-build/js/app.js:103-139 | Clicking squares 1, 2, 3 on an empty board gives player 1 squares 1 and 3 and player 2 square 2. |
| `Scenarios.PartialLineDoesNotWin` | live-vanilla-build/js/app.js:45-54 | With player 1 on squares 1 and 3 and player 2 on square 2, the first row is only partly claimed by each. The game is in progress with no winner. |
| `Scenarios.TakenSquareIgnored` | live-vanilla-build/js/app.js:100-105 | Clicking square 5 twice gives the same state as clicking it once. |

## Left out

- The DOM side of the click handler is not modelled. This covers icon and turn-label creation and styling, replacing the children of squares, and the modal's text and visibility. Registering event listeners, the menu toggle and `console.log` are also out. None of these affects the state.
- The reset and new-round buttons of the earlier revision are not modelled, because they only log a message.
- The `+square.id` string-to-number coercion is not modelled. Square ids are integers from the start.
- The module-level shared default `initialValue` is not modelled, because it is an aliasing effect that has no meaning for immutable values. The model starts from `Store.InitialState`.
- `Store.SaveState`: only well-shaped arguments are modelled. An object argument is always a `State`, and a function argument always returns a `State`. The source stores any object without checking its shape, for example `{}`, an array, or `null` (whose `typeof` is `"object"`). It also stores a function's result unchecked. The model's state has a fixed shape and cannot be null, so these cases cannot be expressed.
- The store's player array is modelled as exactly two players, and a differently sized array is not modelled. The display reads exactly two players (`vanilla-refactor/js/view.js`, lines 42-43).
- `App.AtMostOneWinner`: the hypothesis that no move follows a decided game comes from the modal overlay that the display shows after a win. The handler itself does not check the status before accepting a click. After a tie all nine squares hold a move, so the guard at app.js:103-105 refuses every later click on the board, and the code itself keeps the hypothesis. Only a win before the ninth move relies on the modal overlay, which is an assumption about the display.
- Stats, new-round handling, persistence to durable storage and cross-tab change notifications are left out. None of them is implemented in the modelled files, and the display only reads the stats it is handed.
- The display layer (`vanilla-refactor/js/view.js`) is not part of this model. Its `render` only consumes a snapshot of the state.
