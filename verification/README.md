# Tic-tac-toe turn engine in Dafny

A model of the browser tic-tac-toe game in `tic-tac-toe.js`: the game record
`{ playerTurn, board, winner }`, the move function `takeTurn` with its three
guards, the click entry point `clickSquare`, the two validation predicates, and
the HTML string builders that render the page.

The single mutable global `theGame` becomes an immutable `GameLogic.Game`
value. Every operation is a pure function from the old state to the new one.

- `Values`: `Option` (JavaScript `null` or a value), the players `X`/`O` with
  their stored names, and `BoxArg`. `BoxArg` is the class of any JavaScript
  value passed as a box id: a finite number (an exact real), a non-finite
  number (NaN, ±Infinity), or a value of another type.
- `Validation`: `isValidPlayer` and `isValidBoxId`. The range check on box ids
  does not check integrality, so 1.5 is a valid id.
- `GameLogic`: the state, the initial value, `Check` (the guards of `takeTurn`
  in source order, each naming the error it logs) and `TakeTurn`. A fractional
  id reads `undefined` from the board. `undefined !== null`, so such a move is
  refused as if the cell were taken. An index past the end of the board
  behaves the same way, so `TakeTurn` has no precondition.
- `Events`: `clickSquare`, which always moves for the player whose turn it is.
- `Sessions`: sequences of moves. Accepted moves alternate between the two
  players. Marks are never overwritten and `winner` never changes. Every state
  reachable from the start has nine cells, and X has one more mark than O
  exactly when it is O's turn.
- `Decimal`: how a box id becomes the digits after `"box"` in an element id,
  with its inverse.
- `Html`: `buildPlayerTurn`, `buildSquare`, `buildRow`, `buildBoard` and
  `buildGame`. The board builder is proved equal to an independent row-major
  description of the layout. The rendered page determines the turn and every
  cell.

The code has no win/tie evaluator: win detection is a `TODO`
(tic-tac-toe.js:38) and `winner` is never assigned. It has no game-over
lockout and no reset. A refused move only logs an error and returns
(tic-tac-toe.js:20-33). The model follows the code: it states that `winner` is
untouched, and it models the logged error as the `Rejection` that `Check`
reports.

## Model

The builders `BuildPlayerTurn`, `BuildSquare`, `BuildRow`, `BuildBoard` and
`BuildGame` are specified by the `Html` lemma rows below, which relate each
rendered string back to the state it was built from.

| member | source | states |
|---|---|---|
| Values.Other | tic-tac-toe.js:36 | the turn passes to the player who did not just move |
| Validation.IsValidPlayer | tic-tac-toe.js:118-121 | a player argument is valid exactly when it is the name of one of the two players |
| Validation.IsValidBoxId | tic-tac-toe.js:123-127 | only numbers within 0..8 pass; among integral numbers, exactly 0..8 pass |
| GameLogic.InitialGame | tic-tac-toe.js:7-16 | the game starts with X to move, nine empty cells holding no mark, and no winner |
| GameLogic.Check | tic-tac-toe.js:18-33 | the wrong-turn guard fires exactly when the player is not the one to move, whatever the box id; the right player with an invalid id is refused as an invalid id, and an invalid-id rejection means the id failed validation; the right player with a valid id on a non-`null` cell is refused as taken, and an already-taken rejection means a valid id whose cell is not `null`; a move passes exactly when all three guards hold, and then the player is a valid player and the id names a cell in 0..8 |
| GameLogic.CountUpdate | tic-tac-toe.js:35 | writing one cell moves it from the count of its old value to the count of its new value |
| GameLogic.TakeTurn | tic-tac-toe.js:18-41 | a refused move changes nothing; an accepted move puts the mover's mark in the named cell, leaves every other cell alone, flips the turn, fills exactly one empty cell and adds one mark for the mover; placed marks are never overwritten; board size and winner never change |
| GameLogic.MoveTakesEffectIffAccepted | tic-tac-toe.js:18-36 | a move changes the state if and only if every guard passes |
| GameLogic.WrongTurnFirst | tic-tac-toe.js:20-23 | the player-turn guard is checked before the box id: the wrong player is refused whatever box id they name |
| GameLogic.FractionalIdRefusedAsTaken | tic-tac-toe.js:25-33 | a fractional id in range passes validation but is refused by the occupancy guard, leaving the state unchanged |
| GameLogic.OpeningExample | tic-tac-toe.js:18-38 | after X plays 4 and O plays 0, X is to move, cells 4 and 0 hold X and O, seven cells are empty, and there is no winner |
| GameLogic.RefusedOpenings | tic-tac-toe.js:20-28 | O cannot open the game, and box 9 is invalid; both leave the initial state unchanged |
| Events.ClickSquare | tic-tac-toe.js:133-140 | an invalid id changes nothing; a click that changes nothing had an invalid id or a taken cell, never the wrong turn; a click takes effect exactly when the id is valid and names an empty cell, and then the current player's mark lands there and the turn flips |
| Events.ClickIsCurrentPlayersMove | tic-tac-toe.js:133-140 | clicking is the same as the current player calling `takeTurn`; the extra id check changes nothing |
| Sessions.PlayKeepsMarks | tic-tac-toe.js:30-38 | across any sequence of moves, the board size and the winner are unchanged, and every mark already placed stays |
| Sessions.Alternation | tic-tac-toe.js:35-36 | the accepted moves of any session alternate, starting with the player to move; the final turn depends on the parity of the accepted-move count; each accepted move fills exactly one empty cell |
| Sessions.AlternationFromStart | tic-tac-toe.js:7-36 | from the initial state, X makes the 1st, 3rd, … accepted moves and O the 2nd, 4th, …; at most nine moves are accepted |
| Sessions.TakeTurnKeepsConsistent | tic-tac-toe.js:18-41 | any move keeps the state consistent: nine cells, no winner, and X has one more mark than O exactly when O is to move |
| Sessions.ReachableIsConsistent | tic-tac-toe.js:7-41 | every state reachable from the initial one by any sequence of moves is consistent |
| Decimal.Show | tic-tac-toe.js:55 | a box id is written as a non-empty string of digits with no leading zero |
| Decimal.ValueOfShow | tic-tac-toe.js:55 | reading back the digits written for a box id gives the id |
| Decimal.ShowInjective | tic-tac-toe.js:55 | different box ids are written differently |
| Html.BuildSquareNullIsEmpty | tic-tac-toe.js:51-56 | a `null` square renders exactly like a square holding the empty string |
| Html.BuildSquareInjective | tic-tac-toe.js:51-56 | two squares render the same exactly when they have the same box id and show the same text |
| Html.RowThenRest | tic-tac-toe.js:58-64 | a row of three squares, followed by the rows below it, is the row-major markup from that row's first cell |
| Html.RowMajorIsRows | tic-tac-toe.js:58-84 | from the start of any row, the square-by-square row-major markup equals the rows wrapped one by one as `buildRow` wraps them |
| Html.RowMajorInjective | tic-tac-toe.js:51-84 | two boards whose row-major markup from cell i agree hold the same cells from i on |
| Html.BuildBoardRowMajor | tic-tac-toe.js:66-84 | the board markup is the nine squares in index order 0..8, with a row opened before cells 0, 3 and 6 and closed after cells 2, 5 and 8 |
| Html.BuildBoardInjective | tic-tac-toe.js:51-84 | two boards render to the same markup exactly when they are equal |
| Html.BuildPlayerTurnInjective | tic-tac-toe.js:47-49 | two turn lines are equal exactly when they name the same player |
| Html.BuildGameShowsState | tic-tac-toe.js:86-90 | two games render to the same page exactly when they agree on the turn and on every cell; only `winner` is not shown |

## Left out

- Rendering is left out because it is browser I/O: `renderGame`, `renderCount`, `containerEl`, `byId`, `addEvents`, `init` and the `DOMContentLoaded` hook. The `renderGame()` call at the end of an accepted move is dropped. It only reads the state.
- `clickContainer` is left out because it is DOM event plumbing. It takes the element id, strips `box` and applies `parseInt`. The result is an integer or NaN, which is `Number(k)` or `NonFiniteNumber` as the box id for `ClickSquare`. `Decimal.ValueOfShow` covers reading back the ids that `buildSquare` writes.
- `console.error` and `console.info` logging is not modelled as output. The error a refused move logs appears only as the `Rejection` that `Check` returns.
- The code has no win/tie evaluator, no game-over lockout and no `reset`, so the model has none either. It does not invent them.
- JavaScript numbers are doubles. The model uses exact reals plus one non-finite class. Rounding and `-0` are not modelled, because no guard depends on them.
- `takeTurn`'s player argument is modelled as a string. Any other JavaScript value fails the `!==` comparison with `'X'` or `'O'` in the same way that a wrong string does.
- Html.BuildSquare: the box id is a natural number. The code only ever passes the literals 0..8. Other JavaScript values, which `+` would stringify, are not modelled.
- Html.BuildRow: requires at least three entries. With fewer, `squares[k].id` throws a TypeError in the code.
- Html.BuildBoard: requires nine cells. A longer array renders by ignoring the cells past index 8, and a shorter one renders `undefined`; no reachable state has either (`Sessions.ReachableIsConsistent`).
- Html.BuildGame: requires nine cells, for the same reason as `BuildBoard`.
