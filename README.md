# Tic-tac-toe turn-and-move state machine

A Dafny model of the game logic of a browser tic-tac-toe. A single `State` object holds
the application record. The record has five fields:

- the two players' symbols (`X`, `O` or `null`);
- whose turn it is;
- the hovered cell;
- the ordered log of moves.

`setState` replaces the record with a shallow merge of the old record and a partial one.
`resetState` restores the defaults. `togglePlayerTurn` hands the turn over.

`addMove` has three outcomes:

- it throws when no symbol was chosen;
- it silently ignores a click on an occupied cell;
- otherwise it appends `{cell, player: currentTurn}` to a copy of the log.

A canvas click maps the pixel position to a grid cell with `floor(pos / (size / 3))` on
each axis. It then runs `addMove` and after that `togglePlayerTurn`.

Files and modules:

- `types.dfy` (`Types`): `Symbol`, `Player`, `Cell`, `Position`, and `Option`/`Result`/`Outcome` for `null` and throws.
- `state.dfy` (`StateHolder`): the `AppState` record, `DefaultAppState`, partial records (`Patch`), the shallow merge, and the `State` class. Its `state` field is reassigned by `SetState` and `ResetState`.
- `grid.dfy` (`Grid`): the pixel-to-cell mapping, in exact real arithmetic.
- `game.dfy` (`Game`): turn toggling, the move log and the click listener. The methods work on a `State` object. Each is proved against a pure function of the old record (`Toggled`, `AddMoveTo`, `ClickAt`). Lemmas over runs of clicks (`Clicks`) state what holds across many events.
- `board.dfy` (`Board`): clicks inside the canvas take no cell twice and keep every cell on the board, so from such a start the log holds at most nine moves.
- `turns.dfy` (`Turns`): who makes each move. It holds the finding below and its correction.

Two behaviours of the code are easy to miss; the model follows the code:

- Turns alternate per click, not per recorded move. A throw from `addMove` leaves the click listener before `togglePlayerTurn` runs. So the turn does not change when no symbol is chosen, but it does change on an occupied cell.
- Cells are any pair of integers. Neither the mapping nor `addMove` checks the range. A position outside the canvas maps to a cell off the board, and that cell is recorded. `Board` states the bound only for clicks inside the canvas.

## Model

| member | source | states |
|---|---|---|
| `StateHolder.Merge` | src/app.ts:24-26 | each field given in the patch takes the given value; each field left out keeps the old value |
| `StateHolder.MergeEmptyIsIdentity` | src/app.ts:24-26 | merging `{}` leaves the record as it was |
| `StateHolder.MergeIsIdempotent` | src/app.ts:24-26 | applying the same partial record twice equals applying it once |
| `StateHolder.MergeComposes` | src/app.ts:24-26 | two successive merges equal one merge with the later patch laid over the earlier |
| `StateHolder.FullPatchReplaces` | src/app.ts:24-26 | a patch that gives every key yields exactly the given record, whatever the old one was |
| `StateHolder.State.constructor` | src/app.ts:16-18 | the holder starts with the given record |
| `StateHolder.State.GetState` | src/app.ts:20-22 | returns the held record |
| `StateHolder.State.SetState` | src/app.ts:24-26 | the new record is the shallow merge of the old record and the patch |
| `StateHolder.State.ResetState` | src/app.ts:28-30 | the record becomes `StateHolder.DefaultAppState`, the defaults of lines 5-11: both symbols null, Player1 to move, no hovered cell, empty log; the result does not depend on the old record, so a second reset changes nothing |
| `Grid.CellAddress` | src/app.ts:152-163 | the returned cell is the one whose band, a third of the canvas wide (or high), contains the position on each axis |
| `Grid.CellAddressInGridIffInside` | src/app.ts:159-162 | a position maps to a cell of the 3x3 board if and only if it lies inside the canvas |
| `Grid.CellAddressIsMonotone` | src/app.ts:159-160 | moving right or down never moves the cell left or up |
| `Game.Other` | src/app.ts:36 | the toggled turn always differs from the current one |
| `Game.OtherIsInvolution` | src/app.ts:36 | toggling twice gives back the original turn |
| `Game.Toggled` | src/app.ts:35-37 | toggling changes only `currentTurn`, and it goes to the other player |
| `Game.ToggledTwiceRestores` | src/app.ts:35-37 | two toggles restore the whole record |
| `Game.TogglePlayerTurn` | src/app.ts:35-37 | the held record changes only in `currentTurn`, which passes to the other player |
| `Game.Occupied` | src/app.ts:196 | true if and only if some recorded move has the same x and the same y as the cell |
| `Game.MoveAlreadyExists` | src/app.ts:195-197 | answers whether some move in the held log has the same x and y as the cell; the state is not changed |
| `Game.AddMoveTo` | src/app.ts:199-216 | throws "INVALID PLAYER" exactly when player 1 has no symbol; on an occupied cell the record is unchanged; otherwise only `moves` changes, to the old log followed by `{cell, player: currentTurn}` |
| `Game.AddMoveExtendsLog` | src/app.ts:208-215 | a successful call keeps the old log as a prefix, adds at most one move, and leaves symbols, turn and hovered cell alone |
| `Game.AddMoveKeepsCellsDistinct` | src/app.ts:204-215 | if no two logged moves share a cell before the call, none do after it |
| `Game.AddMove` | src/app.ts:199-216 | fails exactly when player 1 has no symbol, and then leaves the state unchanged; on an occupied cell the state is unchanged; otherwise the new log is the old log followed by the move; agrees with `AddMoveTo` |
| `Game.ClickAt` | src/app.ts:268-274 | throws exactly when player 1 has no symbol; otherwise the turn always passes, the log is unchanged on an occupied cell, and on a free cell the move is appended |
| `Game.HandleSelectCell` | src/app.ts:184-193 | the position is mapped to a cell and `addMove` is run on it; a throw leaves the state unchanged |
| `Game.OnCanvasClick` | src/app.ts:268-274 | the new state is what `ClickAt` gives for the mapped cell; a throw changes nothing and skips the toggle; without a throw the turn always passes |
| `Game.ClicksKeepSymbols` | src/app.ts:268-274 | clicks never change the chosen symbols; with player 1 unset, no click changes anything |
| `Game.ClicksExtendLog` | src/app.ts:268-274 | over any run of clicks the log only grows, the old log stays a prefix, and each click adds at most one move |
| `Game.ClicksAlternateTurn` | src/app.ts:268-274 | with a symbol chosen, after n clicks the turn is the original one if n is even and the other one if n is odd |
| `Game.ClicksKeepCellsDistinct` | src/app.ts:199-216 | any run of clicks keeps all logged cells pairwise distinct |
| `Game.ClicksFromResetKeepCellsDistinct` | src/app.ts:5-11 | starting from the defaults, chosen symbol or not, no run of clicks logs a cell twice |
| `Board.AtMostNineMoves` | src/app.ts:204-206 | a log of pairwise distinct cells, all on the 3x3 board, has at most nine moves |
| `Board.ClicksStayOnBoard` | src/app.ts:199-216 | clicks on board cells keep every logged cell on the board |
| `Board.ClicksInsideCanvasAtMostNine` | src/app.ts:268-274 | from a valid log, any number of clicks inside the canvas leaves at most nine moves |
| `Turns.ClickAtFixed` | src/app.ts:268-274 | corrected click: throws exactly when player 1 has no symbol; an occupied cell changes nothing, not even the turn; a free cell gets the move and the turn passes |
| `Turns.ClickAtFixedKeepsAlternation` | src/app.ts:268-274 | a corrected click keeps the log alternating Player1, Player2, and so on, with the turn matching the log's length |
| `Turns.ClicksFixedKeepAlternation` | src/app.ts:268-274 | any run of corrected clicks keeps that alternation |
| `Turns.ClicksFixedFromStartAlternate` | src/app.ts:5-11 | from the defaults with a symbol chosen, corrected clicks always alternate |
| `Turns.ClickAtFixedAgreesOnFreeCells` | src/app.ts:268-274 | on a free cell the corrected click and the written click agree |
| `Turns.ClicksAsWrittenBreakAlternation` | src/app.ts:268-274 | as written, clicks on (0,0), (0,0), (1,1) give Player1 two moves in a row |

## Left out

- Screen switching, button listeners and listener registration in `init` (src/app.ts:54-112, 249-266): these wire up DOM events and show or hide elements. This includes `init`'s "something went wrong" check and its registering a fresh set of canvas listeners on every symbol pick.
- The symbol-pick listener (src/app.ts:98-107), `handleMouseMove` and the `mouseleave` listener (src/app.ts:173-182, 263-266): each is one `setState` call, covered by `State.SetState`, and otherwise event wiring.
- All canvas drawing: `colorCell`, `configureStroke`, `drawGrid`, `drawCell`, `drawMoves` and src/utils/canvas-utils.ts. These are Canvas API calls with no result to check.
- `getMousePositionInCanvas` (src/app.ts:165-171) reads `getBoundingClientRect`, a browser call. `HandleSelectCell` and `OnCanvasClick` take the canvas-relative position as a parameter instead. The model assumes that position is in the units of the canvas `width` attribute; the browser gives CSS pixels, which agree only when the canvas is not scaled by CSS.
- vite.config.ts is build configuration.
- Grid.CellAddress: uses exact real division, not IEEE doubles (`width / 3` is rounded in JavaScript). It also requires a positive canvas size: with size 0, JavaScript gives NaN or infinite coordinates, which a `Cell` cannot hold.
- Aliasing: `getState` hands out the live record object, and `resetState`'s shallow copy shares the `[]` of `DEFAULT_APP_STATE`. The model uses value semantics (`seq`). Nothing in the modelled code mutates the shared objects, because `addMove` pushes onto a copy.
- A partial record with a key explicitly set to `undefined` copies `undefined` in the spread. The model's `Patch` has only "given" or "left out", and values of the declared types.

## Findings

| source | as written | input that shows it | evidently intended | confidence | as-written member | corrected member |
|---|---|---|---|---|---|---|
| src/app.ts:268-274 | `togglePlayerTurn` runs after `handleSelectCell` even when `addMove` returned early on an occupied cell | symbol chosen; clicks on cells (0,0), (0,0), (1,1) log two moves by Player1 in a row | a click on an occupied cell leaves the turn with the same player, so moves alternate between the players | medium, not executed | `Turns.ClicksAsWrittenBreakAlternation` | `Turns.ClickAtFixed` |

The `State` methods and `Game.OnCanvasClick` model the code as written. The alternation
lemmas in `Turns` are stated over the corrected click.
