# Checkers rules engine and turn machine, in Dafny

This project models the rules engine of a web checkers game (an
Ethiopian-checkers variant) and the single-player turn machine built on top
of it, and proves properties of both.

- **Rules engine** (`lib/game-logic.ts`): pieces are records
  `{id, type, color, position}` on an 8x8 board, kept in a list.
  - `initializeBoard` builds the opening: 12 dark pieces on rows 0-2, then
    12 light pieces on rows 5-7, on the squares with `(row + col) % 2 == 1`.
  - `getValidMoves` generates the moves of one piece. Captures are single
    jumps over an adjacent opponent, in all four diagonal directions. A piece
    that can capture may only capture.
  - Non-capturing moves are one diagonal step: forward for regular pieces, any
    diagonal for kings.
  - `hasCaptureMoves` and `getAllValidMovesForColor` apply the forced-capture
    rule across a whole colour.
  - `executeMove` moves a piece, removes a jumped piece and promotes.
  - `checkWinCondition` detects elimination, or a side to move that has no move.
- **Turn machine** (`lib/hooks/use-game-state.ts`): `selectPiece`, `makeMove`,
  `resetGame` and the winner-check effect. Each becomes a pure function on a
  `GameState` record. React's state setters are read as simultaneous
  assignments. The effect runs exactly when its dependencies `pieces` or
  `currentTurn` change: after an accepted move, a reset, mount, or a props
  update.

Modules:

| module | file | what it holds |
|---|---|---|
| `Wrappers`, `Board` | Board.dfy | the data model from `components/game-board.tsx` and `lib/game-logic.ts`, JavaScript's `find`/`findIndex`/`some`/`filter`, and square lookup |
| `PieceIds` | PieceIds.dfy | the `piece-${n}` identifiers and their injectivity |
| `Opening` | Opening.dfy | `initializeBoard` and the opening-position theorem |
| `MoveGen` | MoveGen.dfy | directions, captures, `getValidMoves`, `hasCaptureMoves`, `getAllValidMovesForColor` |
| `Execution` | Execution.dfy | `executeMove`, including its stale-index behaviour |
| `WinCheck` | WinCheck.dfy | `checkWinCondition` |
| `TurnMachine` | TurnMachine.dfy | the hook's state, callbacks and effects |
| `TurnProperties` | TurnProperties.dfy | multi-jump, stale-index, reset and run-level theorems |

The model follows the code, which implements less than the game's written
rules describe:

- **Kings.** There are no flying kings: kings step one square.
- **Modes.** There is no "tank" mode.
- **Captures.** Captures are not restricted by rank. Regular pieces may capture backwards.
- **Forced capture.** `getValidMoves` applies it per piece only. The colour-wide rule exists only in `getAllValidMovesForColor`, which the hook does not call.
- **Turn check.** `makeMove` does not check that the piece belongs to the side to move; only `selectPiece` does.
- **Continuation.** During a multi-jump, `makeMove` does not restrict which piece moves.
- **Winner.** A declared winner does not block further moves.

### The stale index in `executeMove`

`executeMove` splices out the jumped piece (`lib/game-logic.ts:211`). It then
writes the moved piece back at the index it found before the splice
(`lib/game-logic.ts:216`).

When the jumped piece lies earlier in the list than the mover, two things go
wrong:

- the old mover record survives one place down;
- the new record overwrites the mover's right-hand neighbour, or is appended when the mover was last.

The model keeps this behaviour:

- `Execution.ExecuteMoveStaleIndex` states the exact result.
- `TurnProperties.StaleIndexContinuation` shows what the hook then does. The board now holds the mover's id twice. The continuation check reads the mover's old record, on its old square.
- `TurnProperties.LightCaptureHitsStaleIndex` and `TurnProperties.OpeningDarkBeforeLight` show when it happens. While the dark pieces are still listed before the light ones, as they are from the opening, every capture by a light piece takes this path.

The clean behaviour is proved under the hypothesis that the jumped piece lies
later in the list than the mover. It is stated in
`Execution.ExecuteMoveCapture`, `Execution.ExecuteMovePreservesWellFormed` and
`TurnProperties.MultiJumpContinuation`.

## Model

| member | source | states |
|---|---|---|
| `PieceIds.PieceIdInjective` | lib/game-logic.ts:24-31 | the ids `piece-${n}` handed out by the running counter are pairwise distinct |
| `Opening.RowPiecesShape` | lib/game-logic.ts:28-37 | every piece one row of the opening loop places is a regular piece of the colour on a square of that row with odd `row + col`, at or right of the starting column; the pieces run left to right and are numbered consecutively |
| `Opening.RowPiecesLength` | lib/game-logic.ts:28-37 | one row of the opening loop places exactly one piece per square of the row with odd `row + col` from the starting column on |
| `Opening.BandPiecesLength` | lib/game-logic.ts:27-38 | a band of rows holds four pieces per row |
| `Opening.BandPiecesShape` | lib/game-logic.ts:27-38 | a band of rows is in row-major order, numbered consecutively, all regular pieces of the colour on odd squares of those rows |
| `Opening.InitialPosition` | lib/game-logic.ts:22-55 | the opening has 24 regular pieces `piece-0`..`piece-23`; the first 12 are dark on rows 0-2 and the last 12 light on rows 5-7; all stand on squares with odd `row + col`; ids and squares are distinct and on the board |
| `Board.PieceAt` | lib/game-logic.ts:62-65 | `getPieceAt` finds nothing exactly when no piece stands on the square; otherwise it returns the FIRST piece of the list standing there (no earlier piece stands on that square), as `Array.find` does |
| `Board.FindById` | lib/hooks/use-game-state.ts:41 | `pieces.find` by id finds nothing exactly when no piece has the id; otherwise it returns the FIRST piece of the list with that id (no earlier piece has it), as `Array.find` does |
| `Board.FindByIdUnique` | lib/hooks/use-game-state.ts:53 | when no two pieces share an id (`UniqueIds`, nothing assumed about squares), the lookup by id returns the piece at that index |
| `MoveGen.Directions` | lib/game-logic.ts:92-115 | the step directions are exactly the four diagonals for a king, and the two forward diagonals for a regular piece (row -1 for light, +1 for dark) |
| `MoveGen.AllCaptureDirections` | lib/game-logic.ts:118-125 | the capture directions are exactly the four diagonal unit vectors, for every piece |
| `MoveGen.CaptureMovesAlongMembers` | lib/game-logic.ts:132-149 | the capture loop collects exactly one move per visited direction whose landing square is a capture landing, and that move records the jumped square |
| `MoveGen.CaptureMovesForPiece` | lib/game-logic.ts:128-152 | the capture moves are exactly the single jumps onto an empty board square over an opposing piece two diagonal squares away, at most four of them |
| `MoveGen.CanCaptureIff` | lib/game-logic.ts:128-152 | a piece has a capture move exactly when some square is a capture landing for it |
| `MoveGen.CaptureDestinations` | lib/game-logic.ts:73-75 | the mapped capture list holds exactly the capture landings |
| `MoveGen.StepMovesAlong` | lib/game-logic.ts:80-86 | the step loop keeps exactly the one-step targets in the given directions that are on the board and empty |
| `MoveGen.ValidMoves` | lib/game-logic.ts:68-89 | every destination is an empty board square; a piece with a capture gets exactly its capture landings; any other piece gets exactly its one-step moves |
| `MoveGen.ValidMoveRowDistance` | lib/game-logic.ts:70-86 | a legal destination is two rows away when the piece can capture, and one row away otherwise |
| `MoveGen.HasCaptureMoves` | lib/game-logic.ts:155-157 | true exactly when some piece of the colour has a capture move |
| `MoveGen.MovesMapPrefixEntry` | lib/game-logic.ts:164-183 | after the loop, an id is a key exactly when a listed piece has it, and its entry is that of the last listed piece with the id, as `Map.set` overwrites |
| `MoveGen.AllValidMovesForColor` | lib/game-logic.ts:160-186 | the keys are exactly the ids of pieces of the colour that can capture, when any can; otherwise the ids of pieces of the colour with a move; each entry is that piece's non-empty `getValidMoves` list |
| `MoveGen.ForcedCaptureLandings` | lib/game-logic.ts:162-175 | with no assumption on the board, when the colour has a capture, every listed destination is a capture landing of a piece of that colour |
| `MoveGen.ForcedCaptureForColor` | lib/game-logic.ts:162-175 | when no two pieces share an id (`UniqueIds`) and the colour has a capture, every listed destination is a capture landing of a piece of that colour, and a piece of the colour without a capture is not listed |
| `Execution.MovedPiece` | lib/game-logic.ts:215-224 | the moved record keeps id and colour and takes the new square; it is a king exactly when it was one or it reached row 0 (light) or row 7 (dark) |
| `Execution.ExecuteMove` | lib/game-logic.ts:189-227 | an absent id leaves the list unchanged; otherwise the moved record sits at the mover's original index and the list loses at most one element |
| `Execution.ExecuteMoveWithoutCapture` | lib/game-logic.ts:199-224 | a move that is not a jump, or a jump over an empty square, changes only the mover's square and rank and keeps the length |
| `Execution.ExecuteMoveCapture` | lib/game-logic.ts:202-216 | a jump over a piece listed after the mover removes exactly that piece and updates the mover in place |
| `Execution.ExecuteMoveStaleIndex` | lib/game-logic.ts:191-216 | a jump over a piece listed before the mover keeps the old mover record one place down and overwrites the next record, or appends; the mover's id then appears twice |
| `TurnProperties.StaleIndexLookup` | lib/game-logic.ts:191-216 | after a jump over a piece listed before the mover, the first record with the mover's id is its old record and the ids are no longer unique (`!UniqueIds`, the mover's id appears twice) |
| `Execution.ExecuteMovePreservesWellFormed` | lib/game-logic.ts:189-227 | on a well-formed board (unique ids, unique squares, all on the board), a legal move that avoids the stale index keeps ids and squares unique and on the board |
| `WinCheck.CheckWinCondition` | lib/game-logic.ts:230-247 | dark wins when no light piece is left (checked first); light wins when no dark piece is left; otherwise nobody has won exactly when the side to move has a piece with a move, and else its opponent wins |
| `WinCheck.WinnerIsNotStuckSide` | lib/game-logic.ts:230-247 | the side to move is reported as winner only when its opponent has no pieces |
| `TurnMachine.WinnerEffect` | lib/hooks/use-game-state.ts:32-37 | a winner reported by `checkWinCondition` is stored; an earlier winner is never cleared; no other field changes |
| `TurnMachine.WinnerEffectIdempotent` | lib/hooks/use-game-state.ts:32-37 | running the effect again on an unchanged board and turn changes nothing |
| `TurnMachine.Init` | lib/hooks/use-game-state.ts:8-15 | the hook starts from the given pieces (an empty list counts as given) or the opening, and from the given turn or light, with no selection, moves or history; the winner is whatever the mount-time check reports |
| `TurnMachine.SyncProps` | lib/hooks/use-game-state.ts:17-37 | new props replace the pieces and the turn; selection, valid moves and history survive; the winner effect then stores `checkWinCondition`'s non-null result on the synced board and otherwise keeps the earlier winner, so a declared winner stays declared |
| `TurnMachine.SelectPiece` | lib/hooks/use-game-state.ts:39-49 | a missing piece or one of the side not to move changes nothing; otherwise the piece is selected and `validMoves` are its legal destinations; board, turn, winner and history never change |
| `TurnMachine.ContinuationMoves` | lib/hooks/use-game-state.ts:72-77 | the further moves two rows away are exactly the capture landings of the first piece with the id, and there are some exactly when it can capture |
| `TurnMachine.MakeMove` | lib/hooks/use-game-state.ts:51-96 | accepted exactly when the id is found and the destination is legal for that piece; a rejection changes nothing; acceptance appends the history entry and installs `executeMove`'s result; the turn is kept if and only if the move covered two rows and the mover has further captures, which become `validMoves` with the mover selected; otherwise the turn passes and selection and moves are cleared |
| `TurnMachine.ResetGame` | lib/hooks/use-game-state.ts:98-105 | the opening position, light to move, and every other field cleared |
| `TurnMachine.Step` | lib/hooks/use-game-state.ts:31-105 | a selection is `selectPiece`; a rejected move changes nothing; an accepted move is `makeMove` with the winner then set by the effect: a non-null `checkWinCondition` result on the new board and turn is stored, and the winner changes only to that result; a reset gives `resetGame`'s state with the winner being the check's result on the opening; apart from a reset, no step clears a declared winner |
| `TurnProperties.MultiJumpContinuation` | lib/hooks/use-game-state.ts:65-93 | on a well-formed board, a legal move that avoids the stale index is accepted and keeps the board well-formed; the turn is kept exactly when the move captured and the moved piece can capture again, and then `validMoves` are exactly its capture landings |
| `TurnProperties.StaleIndexContinuation` | lib/hooks/use-game-state.ts:65-77 | a legal jump over a piece listed before the mover is accepted, leaves the mover's id twice on the board (`!UniqueIds`), and the continuation check reads the mover's old record |
| `TurnProperties.LightCaptureHitsStaleIndex` | lib/game-logic.ts:202-216 | while dark pieces are listed before light ones, every light capture jumps a piece listed before the mover |
| `TurnProperties.OpeningDarkBeforeLight` | lib/game-logic.ts:22-55 | the opening lists every dark piece before every light piece |
| `TurnProperties.StepGivesMove` | lib/game-logic.ts:68-89 | a piece with a free one-square step in any of its directions (a king's backward step included) always has a non-empty move list |
| `TurnProperties.OpeningHasNoWinner` | lib/game-logic.ts:230-247 | in the opening position with light to move, nobody has won |
| `TurnProperties.ResetStartsOver` | lib/hooks/use-game-state.ts:98-105 | a reset, effect included, leaves the well-formed opening with light to move and no selection, moves, history or winner |
| `TurnProperties.DefaultStart` | lib/hooks/use-game-state.ts:8-9 | the hook mounted without props starts from the well-formed opening, light to move, with no winner |
| `TurnProperties.SelectionMatchesAcceptance` | lib/hooks/use-game-state.ts:39-59 | for a piece of the side to move, the destinations `selectPiece` offers are exactly those `makeMove` then accepts |
| `TurnProperties.AcceptanceIgnoresTurnAndWinner` | lib/hooks/use-game-state.ts:51-66 | acceptance and the resulting board depend only on the pieces, not on the turn, the selection or the winner |
| `TurnProperties.RunWithoutReset` | lib/hooks/use-game-state.ts:31-96 | along any sequence of selections and moves, the history only grows and a declared winner stays declared |

## Left out

- Persistence, realtime sync and matchmaking (`lib/hooks/use-multiplayer-game.ts`, `lib/matchmaking.ts`, `lib/matchmaking-server.ts`): network and database I/O against a backend that is not part of this model.
- `serializeGameState` and `deserializeGameState`: thin wrappers over `JSON.stringify` and `JSON.parse`.
- The game timer, all pages and the board rendering: presentation and clock-driven code. Only the `Piece` types of `components/game-board.tsx:6-14` are mirrored.
- The raw `setPieces` and `setCurrentTurn` the hook returns: they are arbitrary assignments by the caller. `SyncProps` covers the prop-driven updates.
- React scheduling: each action is modelled as seeing the state of the previous one, that is, one action per render. Two callbacks fired within one render would both read the same stale closure; that is not modelled.
- JavaScript `Map` insertion order in `getAllValidMovesForColor`: the result is a Dafny `map`, so only keys and entries are modelled.
- JavaScript numbers: squares are unbounded integers. The midpoint `(a + b) / 2` of a jump is exact because the coordinates differ by two, so Dafny's integer division agrees with the source's division there.
- The unused `GameState` interface of `lib/game-logic.ts` and its `isDraw` flag.
- Flying kings, "tank" mode and rank-restricted captures: they are not implemented in the logic, so they are not modelled.
- `MoveGen.ValidMoves`: states which destinations are returned, not their order. The source lists them in direction order.
- `MoveGen.ForcedCaptureForColor`: assumes unique ids (`UniqueIds`; nothing about squares), and its capture half holds without that assumption as `MoveGen.ForcedCaptureLandings`. With a repeated id, `Map.set` lets a later piece's entry stand for an earlier one, and the "not listed" half no longer holds.
- `MoveGen.CaptureMovesAlong`: its own contract only bounds the length. Membership is stated by `MoveGen.CaptureMovesAlongMembers`.
